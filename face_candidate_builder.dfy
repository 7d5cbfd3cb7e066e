/**
 * Face candidates of one box: for every facing the face bounds (axis, sign,
 * origin, in-plane span) and the polygons to render on it, before any
 * occlusion. An AABB box yields its six rectangles; a transformable box
 * yields what its render cache keeps for each face.
 */
module FaceCandidateBuilder {
  import opened Wrappers
  import opened Facings
  import opened PolygonOps
  import opened Scene
  import opened TransformableRender

  /** boundsForFace: the face axis, its sign, the origin and the in-plane span of a box side. */
  datatype FaceBounds = FaceBounds(
    axis: Axis,
    sign: int,
    axisIndex: CoordIndex,
    oneIndex: CoordIndex,
    twoIndex: CoordIndex,
    originRaw: int,
    origin: real,
    minOne: real, maxOne: real,
    minTwo: real, maxTwo: real)

  /** A face candidate: the tile and box it belongs to, the facing, its bounds and its polygons. */
  datatype FaceCandidate = FaceCandidate(
    tile: Tile,
    box: Box,
    facing: Facing,
    bounds: FaceBounds,
    axisPolys: seq<Polygon>,
    tiltedPolys: seq<Polygon>)

  /**
   * boundsForFace. Positive facings (EAST, UP, SOUTH) have sign +1 and take
   * the box maximum on the face axis as origin; the others have sign -1 and
   * take the minimum. The span is the world bounds on the two in-plane axes.
   */
  function BoundsForFace(box: Box, f: Facing): (b: FaceBounds)
    ensures b.axis == FacingAxis(f) && b.axisIndex == AxisIndex(FacingAxis(f))
    ensures (b.oneIndex, b.twoIndex) == FacePlaneAxes(f)
    ensures b.sign == 1 <==> FacingPositive(f)
    ensures b.sign == -1 <==> !FacingPositive(f)
    ensures b.originRaw == if FacingPositive(f) then box.RawMax(b.axisIndex) else box.RawMin(b.axisIndex)
    ensures b.origin == if FacingPositive(f) then box.WorldMax(b.axisIndex) else box.WorldMin(b.axisIndex)
    ensures b.minOne == box.WorldMin(b.oneIndex) && b.maxOne == box.WorldMax(b.oneIndex)
    ensures b.minTwo == box.WorldMin(b.twoIndex) && b.maxTwo == box.WorldMax(b.twoIndex)
  {
    var axis := FacingAxis(f);
    var k := AxisIndex(axis);
    var (one, two) := FacePlaneAxes(f);
    var sign := if FacingPositive(f) then 1 else -1;
    FaceBounds(axis, sign, k, one, two,
      if sign > 0 then box.RawMax(k) else box.RawMin(k),
      if sign > 0 then box.WorldMax(k) else box.WorldMin(k),
      box.WorldMin(one), box.WorldMax(one), box.WorldMin(two), box.WorldMax(two))
  }

  /** faceRectFromBounds: the face rectangle of the bounds. */
  function FaceRect(b: FaceBounds): (r: Polygon)
    ensures |r| == 4
  {
    FaceVerticesFromPlaneRect(PlaneRect(b.axis, b.sign, b.origin, b.minOne, b.maxOne, b.minTwo, b.maxTwo))
  }

  /** The full rectangle of a box side lies in the plane of its origin and spans the box. */
  lemma FaceRectOfBounds(box: Box, f: Facing)
    ensures var b := BoundsForFace(box, f);
      var r := FaceRect(b);
      (forall i :: 0 <= i < 4 ==> r[i].At(b.axisIndex) == b.origin) &&
      var ps := InPlanePairs(r, b.axis);
      var cs := [(b.minOne, b.minTwo), (b.maxOne, b.minTwo), (b.maxOne, b.maxTwo), (b.minOne, b.maxTwo)];
      ps == cs || ps == [cs[3], cs[2], cs[1], cs[0]] || ps == [cs[1], cs[0], cs[3], cs[2]]
  {
    var b := BoundsForFace(box, f);
    var rect := PlaneRect(b.axis, b.sign, b.origin, b.minOne, b.maxOne, b.minTwo, b.maxTwo);
    FaceRectInPlane(rect);
    FaceRectSpansBounds(rect);
  }

  // ---------------------------------------------------------------------
  // AABB boxes

  /** The candidate of one side of an AABB box: its full rectangle and no tilted polygons. */
  function AabbCandidate(tile: Tile, box: Box, f: Facing): FaceCandidate
  {
    var b := BoundsForFace(box, f);
    FaceCandidate(tile, box, f, b, [FaceRect(b)], [])
  }

  /** The k-th candidate is the one of the k-th facing. */
  predicate IsAabbCandidateAt(c: FaceCandidate, k: nat, tile: Tile, box: Box)
    requires k < 6
  {
    c == AabbCandidate(tile, box, FacingOrder[k])
  }

  /**
   * buildAabbFaceCandidates: exactly six candidates in facing order, each
   * with the full rectangle of its side as its one axis polygon and no
   * tilted polygons.
   */
  method BuildAabbFaceCandidates(tile: Tile, box: Box) returns (out: seq<FaceCandidate>)
    ensures |out| == 6
    ensures forall k :: 0 <= k < 6 ==> IsAabbCandidateAt(out[k], k, tile, box)
    ensures forall k :: 0 <= k < 6 ==>
      out[k].facing == FacingOrder[k] && out[k].axisPolys == [FaceRect(out[k].bounds)] && out[k].tiltedPolys == []
  {
    out := [];
    for i := 0 to 6
      invariant |out| == i
      invariant forall k :: 0 <= k < i ==> IsAabbCandidateAt(out[k], k, tile, box)
    {
      var b := BoundsForFace(box, FacingOrder[i]);
      out := out + [FaceCandidate(tile, box, FacingOrder[i], b, [FaceRect(b)], [])];
    }
  }

  // ---------------------------------------------------------------------
  // Transformable boxes

  /**
   * The candidate of one facing of a transformable box, given its render
   * cache. None when the cache has no entry for the facing, when tilted-only
   * faces are not allowed and the face is neither completely filled nor has
   * axis strips, or when nothing would be rendered. A completely filled face
   * renders the full rectangle; otherwise its axis strips.
   */
  function TransformableCandidate(tile: Tile, box: Box, cache: RenderCache, f: Facing, allowTiltedOnly: bool)
    : (r: Option<FaceCandidate>)
    ensures f !in cache.faces ==> r.None?
    ensures f in cache.faces && !allowTiltedOnly && !cache.faces[f].isCompletelyFilled && cache.faces[f].axisStrips == [] ==> r.None?
    ensures r.Some? ==> r.value.facing == f && r.value.bounds == BoundsForFace(box, f) && r.value.box == box && r.value.tile == tile
    ensures r.Some? ==> |r.value.axisPolys| > 0 || |r.value.tiltedPolys| > 0
    ensures r.Some? ==> r.value.tiltedPolys == cache.faces[f].tiltedRender
    ensures r.Some? && cache.faces[f].isCompletelyFilled ==> r.value.axisPolys == [FaceRect(BoundsForFace(box, f))]
    ensures r.Some? && !cache.faces[f].isCompletelyFilled ==> r.value.axisPolys == cache.faces[f].axisStrips
    ensures f in cache.faces && cache.faces[f].isCompletelyFilled ==> r.Some?
    ensures f in cache.faces && cache.faces[f].axisStrips != [] ==> r.Some?
  {
    if f !in cache.faces then None
    else
      var fc := cache.faces[f];
      if !allowTiltedOnly && !fc.isCompletelyFilled && |fc.axisStrips| == 0 then None
      else
        var b := BoundsForFace(box, f);
        var axisPolys := if fc.isCompletelyFilled then [FaceRect(b)] else if |fc.axisStrips| > 0 then fc.axisStrips else [];
        if |axisPolys| == 0 && |fc.tiltedRender| == 0 then None
        else Some(FaceCandidate(tile, box, f, b, axisPolys, fc.tiltedRender))
  }

  /** The candidates of the given facings, in their order, skipping the facings that yield none. */
  function TransformableCandidates(tile: Tile, box: Box, cache: RenderCache, facings: seq<Facing>, allowTiltedOnly: bool)
    : seq<FaceCandidate>
    decreases |facings|
  {
    if facings == [] then []
    else
      var rest := TransformableCandidates(tile, box, cache, facings[..|facings| - 1], allowTiltedOnly);
      match TransformableCandidate(tile, box, cache, facings[|facings| - 1], allowTiltedOnly)
      case None => rest
      case Some(c) => rest + [c]
  }

  /**
   * The candidates come in facing order, one per facing at most, and each
   * is the candidate of its facing.
   */
  lemma {:induction false} TransformableCandidatesInOrder(tile: Tile, box: Box, cache: RenderCache, k: nat, allowTiltedOnly: bool)
    requires k <= 6
    ensures var out := TransformableCandidates(tile, box, cache, FacingOrder[..k], allowTiltedOnly);
      |out| <= k &&
      (forall i :: 0 <= i < |out| ==> Ordinal(out[i].facing) < k) &&
      (forall i, j :: 0 <= i < j < |out| ==> Ordinal(out[i].facing) < Ordinal(out[j].facing)) &&
      (forall i :: 0 <= i < |out| ==> TransformableCandidate(tile, box, cache, out[i].facing, allowTiltedOnly) == Some(out[i]))
  {
    FacingOrderIsOrdinal();
    if k > 0 {
      TransformableCandidatesInOrder(tile, box, cache, k - 1, allowTiltedOnly);
      assert FacingOrder[..k][..k - 1] == FacingOrder[..k - 1];
    }
  }

  /** The candidate list holds, for every facing that yields a candidate, that candidate. */
  lemma {:induction false} TransformableCandidatesComplete(tile: Tile, box: Box, cache: RenderCache, k: nat, allowTiltedOnly: bool, f: Facing)
    requires k <= 6 && Ordinal(f) < k
    requires TransformableCandidate(tile, box, cache, f, allowTiltedOnly).Some?
    ensures TransformableCandidate(tile, box, cache, f, allowTiltedOnly).value in
      TransformableCandidates(tile, box, cache, FacingOrder[..k], allowTiltedOnly)
  {
    FacingOrderIsOrdinal();
    assert FacingOrder[..k][..k - 1] == FacingOrder[..k - 1];
    if Ordinal(f) < k - 1 {
      TransformableCandidatesComplete(tile, box, cache, k - 1, allowTiltedOnly, f);
    } else {
      assert FacingOrder[k - 1] == f;
    }
  }

  /** The candidates of the first k facings. */
  predicate IsTransformablePrefix(out: seq<FaceCandidate>, k: nat, tile: Tile, box: Box, cache: RenderCache, allowTiltedOnly: bool)
    requires k <= 6
  {
    out == TransformableCandidates(tile, box, cache, FacingOrder[..k], allowTiltedOnly)
  }

  /** One step of the facing loop: the prefix grows by the candidate of the next facing, if any. */
  lemma TransformablePrefixStep(out: seq<FaceCandidate>, k: nat, tile: Tile, box: Box, cache: RenderCache, allowTiltedOnly: bool)
    requires k < 6 && IsTransformablePrefix(out, k, tile, box, cache, allowTiltedOnly)
    ensures var c := TransformableCandidate(tile, box, cache, FacingOrder[k], allowTiltedOnly);
      IsTransformablePrefix(if c.Some? then out + [c.value] else out, k + 1, tile, box, cache, allowTiltedOnly)
  {
    assert FacingOrder[..k + 1][..k] == FacingOrder[..k];
  }

  /**
   * buildTransformableFaceCandidates: the render cache is fetched (and
   * memoised in the returned box), then every facing in order contributes
   * its candidate, if any.
   */
  method BuildTransformableFaceCandidates(tile: Tile, box: Box, allowTiltedOnly: bool)
    returns (out: seq<FaceCandidate>, updated: Box)
    ensures box.transformCache.Some? ==> updated == box
    ensures box.transformCache.None? ==> updated.transformCache.Some? && updated == box.(transformCache := updated.transformCache)
    ensures updated.transformCache.Some?
    ensures out == TransformableCandidates(tile, updated, updated.transformCache.value, FacingOrder, allowTiltedOnly)
  {
    var cache;
    ghost var raw, trace;
    cache, updated, raw, trace := GetTransformableRenderCache(box);
    out := [];
    for i := 0 to 6
      invariant IsTransformablePrefix(out, i, tile, updated, cache, allowTiltedOnly)
    {
      TransformablePrefixStep(out, i, tile, updated, cache, allowTiltedOnly);
      var c := TransformableCandidate(tile, updated, cache, FacingOrder[i], allowTiltedOnly);
      if c.Some? {
        out := out + [c.value];
      }
    }
    assert FacingOrder[..6] == FacingOrder;
  }

  /** Whether the builder takes the transformable path: a transformable box with transform data (possibly empty). */
  predicate UsesTransformablePath(box: Box)
  {
    box.kind == Transformable && box.transformData.Some?
  }

  /**
   * buildFaceCandidatesWithOptions: the transformable builder for a
   * transformable box with transform data, the AABB builder otherwise (six
   * full rectangles in facing order, the box unchanged).
   */
  method BuildFaceCandidatesWithOptions(tile: Tile, box: Box, allowTiltedOnly: bool)
    returns (out: seq<FaceCandidate>, updated: Box)
    ensures !UsesTransformablePath(box) ==> (updated == box && |out| == 6 &&
      forall k :: 0 <= k < 6 ==> IsAabbCandidateAt(out[k], k, tile, box))
    ensures UsesTransformablePath(box) ==> (updated.transformCache.Some? &&
      out == TransformableCandidates(tile, updated, updated.transformCache.value, FacingOrder, allowTiltedOnly))
    ensures box.transformCache.Some? ==> updated == box
  {
    if UsesTransformablePath(box) {
      out, updated := BuildTransformableFaceCandidates(tile, box, allowTiltedOnly);
    } else {
      out := BuildAabbFaceCandidates(tile, box);
      updated := box;
    }
  }

  /**
   * A transformable box whose transform data is present but empty yields no
   * candidate at all: its cache has six empty faces, none completely filled.
   */
  lemma {:induction false} EmptyTransformDataYieldsNothing(tile: Tile, box: Box, k: nat, allowTiltedOnly: bool)
    requires k <= 6
    ensures TransformableCandidates(tile, box, EmptyRenderCache, FacingOrder[..k], allowTiltedOnly) == []
  {
    if k > 0 {
      EmptyTransformDataYieldsNothing(tile, box, k - 1, allowTiltedOnly);
      assert FacingOrder[..k][..k - 1] == FacingOrder[..k - 1];
    }
  }
}
