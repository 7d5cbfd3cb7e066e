/**
 * The candidate pipeline: every box of every tile yields its face
 * candidates, each candidate is classified (or only checked for renderable
 * polygons when internal occlusion is off), the renderable ones are
 * yielded in tile, box and facing order, and buildVisibleFaces cuts their
 * axis polygons against the neighbouring boxes and emits one visible face
 * per surviving polygon, axis pieces first, tilted fragments after.
 */
module FaceCandidates {
  import opened Wrappers
  import opened Facings
  import opened Json
  import opened PolygonOps
  import opened Scene
  import opened FaceCandidateBuilder
  import opened FaceStateEvaluation
  import OccluderOps
  import TileNormalization
  import TransformableRender
  import PostprocessFaces

  // ---------------------------------------------------------------------
  // Options

  /** resolveEvaluateInternalOcclusion: on unless the option is exactly false. */
  function ResolveEvaluateInternalOcclusion(options: Json): (on: bool)
    ensures !on <==> Get(options, "evaluateInternalOcclusion") == Some(JBool(false))
  {
    !IsBool(Get(options, "evaluateInternalOcclusion"), false)
  }

  /** resolveRuntimeFaceBehaviorProfileOption: the profile option, null when missing. */
  function ProfileOf(options: Json): (profile: Json)
    ensures IsNullish(Get(options, "runtimeFaceBehaviorProfile")) ==> profile == JNull
    ensures !IsNullish(Get(options, "runtimeFaceBehaviorProfile")) ==> Some(profile) == Get(options, "runtimeFaceBehaviorProfile")
  {
    var p := Get(options, "runtimeFaceBehaviorProfile");
    if IsNullish(p) then JNull else p.value
  }

  /** The three profile fields the face-state evaluator reads, each by a strict comparison. */
  function ProfileFlags(profile: Json): (flags: FaceStateFlags)
    ensures profile == JNull ==> flags == FaceStateFlags(false, false, false)
  {
    var faceStates := Get(profile, "faceStates");
    FaceStateFlags(
      IsString(GetOpt(faceStates, "outsideNeighborPolicy"), "air"),
      IsBool(GetOpt(faceStates, "occludeOutsideFacesWithTiles"), true),
      IsBool(GetOpt(faceStates, "supportsCutting"), true))
  }

  /** resolveCandidateBuildOptions: tilted-only transformable faces are allowed exactly in client mode. */
  function ResolveCandidateBuildOptions(options: Json): (r: Json)
    ensures Get(r, "allowTiltedOnlyTransformableFaces") ==
      Some(JBool(PostprocessFaces.ResolveGeometryMode(options) == PostprocessFaces.Client))
  {
    JObj(map["allowTiltedOnlyTransformableFaces" := JBool(PostprocessFaces.ResolveGeometryMode(options) == PostprocessFaces.Client)])
  }

  /**
   * The allowTiltedOnlyTransformableFaces flag the builder sees: from the
   * candidateBuildOptions option when it is present, else from the mode.
   */
  function AllowTiltedOnlyOf(options: Json): bool
  {
    var c := Get(options, "candidateBuildOptions");
    var build := if IsNullish(c) then ResolveCandidateBuildOptions(options) else c.value;
    IsBool(Get(build, "allowTiltedOnlyTransformableFaces"), true)
  }

  /** Without candidateBuildOptions, tilted-only faces are allowed exactly in client geometry mode. */
  lemma AllowTiltedOnlyFollowsMode(options: Json)
    requires IsNullish(Get(options, "candidateBuildOptions"))
    ensures AllowTiltedOnlyOf(options) <==> PostprocessFaces.ResolveGeometryMode(options) == PostprocessFaces.Client
  {
  }

  /** What iterateRenderableFaceCandidates resolves from its options. */
  datatype CandidateSettings = CandidateSettings(occlusion: bool, flags: FaceStateFlags, clientMode: bool, allowTiltedOnly: bool)

  function SettingsOf(options: Json): CandidateSettings
  {
    CandidateSettings(
      ResolveEvaluateInternalOcclusion(options),
      ProfileFlags(ProfileOf(options)),
      PostprocessFaces.ResolveGeometryMode(options) == PostprocessFaces.Client,
      AllowTiltedOnlyOf(options))
  }

  // ---------------------------------------------------------------------
  // Renderability of one candidate

  /** The record evaluateFaceCandidateRenderability returns: the face state (null without occlusion) and the side. */
  datatype Renderability = Renderability(faceState: Option<FaceState>, outside: bool)

  /**
   * evaluateFaceCandidateRenderability. With internal occlusion the face
   * state decides and is kept; without it, any renderable axis or tilted
   * polygon makes the candidate renderable, with no face state.
   */
  function RenderabilityOf(face: FaceCandidate, tile: Tile, tiles: seq<Tile>, s: CandidateSettings): Option<Renderability>
  {
    if s.occlusion then
      var state := FaceStateOf(face, tile, tiles, s.flags, s.clientMode);
      if !state.renderable then None else Some(Renderability(Some(state), state.outside))
    else if HasRenderable(face.axisPolys) || HasRenderable(face.tiltedPolys) then
      Some(Renderability(None, OccluderOps.IsOutsideFace(face)))
    else None
  }

  method EvaluateFaceCandidateRenderability(face: FaceCandidate, tile: Tile, allTiles: seq<Tile>, s: CandidateSettings)
    returns (r: Option<Renderability>)
    ensures r == RenderabilityOf(face, tile, allTiles, s)
  {
    if s.occlusion {
      var state := EvaluateFaceState(face, tile, allTiles, s.flags, s.clientMode);
      if !state.renderable {
        return None;
      }
      return Some(Renderability(Some(state), state.outside));
    }
    var hasAxis := HasRenderablePolygon(face.axisPolys);
    var hasTilted := HasRenderablePolygon(face.tiltedPolys);
    if !(hasAxis || hasTilted) {
      return None;
    }
    return Some(Renderability(None, OccluderOps.IsOutsideFace(face)));
  }

  /**
   * A candidate is kept exactly when its face state is renderable (with
   * occlusion) or it has a renderable polygon (without); its side is
   * always isOutsideFace, and the face state is kept only with occlusion.
   */
  lemma RenderabilityIff(face: FaceCandidate, tile: Tile, tiles: seq<Tile>, s: CandidateSettings)
    ensures var r := RenderabilityOf(face, tile, tiles, s);
      && (r.Some? <==> if s.occlusion then FaceStateOf(face, tile, tiles, s.flags, s.clientMode).renderable
                       else HasRenderable(face.axisPolys) || HasRenderable(face.tiltedPolys))
      && (r.Some? ==> r.value.outside == OccluderOps.IsOutsideFace(face))
      && (r.Some? ==> (r.value.faceState.Some? <==> s.occlusion))
  {
    FaceStateConsistent(face, tile, tiles, s.flags, s.clientMode);
  }

  /** A kept candidate always has a renderable polygon, with or without occlusion. */
  lemma RenderableCandidateHasPolygon(face: FaceCandidate, tile: Tile, tiles: seq<Tile>, s: CandidateSettings)
    requires RenderabilityOf(face, tile, tiles, s).Some?
    ensures HasRenderable(face.axisPolys) || HasRenderable(face.tiltedPolys)
  {
    UnloadedIffNothingRenderable(face, tile, tiles, s.flags, s.clientMode);
    FaceStateConsistent(face, tile, tiles, s.flags, s.clientMode);
  }

  // ---------------------------------------------------------------------
  // Render-cache priming

  /** The box is ready for candidate building: a transformable-path box has its render cache. */
  predicate Ready(box: Box)
  {
    UsesTransformablePath(box) ==> box.transformCache.Some?
  }

  /**
   * `p` is `b` with its render cache memoised: only the cache of a
   * transformable-path box may change, an existing memo is kept, and a box
   * without transform data gets six empty faces.
   */
  predicate PrimedBox(b: Box, p: Box)
  {
    if UsesTransformablePath(b) then
      && p.transformCache.Some?
      && p == b.(transformCache := p.transformCache)
      && (b.transformCache.Some? ==> p == b)
      && (b.transformCache.None? && !TransformableRender.HasTransformData(b) ==> p.transformCache == Some(EmptyRenderCache))
    else p == b
  }

  predicate PrimedTile(t: Tile, p: Tile)
  {
    p == t.(boxes := p.boxes) && |p.boxes| == |t.boxes| &&
    forall j :: 0 <= j < |t.boxes| ==> PrimedBox(t.boxes[j], p.boxes[j])
  }

  predicate Priming(ts: seq<Tile>, ps: seq<Tile>)
  {
    |ps| == |ts| && forall i :: 0 <= i < |ts| ==> PrimedTile(ts[i], ps[i])
  }

  /** Priming changes no box that is ready already, and a primed box is ready. */
  lemma PrimedBoxReady(b: Box, p: Box)
    requires PrimedBox(b, p)
    ensures Ready(p)
    ensures Ready(b) ==> p == b
  {
  }

  /** The tiles' boxes with their render caches memoised, as the first getTransformableRenderCache calls leave them. */
  method PrimeTile(t: Tile) returns (p: Tile)
    ensures PrimedTile(t, p)
  {
    var boxes: seq<Box> := [];
    for j := 0 to |t.boxes|
      invariant |boxes| == j
      invariant forall m :: 0 <= m < j ==> PrimedBox(t.boxes[m], boxes[m])
    {
      var box := t.boxes[j];
      if UsesTransformablePath(box) {
        var cache;
        ghost var raw, trace;
        cache, box, raw, trace := TransformableRender.GetTransformableRenderCache(box);
      }
      boxes := boxes + [box];
    }
    p := t.(boxes := boxes);
  }

  method PrimeRenderCaches(ts: seq<Tile>) returns (ps: seq<Tile>)
    ensures Priming(ts, ps)
  {
    ps := [];
    for i := 0 to |ts|
      invariant |ps| == i
      invariant forall m :: 0 <= m < i ==> PrimedTile(ts[m], ps[m])
    {
      var p := PrimeTile(ts[i]);
      ps := ps + [p];
    }
  }

  // ---------------------------------------------------------------------
  // iterateRenderableFaceCandidates

  /** The six candidates of an AABB box, in facing order. */
  function AabbCandidates(tile: Tile, box: Box): seq<FaceCandidate>
  {
    seq(6, k requires 0 <= k < 6 => AabbCandidate(tile, box, FacingOrder[k]))
  }

  /** The facing order the builders follow. */
  function BuilderFacings(): (fs: seq<Facing>)
    ensures fs == FacingOrder
  {
    FacingOrder
  }

  /** buildFaceCandidatesWithOptions on a box whose render cache is memoised. */
  function BoxCandidates(tile: Tile, box: Box, allowTiltedOnly: bool): seq<FaceCandidate>
  {
    if UsesTransformablePath(box) then
      TransformableCandidates(tile, box, OccluderOps.MemoRenderCache(box), BuilderFacings(), allowTiltedOnly)
    else AabbCandidates(tile, box)
  }

  /** One yielded record: the tile, the box, the candidate, its face state and its side. */
  datatype YieldedCandidate = YieldedCandidate(tile: Tile, box: Box, face: FaceCandidate, faceState: Option<FaceState>, outside: bool)

  /** The record a candidate yields, if it is renderable. */
  function YieldOf(tile: Tile, box: Box, face: FaceCandidate, tiles: seq<Tile>, s: CandidateSettings): Option<YieldedCandidate>
  {
    var r := RenderabilityOf(face, tile, tiles, s);
    if r.None? then None else Some(YieldedCandidate(tile, box, face, r.value.faceState, r.value.outside))
  }

  /** The records yielded for a list of candidates of one box, in order. */
  function FaceResults(tile: Tile, box: Box, faces: seq<FaceCandidate>, tiles: seq<Tile>, s: CandidateSettings): seq<YieldedCandidate>
    decreases |faces|
  {
    if faces == [] then []
    else
      var y := YieldOf(tile, box, faces[|faces| - 1], tiles, s);
      FaceResults(tile, box, faces[..|faces| - 1], tiles, s) + (if y.Some? then [y.value] else [])
  }

  /** The records yielded for one box: those of its candidates. */
  function BoxYields(tile: Tile, box: Box, tiles: seq<Tile>, s: CandidateSettings): seq<YieldedCandidate>
  {
    FaceResults(tile, box, BoxCandidates(tile, box, s.allowTiltedOnly), tiles, s)
  }

  /** The records yielded for a list of boxes of one tile, box by box. */
  function BoxResults(tile: Tile, boxes: seq<Box>, tiles: seq<Tile>, s: CandidateSettings): seq<YieldedCandidate>
  {
    ConcatMap((b: Box) => BoxYields(tile, b, tiles, s), boxes)
  }

  /** The records yielded for one tile: those of its boxes. */
  function TileYields(t: Tile, tiles: seq<Tile>, s: CandidateSettings): seq<YieldedCandidate>
  {
    BoxResults(t, t.boxes, tiles, s)
  }

  /** The records yielded for a list of tiles, tile by tile; `tiles` is the whole scene the evaluator looks at. */
  function TilesResults(ts: seq<Tile>, tiles: seq<Tile>, s: CandidateSettings): seq<YieldedCandidate>
  {
    ConcatMap((t: Tile) => TileYields(t, tiles, s), ts)
  }


  method IterateFaces(tile: Tile, box: Box, faces: seq<FaceCandidate>, tiles: seq<Tile>, s: CandidateSettings)
    returns (out: seq<YieldedCandidate>)
    ensures out == FaceResults(tile, box, faces, tiles, s)
  {
    out := [];
    for k := 0 to |faces|
      invariant out == FaceResults(tile, box, faces[..k], tiles, s)
    {
      assert faces[..k + 1][..k] == faces[..k];
      var result := EvaluateFaceCandidateRenderability(faces[k], tile, tiles, s);
      if result.None? {
        continue;
      }
      out := out + [YieldedCandidate(tile, box, faces[k], result.value.faceState, result.value.outside)];
    }
    assert faces[..|faces|] == faces;
  }

  /** The candidates of one ready box, from the builder. */
  method BuildBoxCandidates(tile: Tile, box: Box, allowTiltedOnly: bool) returns (faces: seq<FaceCandidate>)
    requires Ready(box)
    ensures faces == BoxCandidates(tile, box, allowTiltedOnly)
  {
    var updated;
    faces, updated := BuildFaceCandidatesWithOptions(tile, box, allowTiltedOnly);
    if !UsesTransformablePath(box) {
      assert forall k :: 0 <= k < 6 ==> faces[k] == AabbCandidates(tile, box)[k];
    }
  }

  method IterateBoxes(tile: Tile, tiles: seq<Tile>, s: CandidateSettings) returns (out: seq<YieldedCandidate>)
    requires forall j :: 0 <= j < |tile.boxes| ==> Ready(tile.boxes[j])
    ensures out == BoxResults(tile, tile.boxes, tiles, s)
  {
    out := [];
    for j := 0 to |tile.boxes|
      invariant out == BoxResults(tile, tile.boxes[..j], tiles, s)
    {
      ConcatMapSnoc((b: Box) => BoxYields(tile, b, tiles, s), tile.boxes, j);
      var box := tile.boxes[j];
      var faces := BuildBoxCandidates(tile, box, s.allowTiltedOnly);
      var yielded := IterateFaces(tile, box, faces, tiles, s);
      out := out + yielded;
    }
    assert tile.boxes[..|tile.boxes|] == tile.boxes;
  }

  /** Every box of every tile is ready for candidate building. */
  predicate AllReady(ts: seq<Tile>)
  {
    forall i, j :: 0 <= i < |ts| && 0 <= j < |ts[i].boxes| ==> Ready(ts[i].boxes[j])
  }

  /** Primed tiles are ready. */
  lemma PrimedTilesReady(ts: seq<Tile>, ps: seq<Tile>)
    requires Priming(ts, ps)
    ensures AllReady(ps)
  {
    forall i, j | 0 <= i < |ps| && 0 <= j < |ps[i].boxes|
      ensures Ready(ps[i].boxes[j])
    {
      PrimedBoxReady(ts[i].boxes[j], ps[i].boxes[j]);
    }
  }

  /** The tile loop of iterateRenderableFaceCandidates over ready tiles. */
  method IterateTiles(ts: seq<Tile>, s: CandidateSettings) returns (out: seq<YieldedCandidate>)
    requires AllReady(ts)
    ensures out == TilesResults(ts, ts, s)
  {
    out := [];
    for i := 0 to |ts|
      invariant out == TilesResults(ts[..i], ts, s)
    {
      ConcatMapSnoc((t: Tile) => TileYields(t, ts, s), ts, i);
      var yielded := IterateBoxes(ts[i], ts, s);
      out := out + yielded;
    }
    assert ts[..|ts|] == ts;
  }

  /**
   * iterateRenderableFaceCandidates: the render caches are memoised in the
   * tiles, then the yielded records are those of the primed tiles in tile,
   * box and candidate order, each candidate evaluated against the whole
   * primed scene with the settings resolved from the options.
   */
  method IterateRenderableFaceCandidates(tiles: seq<Tile>, options: Json)
    returns (out: seq<YieldedCandidate>, primed: seq<Tile>)
    ensures Priming(tiles, primed)
    ensures out == TilesResults(primed, primed, SettingsOf(options))
  {
    primed := PrimeRenderCaches(tiles);
    PrimedTilesReady(tiles, primed);
    out := IterateTiles(primed, SettingsOf(options));
  }

  // ---------------------------------------------------------------------
  // Properties of the yielded records

  /** A record is yielded for a list of candidates exactly when one of them is renderable and yields it. */
  lemma {:induction false} FaceResultsMember(tile: Tile, box: Box, faces: seq<FaceCandidate>, tiles: seq<Tile>, s: CandidateSettings, y: YieldedCandidate)
    ensures y in FaceResults(tile, box, faces, tiles, s) <==> exists c :: c in faces && YieldOf(tile, box, c, tiles, s) == Some(y)
    decreases |faces|
  {
    if faces != [] {
      var init := faces[..|faces| - 1];
      FaceResultsMember(tile, box, init, tiles, s, y);
      assert faces == init + [faces[|faces| - 1]];
      if exists c :: c in faces && YieldOf(tile, box, c, tiles, s) == Some(y) {
        var c :| c in faces && YieldOf(tile, box, c, tiles, s) == Some(y);
        if c in init {
          assert y in FaceResults(tile, box, init, tiles, s);
        }
      }
    }
  }

  /** A record is yielded for a list of boxes exactly when one of the boxes yields it. */
  lemma BoxResultsMember(tile: Tile, boxes: seq<Box>, tiles: seq<Tile>, s: CandidateSettings, y: YieldedCandidate)
    ensures y in BoxResults(tile, boxes, tiles, s) <==> exists b :: b in boxes && y in BoxYields(tile, b, tiles, s)
  {
    ConcatMapMember((b: Box) => BoxYields(tile, b, tiles, s), boxes, y);
  }

  /** A record is yielded for a list of tiles exactly when one of the tiles yields it. */
  lemma TilesResultsMember(ts: seq<Tile>, tiles: seq<Tile>, s: CandidateSettings, y: YieldedCandidate)
    ensures y in TilesResults(ts, tiles, s) <==> exists t :: t in ts && y in TileYields(t, tiles, s)
  {
    ConcatMapMember((t: Tile) => TileYields(t, tiles, s), ts, y);
  }

  /**
   * Every yielded record comes from a candidate the builder makes for a box
   * of a tile of the list, and is that candidate's record: the candidate is
   * renderable under the settings and the record carries its face state
   * and side.
   */
  lemma YieldedFromCandidate(ts: seq<Tile>, tiles: seq<Tile>, s: CandidateSettings, y: YieldedCandidate)
    requires y in TilesResults(ts, tiles, s)
    ensures y.tile in ts && y.box in y.tile.boxes
    ensures y.face in BoxCandidates(y.tile, y.box, s.allowTiltedOnly)
    ensures YieldOf(y.tile, y.box, y.face, tiles, s) == Some(y)
  {
    TilesResultsMember(ts, tiles, s, y);
    var t :| t in ts && y in TileYields(t, tiles, s);
    BoxResultsMember(t, t.boxes, tiles, s, y);
    var b :| b in t.boxes && y in BoxYields(t, b, tiles, s);
    FaceResultsMember(t, b, BoxCandidates(t, b, s.allowTiltedOnly), tiles, s, y);
  }

  /** Every renderable candidate of every box of every tile is yielded. */
  lemma RenderableCandidateYielded(ts: seq<Tile>, tiles: seq<Tile>, s: CandidateSettings, t: Tile, b: Box, c: FaceCandidate)
    requires t in ts && b in t.boxes && c in BoxCandidates(t, b, s.allowTiltedOnly)
    requires RenderabilityOf(c, t, tiles, s).Some?
    ensures YieldOf(t, b, c, tiles, s).value in TilesResults(ts, tiles, s)
  {
    var y := YieldOf(t, b, c, tiles, s).value;
    FaceResultsMember(t, b, BoxCandidates(t, b, s.allowTiltedOnly), tiles, s, y);
    BoxResultsMember(t, t.boxes, tiles, s, y);
    TilesResultsMember(ts, tiles, s, y);
  }

  /**
   * The fields of a yielded record: the candidate belongs to the record's
   * tile and box; with occlusion the face state is the candidate's and is
   * renderable; without it there is no face state and the candidate has a
   * renderable polygon; the side is always isOutsideFace.
   */
  lemma YieldedRecordFields(ts: seq<Tile>, tiles: seq<Tile>, s: CandidateSettings, y: YieldedCandidate)
    requires y in TilesResults(ts, tiles, s)
    ensures y.face.tile == y.tile && y.face.box == y.box
    ensures y.outside == OccluderOps.IsOutsideFace(y.face)
    ensures s.occlusion ==> y.faceState == Some(FaceStateOf(y.face, y.tile, tiles, s.flags, s.clientMode)) && y.faceState.value.renderable
    ensures !s.occlusion ==> y.faceState.None? && (HasRenderable(y.face.axisPolys) || HasRenderable(y.face.tiltedPolys))
  {
    YieldedFromCandidate(ts, tiles, s, y);
    RenderabilityIff(y.face, y.tile, tiles, s);
    CandidateOwner(y.tile, y.box, y.face, s.allowTiltedOnly);
  }

  /** A candidate of a box records its tile and box. */
  lemma CandidateOwner(tile: Tile, box: Box, c: FaceCandidate, allowTiltedOnly: bool)
    requires c in BoxCandidates(tile, box, allowTiltedOnly)
    ensures c.tile == tile && c.box == box
  {
    if UsesTransformablePath(box) {
      TransformableCandidatesInOrder(tile, box, OccluderOps.MemoRenderCache(box), 6, allowTiltedOnly);
      assert FacingOrder[..6] == FacingOrder;
    }
  }

  /** Yielding for candidates one after another: the records of the first come first. */
  lemma {:induction false} FaceResultsAppend(tile: Tile, box: Box, a: seq<FaceCandidate>, b: seq<FaceCandidate>, tiles: seq<Tile>, s: CandidateSettings)
    ensures FaceResults(tile, box, a + b, tiles, s) == FaceResults(tile, box, a, tiles, s) + FaceResults(tile, box, b, tiles, s)
    decreases |b|
  {
    if b == [] {
      assert a + b == a;
    } else {
      var init := b[..|b| - 1];
      assert (a + b)[..|a + b| - 1] == a + init && (a + b)[|a + b| - 1] == b[|b| - 1];
      FaceResultsAppend(tile, box, a, init, tiles, s);
      assert FaceResults(tile, box, b, tiles, s) == FaceResults(tile, box, init, tiles, s) + FaceResults(tile, box, [b[|b| - 1]], tiles, s);
    }
  }

  /** Yielding for boxes one after another: the records of earlier boxes come first. */
  lemma BoxResultsAppend(tile: Tile, a: seq<Box>, b: seq<Box>, tiles: seq<Tile>, s: CandidateSettings)
    ensures BoxResults(tile, a + b, tiles, s) == BoxResults(tile, a, tiles, s) + BoxResults(tile, b, tiles, s)
  {
    ConcatMapAppend((bx: Box) => BoxYields(tile, bx, tiles, s), a, b);
  }

  /** Yielding for tiles one after another: the records of earlier tiles come first. */
  lemma TilesResultsAppend(a: seq<Tile>, b: seq<Tile>, tiles: seq<Tile>, s: CandidateSettings)
    ensures TilesResults(a + b, tiles, s) == TilesResults(a, tiles, s) + TilesResults(b, tiles, s)
  {
    ConcatMapAppend((t: Tile) => TileYields(t, tiles, s), a, b);
  }

  // ---------------------------------------------------------------------
  // buildVisibleFaces

  /** The options object buildVisibleFaces hands to iterateRenderableFaceCandidates; the geometry mode is not among them. */
  function VisibleFacesOptions(options: Json): Json
  {
    JObj(map[
      "evaluateInternalOcclusion" := JBool(ResolveEvaluateInternalOcclusion(options)),
      "runtimeFaceBehaviorProfile" := ProfileOf(options),
      "candidateBuildOptions" := ResolveCandidateBuildOptions(options)])
  }

  /**
   * The settings the candidates of buildVisibleFaces are evaluated with:
   * the caller's occlusion switch, profile and tilted-only rule, but always
   * the client geometry mode, since the inner options carry no mode.
   */
  lemma VisibleFacesSettings(options: Json)
    ensures SettingsOf(VisibleFacesOptions(options)) == CandidateSettings(
      ResolveEvaluateInternalOcclusion(options),
      ProfileFlags(ProfileOf(options)),
      true,
      PostprocessFaces.ResolveGeometryMode(options) == PostprocessFaces.Client)
  {
    var inner := VisibleFacesOptions(options);
    var m := inner.fields;
    assert Get(inner, "geometryMode").None? by {
      assert "geometryMode" !in m;
    }
    assert Get(inner, "evaluateInternalOcclusion") == Some(JBool(ResolveEvaluateInternalOcclusion(options)));
    assert Get(inner, "candidateBuildOptions") == Some(ResolveCandidateBuildOptions(options));
    var p := ProfileOf(options);
    assert Get(inner, "runtimeFaceBehaviorProfile") == Some(p);
  }

  /** The visible face of one polygon of a yielded record. */
  function FaceOf(y: YieldedCandidate, poly: Polygon, faceType: FaceType): VisibleFace
  {
    VisibleFace(y.tile.blockState, y.tile.blockId, y.tile.color, y.tile.providesSolidFace, y.box.kind,
      y.face.facing, faceType, y.outside, poly)
  }

  /** The faces of a polygon list, skipping polygons that are too short or degenerate. */
  function EmitPolys(y: YieldedCandidate, polys: seq<Polygon>, faceType: FaceType): seq<VisibleFace>
    decreases |polys|
  {
    if polys == [] then []
    else
      var poly := polys[|polys| - 1];
      EmitPolys(y, polys[..|polys| - 1], faceType) + (if Renderable(poly) then [FaceOf(y, poly, faceType)] else [])
  }

  /**
   * A face is emitted for a polygon list exactly when it is the face of a
   * renderable polygon of the list; there are never more faces than polygons.
   */
  lemma {:induction false} EmitPolysSpec(y: YieldedCandidate, polys: seq<Polygon>, faceType: FaceType, f: VisibleFace)
    ensures f in EmitPolys(y, polys, faceType) <==> exists q :: q in polys && Renderable(q) && f == FaceOf(y, q, faceType)
    ensures |EmitPolys(y, polys, faceType)| <= |polys|
    decreases |polys|
  {
    if polys != [] {
      var init := polys[..|polys| - 1];
      EmitPolysSpec(y, init, faceType, f);
      assert polys == init + [polys[|polys| - 1]];
      if exists q :: q in polys && Renderable(q) && f == FaceOf(y, q, faceType) {
        var q :| q in polys && Renderable(q) && f == FaceOf(y, q, faceType);
        if q in init {
          assert f in EmitPolys(y, init, faceType);
        }
      }
    }
  }

  /** The faces of one yielded record: its visible axis polygons, then its tilted polygons. */
  function CandidateFaces(y: YieldedCandidate, visibleAxis: seq<Polygon>): seq<VisibleFace>
  {
    EmitPolys(y, visibleAxis, AxisFace) + EmitPolys(y, y.face.tiltedPolys, TiltedFace)
  }

  /** EmitPolys gives every face the requested type. */
  lemma {:induction false} EmitPolysType(y: YieldedCandidate, polys: seq<Polygon>, faceType: FaceType)
    ensures forall k :: 0 <= k < |EmitPolys(y, polys, faceType)| ==> EmitPolys(y, polys, faceType)[k].faceType == faceType
    decreases |polys|
  {
    if polys != [] {
      EmitPolysType(y, polys[..|polys| - 1], faceType);
    }
  }

  /**
   * The faces of one record: every axis face precedes every tilted face,
   * every face carries the tile's block state, block id, colour and
   * solidity, the box kind, the facing and the side, and a renderable
   * polygon, an axis one from the visible axis polygons and a tilted one
   * from the candidate's own tilted polygons, uncut.
   */
  lemma CandidateFacesSpec(y: YieldedCandidate, visibleAxis: seq<Polygon>)
    ensures var fs := CandidateFaces(y, visibleAxis);
      forall i, j :: 0 <= i < j < |fs| && fs[i].faceType == TiltedFace ==> fs[j].faceType == TiltedFace
    ensures forall f :: f in CandidateFaces(y, visibleAxis) ==>
      && f.blockState == y.tile.blockState && f.blockId == y.tile.blockId && f.color == y.tile.color
      && f.providesSolidFace == y.tile.providesSolidFace && f.sourceKind == y.box.kind
      && f.facing == y.face.facing && f.outside == y.outside && Renderable(f.vertices)
      && (f.faceType == AxisFace ==> f.vertices in visibleAxis)
      && (f.faceType == TiltedFace ==> f.vertices in y.face.tiltedPolys)
  {
    var a := EmitPolys(y, visibleAxis, AxisFace);
    var t := EmitPolys(y, y.face.tiltedPolys, TiltedFace);
    EmitPolysType(y, visibleAxis, AxisFace);
    EmitPolysType(y, y.face.tiltedPolys, TiltedFace);
    forall f | f in CandidateFaces(y, visibleAxis)
      ensures && f.blockState == y.tile.blockState && f.blockId == y.tile.blockId && f.color == y.tile.color
        && f.providesSolidFace == y.tile.providesSolidFace && f.sourceKind == y.box.kind
        && f.facing == y.face.facing && f.outside == y.outside && Renderable(f.vertices)
        && (f.faceType == AxisFace ==> f.vertices in visibleAxis)
        && (f.faceType == TiltedFace ==> f.vertices in y.face.tiltedPolys)
    {
      EmitPolysSpec(y, visibleAxis, AxisFace, f);
      EmitPolysSpec(y, y.face.tiltedPolys, TiltedFace, f);
    }
  }

  /** The faces of a list of records, record by record; `visibleAxes` holds each record's visible axis polygons. */
  function AllFaces(ys: seq<YieldedCandidate>, visibleAxes: seq<seq<Polygon>>): seq<VisibleFace>
    requires |visibleAxes| == |ys|
    decreases |ys|
  {
    if ys == [] then []
    else AllFaces(ys[..|ys| - 1], visibleAxes[..|ys| - 1]) + CandidateFaces(ys[|ys| - 1], visibleAxes[|ys| - 1])
  }

  /** The faces of a list of records whose axis polygons are all left uncut. */
  function UncutFaces(ys: seq<YieldedCandidate>): seq<VisibleFace>
    decreases |ys|
  {
    if ys == [] then []
    else UncutFaces(ys[..|ys| - 1]) + CandidateFaces(ys[|ys| - 1], ys[|ys| - 1].face.axisPolys)
  }

  /** When no record's axis polygons were cut, the faces are the uncut faces. */
  lemma {:induction false} AllFacesUncut(ys: seq<YieldedCandidate>, visibleAxes: seq<seq<Polygon>>)
    requires |visibleAxes| == |ys|
    requires forall k :: 0 <= k < |ys| ==> visibleAxes[k] == ys[k].face.axisPolys
    ensures AllFaces(ys, visibleAxes) == UncutFaces(ys)
    decreases |ys|
  {
    if ys != [] {
      AllFacesUncut(ys[..|ys| - 1], visibleAxes[..|ys| - 1]);
    }
  }

  /**
   * The occluder step of buildVisibleFaces applies: occlusion is on, the
   * candidate has axis polygons, its face state asks for axis cutting, and
   * it is an inside face or outside faces are occluded by the profile.
   */
  predicate CutsAxis(y: YieldedCandidate, occlusion: bool, flags: FaceStateFlags)
  {
    occlusion && |y.face.axisPolys| > 0 && y.faceState.Some? && y.faceState.value.needsAxisCutting &&
    (!y.outside || ShouldOccludeOutsideFaces(flags))
  }

  /**
   * The visible axis polygons of a record: its axis polygons when the
   * occluder step does not apply or no box of the scene occludes it, and
   * otherwise axis polygons or renderable pieces of them.
   */
  predicate VisibleAxisOk(y: YieldedCandidate, tiles: seq<Tile>, occlusion: bool, flags: FaceStateFlags, visible: seq<Polygon>)
  {
    && (!CutsAxis(y, occlusion, flags) ==> visible == y.face.axisPolys)
    && (!OccluderOps.OccluderBefore(y.face, y.tile, tiles, |tiles|, 0) ==> visible == y.face.axisPolys)
    && (forall q :: q in visible ==> q in y.face.axisPolys || Renderable(q))
  }

  /** The occluder step for one record (hasStaticExternalNeighbour never holds for a static structure). */
  method VisibleAxisPolys(y: YieldedCandidate, tiles: seq<Tile>, occlusion: bool, flags: FaceStateFlags)
    returns (visible: seq<Polygon>)
    ensures VisibleAxisOk(y, tiles, occlusion, flags, visible)
  {
    visible := y.face.axisPolys;
    if occlusion && |visible| > 0 && y.faceState.Some? && y.faceState.value.needsAxisCutting {
      if !y.outside {
        visible := OccluderOps.ApplyOccluders(y.face, visible, y.tile, tiles);
      } else if ShouldOccludeOutsideFaces(flags) {
        if TileNormalization.HasStaticExternalNeighbour(y.face.facing, y.tile) {
          visible := [];
        } else {
          visible := OccluderOps.ApplyOccluders(y.face, visible, y.tile, tiles);
        }
      }
    }
  }

  /** The emitting loop over one polygon list. */
  method PushFaces(y: YieldedCandidate, polys: seq<Polygon>, faceType: FaceType) returns (out: seq<VisibleFace>)
    ensures out == EmitPolys(y, polys, faceType)
  {
    out := [];
    for k := 0 to |polys|
      invariant out == EmitPolys(y, polys[..k], faceType)
    {
      assert polys[..k + 1][..k] == polys[..k];
      var poly := polys[k];
      if |poly| < 3 {
        continue;
      }
      var degenerate := IsDegeneratePolygon(poly);
      if degenerate {
        continue;
      }
      out := out + [FaceOf(y, poly, faceType)];
    }
    assert polys[..|polys|] == polys;
  }

  /** The settings of the records buildVisibleFaces receives. */
  function VisibleFacesSettingsOf(options: Json): CandidateSettings
  {
    SettingsOf(VisibleFacesOptions(options))
  }

  /** The emitting loop of buildVisibleFaces over the yielded records. */
  method EmitRecords(ys: seq<YieldedCandidate>, tiles: seq<Tile>, occlusion: bool, flags: FaceStateFlags)
    returns (out: seq<VisibleFace>, ghost visibleAxes: seq<seq<Polygon>>)
    ensures |visibleAxes| == |ys| && out == AllFaces(ys, visibleAxes)
    ensures forall k :: 0 <= k < |ys| ==> VisibleAxisOk(ys[k], tiles, occlusion, flags, visibleAxes[k])
  {
    out := [];
    visibleAxes := [];
    for k := 0 to |ys|
      invariant |visibleAxes| == k && out == AllFaces(ys[..k], visibleAxes)
      invariant forall m :: 0 <= m < k ==> VisibleAxisOk(ys[m], tiles, occlusion, flags, visibleAxes[m])
    {
      var y := ys[k];
      var visible := VisibleAxisPolys(y, tiles, occlusion, flags);
      var axisFaces := PushFaces(y, visible, AxisFace);
      var tiltedFaces := PushFaces(y, y.face.tiltedPolys, TiltedFace);
      assert ys[..k + 1][..k] == ys[..k] && (visibleAxes + [visible])[..k] == visibleAxes;
      out := out + axisFaces + tiltedFaces;
      visibleAxes := visibleAxes + [visible];
    }
    assert ys[..|ys|] == ys;
  }

  /**
   * buildVisibleFaces: the faces of the records iterateRenderableFaceCandidates
   * yields for the primed tiles under the inner options, record by record,
   * each record's axis polygons cut as the occluder step allows.
   */
  method BuildVisibleFaces(tiles: seq<Tile>, options: Json)
    returns (out: seq<VisibleFace>, primed: seq<Tile>, ghost visibleAxes: seq<seq<Polygon>>)
    ensures Priming(tiles, primed)
    ensures var ys := TilesResults(primed, primed, VisibleFacesSettingsOf(options));
      |visibleAxes| == |ys| && out == AllFaces(ys, visibleAxes) &&
      forall k :: 0 <= k < |ys| ==>
        VisibleAxisOk(ys[k], primed, ResolveEvaluateInternalOcclusion(options), ProfileFlags(ProfileOf(options)), visibleAxes[k])
  {
    var evaluateInternalOcclusion := ResolveEvaluateInternalOcclusion(options);
    var profile := ProfileOf(options);
    var yielded;
    yielded, primed := IterateRenderableFaceCandidates(tiles, VisibleFacesOptions(options));
    out, visibleAxes := EmitRecords(yielded, primed, evaluateInternalOcclusion, ProfileFlags(profile));
  }

  /**
   * Without internal occlusion no axis polygon is cut: the faces of
   * buildVisibleFaces are those of the records with their polygons as built.
   */
  lemma NoOcclusionNoCut(ys: seq<YieldedCandidate>, tiles: seq<Tile>, flags: FaceStateFlags, visibleAxes: seq<seq<Polygon>>)
    requires |visibleAxes| == |ys|
    requires forall k :: 0 <= k < |ys| ==> VisibleAxisOk(ys[k], tiles, false, flags, visibleAxes[k])
    ensures AllFaces(ys, visibleAxes) == UncutFaces(ys)
  {
    AllFacesUncut(ys, visibleAxes);
  }
}
