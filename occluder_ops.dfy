/**
 * Occluder helpers of the face pipeline: which faces lie on the edge of
 * their block and which neighbour cell they look into, which tiles may
 * occlude one another, the solidity of a box side, and the cutting of a
 * face's axis polygons by the boxes that touch it.
 */
module OccluderOps {
  import opened Wrappers
  import opened Facings
  import opened PolygonOps
  import opened Polygon2d
  import opened Scene
  import opened FaceCandidateBuilder

  // ---------------------------------------------------------------------
  // Outside faces and their neighbour cell

  /** isRawOutsideFaceOrigin: a face plane not strictly inside (0, grid) lies on or beyond the block edge. */
  predicate IsRawOutsideFaceOrigin(originRaw: int, grid: int)
  {
    !(originRaw > 0 && originRaw < grid)
  }

  /** isOutsideFace (the grid of a normalised box is always a positive integer). */
  predicate IsOutsideFace(face: FaceCandidate)
  {
    IsRawOutsideFaceOrigin(face.bounds.originRaw, face.box.grid)
  }

  /**
   * For a box that lies within its block, a face is outside exactly when it
   * lies on the block boundary: the top of the grid for positive facings,
   * zero for the others.
   */
  lemma OutsideIffOnBlockBoundary(box: Box, f: Facing, tile: Tile, axisPolys: seq<Polygon>, tiltedPolys: seq<Polygon>)
    requires var k := AxisIndex(FacingAxis(f)); 0 <= box.RawMin(k) < box.RawMax(k) <= box.grid
    ensures var face := FaceCandidate(tile, box, f, BoundsForFace(box, f), axisPolys, tiltedPolys);
      var k := AxisIndex(FacingAxis(f));
      IsOutsideFace(face) <==> if FacingPositive(f) then box.RawMax(k) == box.grid else box.RawMin(k) == 0
  {
  }

  /**
   * getOutsideNeighbourIndex: the index of the neighbour cell a face looks
   * into, counted in blocks along the face axis. The cell owning the face is
   * floor((originRaw - 1) / grid) for positive faces and floor(originRaw / grid)
   * otherwise; the neighbour is one step further along the sign.
   */
  function GetOutsideNeighbourIndex(face: FaceCandidate): (r: int)
    ensures var owner, g := r - face.bounds.sign, face.box.grid;
      if face.bounds.sign > 0 then owner * g < face.bounds.originRaw <= owner * g + g
      else owner * g <= face.bounds.originRaw < owner * g + g
  {
    var grid := face.box.grid;
    var owner := if face.bounds.sign > 0 then FloorDiv(face.bounds.originRaw - 1, grid) else FloorDiv(face.bounds.originRaw, grid);
    owner + face.bounds.sign
  }

  /** Math.floor(a / b) for a positive divisor, stated by its defining inequalities. */
  function FloorDiv(a: int, b: int): (q: int)
    requires b > 0
    ensures q * b <= a < q * b + b
  {
    a / b
  }

  /**
   * The floor quotient is the unique q with q*b <= a < (q+1)*b.
   */
  lemma FloorDivUnique(a: int, b: int, q: int)
    requires b > 0 && q * b <= a < q * b + b
    ensures FloorDiv(a, b) == q
  {
    var p := FloorDiv(a, b);
    if p < q {
      MulMonotone(p + 1, q, b);
      assert false;
    } else if p > q {
      MulMonotone(q + 1, p, b);
      assert false;
    }
  }

  lemma MulMonotone(x: int, y: int, b: int)
    requires x <= y && b > 0
    ensures x * b <= y * b
  {
  }

  /**
   * matchesOutsideNeighbour: the cell index of the neighbour box's near
   * boundary (its minimum for a positive face, its maximum minus one
   * otherwise), counted on the face box's grid, equals the neighbour index.
   */
  predicate MatchesOutsideNeighbour(face: FaceCandidate, box: Box, neighbourIndex: Option<int>)
  {
    if neighbourIndex.None? then false
    else
      var grid := face.box.grid;
      var k := face.bounds.axisIndex;
      var index := if face.bounds.sign > 0 then FloorDiv(box.RawMin(k), grid) else FloorDiv(box.RawMax(k) - 1, grid);
      index == neighbourIndex.value
  }

  /**
   * A box flush against a face (its near boundary on the face plane) is
   * matched as the outside neighbour exactly when the face plane lies on a
   * block boundary of the grid.
   */
  lemma FlushBoxMatchesIffOnBlockBoundary(face: FaceCandidate, box: Box)
    requires face.bounds.sign == 1 || face.bounds.sign == -1
    requires face.bounds.sign > 0 ==> box.RawMin(face.bounds.axisIndex) == face.bounds.originRaw
    requires face.bounds.sign < 0 ==> box.RawMax(face.bounds.axisIndex) == face.bounds.originRaw
    ensures MatchesOutsideNeighbour(face, box, Some(GetOutsideNeighbourIndex(face))) <==>
      face.bounds.originRaw % face.box.grid == 0
  {
    var o, g := face.bounds.originRaw, face.box.grid;
    var q, r := o / g, o % g;
    assert o == q * g + r && 0 <= r < g;
    if r == 0 {
      FloorDivUnique(o - 1, g, q - 1);
      FloorDivUnique(o, g, q);
    } else {
      FloorDivUnique(o - 1, g, q);
      FloorDivUnique(o, g, q);
    }
  }

  // ---------------------------------------------------------------------
  // Tiles and box sides

  /** doesProvideSolidFace */
  predicate DoesProvideSolidFace(tile: Tile)
  {
    tile.providesSolidFace
  }

  /** canBeRenderCombined: same block id and same colour. */
  predicate CanBeRenderCombined(one: Tile, two: Tile)
  {
    one.blockId == two.blockId && one.color == two.color
  }

  /** Render-combinability is an equivalence: reflexive, symmetric and transitive. */
  lemma RenderCombinedIsEquivalence(a: Tile, b: Tile, c: Tile)
    ensures CanBeRenderCombined(a, a)
    ensures CanBeRenderCombined(a, b) <==> CanBeRenderCombined(b, a)
    ensures CanBeRenderCombined(a, b) && CanBeRenderCombined(b, c) ==> CanBeRenderCombined(a, c)
  {
  }

  /** oppositeFacing: the facing on the other side of the same axis. */
  function OppositeFacing(f: Facing): (r: Facing)
    ensures r != f
    ensures FacingAxis(r) == FacingAxis(f)
    ensures FacingPositive(r) <==> !FacingPositive(f)
    ensures FacePlaneAxes(r) == FacePlaneAxes(f)
  {
    match f
    case DOWN => UP
    case UP => DOWN
    case NORTH => SOUTH
    case SOUTH => NORTH
    case WEST => EAST
    case EAST => WEST
  }

  /** oppositeFacing is an involution. */
  lemma OppositeFacingInvolution(f: Facing)
    ensures OppositeFacing(OppositeFacing(f)) == f
  {
  }

  /**
   * The render cache a box carries in its memo field, or six empty faces
   * when it has none. The face pipeline fills the memo of every box before
   * any face is evaluated (FaceCandidates.PrimeRenderCaches), so this reads
   * what getTransformableRenderCache would return.
   */
  function MemoRenderCache(box: Box): RenderCache
  {
    if box.transformCache.Some? then box.transformCache.value else EmptyRenderCache
  }

  /**
   * isFaceSolid: every side of an AABB box (or of a transformable box
   * without transform data) is solid; a side of a transformable box is
   * solid exactly when its cached face is completely filled.
   */
  predicate IsFaceSolid(box: Box, f: Facing)
  {
    if !UsesTransformablePath(box) then true
    else
      var cache := MemoRenderCache(box);
      f in cache.faces && cache.faces[f].isCompletelyFilled
  }

  /** The sides of a transformable box with empty transform data are never solid. */
  lemma EmptyCacheSidesAreNotSolid(box: Box, f: Facing)
    requires UsesTransformablePath(box) && box.transformCache == Some(EmptyRenderCache)
    ensures !IsFaceSolid(box, f)
  {
  }

  /**
   * boxIntersectsFace: the box's near side lies on the face plane (within
   * the boundary epsilon) and its in-plane extent overlaps the face's by
   * more than the epsilon on both in-plane axes.
   */
  predicate BoxIntersectsFace(box: Box, b: FaceBounds)
  {
    var boxMinAxis := box.WorldMin(b.axisIndex);
    var boxMaxAxis := box.WorldMax(b.axisIndex);
    var matchesPlane :=
      if b.sign > 0 then Abs(boxMinAxis - b.origin) <= BOUNDARY_EPSILON
      else Abs(boxMaxAxis - b.origin) <= BOUNDARY_EPSILON;
    matchesPlane &&
    b.maxOne > box.WorldMin(b.oneIndex) + BOUNDARY_EPSILON &&
    b.minOne < box.WorldMax(b.oneIndex) - BOUNDARY_EPSILON &&
    b.maxTwo > box.WorldMin(b.twoIndex) + BOUNDARY_EPSILON &&
    b.minTwo < box.WorldMax(b.twoIndex) - BOUNDARY_EPSILON
  }

  /**
   * Contact is symmetric: box `b` meets side `f` of box `a` exactly when
   * box `a` meets the opposite side of box `b`.
   */
  lemma ContactIsSymmetric(a: Box, b: Box, f: Facing)
    ensures BoxIntersectsFace(b, BoundsForFace(a, f)) <==> BoxIntersectsFace(a, BoundsForFace(b, OppositeFacing(f)))
  {
  }

  // ---------------------------------------------------------------------
  // Cutting

  /**
   * projectPolygonToFaceAxis: the polygon with every vertex moved onto the
   * plane `axisIndex == value`; None for fewer than 3 vertices.
   */
  function ProjectPolygonToFaceAxis(poly: Polygon, axisIndex: CoordIndex, value: real): (r: Option<Polygon>)
    ensures r.None? <==> |poly| < 3
    ensures r.Some? ==> |r.value| == |poly|
    ensures r.Some? ==> forall i :: 0 <= i < |poly| ==> r.value[i].At(axisIndex) == value
    ensures r.Some? ==> forall i, j :: 0 <= i < |poly| && 0 <= j < 3 && j != axisIndex ==> r.value[i].At(j) == poly[i].At(j)
  {
    if |poly| < 3 then None
    else Some(seq(|poly|, i requires 0 <= i < |poly| => SetAt(poly[i], axisIndex, value)))
  }

  /** The projections of the strips that have at least 3 vertices, in order. */
  function ProjectedCutters(strips: seq<Polygon>, axisIndex: CoordIndex, value: real): (r: seq<Polygon>)
    ensures |r| <= |strips|
    ensures forall c :: c in r ==> |c| >= 3 && forall v :: v in c ==> v.At(axisIndex) == value
  {
    if strips == [] then []
    else
      var prev := ProjectedCutters(strips[..|strips| - 1], axisIndex, value);
      var p := ProjectPolygonToFaceAxis(strips[|strips| - 1], axisIndex, value);
      if p.Some? && |p.value| >= 3 then prev + [p.value] else prev
  }

  /** The axis strips of a box side as seen by an occluded face: its opposite side's strips. */
  function OppositeStrips(face: FaceCandidate, box: Box): seq<Polygon>
  {
    var cache := MemoRenderCache(box);
    var opposite := OppositeFacing(face.facing);
    if !UsesTransformablePath(box) || opposite !in cache.faces then [] else cache.faces[opposite].axisStrips
  }

  /**
   * fillAdvancedCutters: for a transformable box, the axis strips of the
   * side facing the face, projected onto the face plane; nothing for any
   * other box.
   */
  method FillAdvancedCutters(face: FaceCandidate, box: Box) returns (cutters: seq<Polygon>)
    ensures cutters == ProjectedCutters(OppositeStrips(face, box), face.bounds.axisIndex, face.bounds.origin)
    ensures !UsesTransformablePath(box) ==> cutters == []
  {
    if !UsesTransformablePath(box) {
      return [];
    }
    var cache := MemoRenderCache(box);
    var opposite := OppositeFacing(face.facing);
    if opposite !in cache.faces || |cache.faces[opposite].axisStrips| == 0 {
      return [];
    }
    var strips := cache.faces[opposite].axisStrips;
    cutters := [];
    for i := 0 to |strips|
      invariant cutters == ProjectedCutters(strips[..i], face.bounds.axisIndex, face.bounds.origin)
    {
      assert strips[..i + 1][..i] == strips[..i];
      var projected := ProjectPolygonToFaceAxis(strips[i], face.bounds.axisIndex, face.bounds.origin);
      if projected.Some? && |projected.value| >= 3 {
        cutters := cutters + [projected.value];
      }
    }
    assert strips[..|strips|] == strips;
  }

  /** Tolerance of the polygon equality and dedupe steps of the cutter loop. */
  const CUT_MATCH_EPSILON: real := 0.0001

  /** Tolerance of the overlap test of the cutter loop. */
  const CUT_OVERLAP_EPSILON: real := 0.001

  /** No two kept polygons are equal within the tolerance. */
  predicate PairwiseDistinct(polys: seq<Polygon>, eps: real)
  {
    forall k, l :: 0 <= k < l < |polys| ==> !EqualWithin(polys[k], polys[l], eps)
  }

  /** The simplified, non-degenerate pieces of a cut, in order. */
  function Pieces(cut: seq<Polygon>): (r: seq<Polygon>)
    ensures forall q :: q in r ==> Renderable(q)
  {
    if cut == [] then []
    else
      var s := Simplify(cut[|cut| - 1]);
      Pieces(cut[..|cut| - 1]) + (if s.Some? && !Degenerate(s.value) then [s.value] else [])
  }

  /**
   * What one polygon contributes to the next round, given the pieces the
   * cutter cut away and whether the polygon overlaps the cutter: nothing
   * below 3 vertices; the polygon itself when nothing was cut away (or the
   * one piece equals it) and it does not overlap; otherwise the pieces.
   */
  function Contribution(poly: Polygon, cut: seq<Polygon>, overlaps: bool): seq<Polygon>
  {
    if |poly| < 3 then []
    else if cut == [] then (if overlaps then [] else [poly])
    else if |cut| == 1 && EqualWithin(cut[0], poly, CUT_MATCH_EPSILON) && !overlaps then [poly]
    else Pieces(cut)
  }

  /** The contributions of all polygons, in order. */
  function Contributions(polys: seq<Polygon>, cuts: seq<seq<Polygon>>, overlaps: seq<bool>): seq<Polygon>
    requires |cuts| == |polys| && |overlaps| == |polys|
  {
    if polys == [] then []
    else
      var n := |polys| - 1;
      Contributions(polys[..n], cuts[..n], overlaps[..n]) + Contribution(polys[n], cuts[n], overlaps[n])
  }

  /** A polygon nothing was cut from and that does not overlap the cutter is carried over as it is. */
  lemma {:induction false} ContributionsKeepUntouched(polys: seq<Polygon>, cuts: seq<seq<Polygon>>, overlaps: seq<bool>, i: nat)
    requires |cuts| == |polys| && |overlaps| == |polys|
    requires i < |polys| && |polys[i]| >= 3 && cuts[i] == [] && !overlaps[i]
    ensures polys[i] in Contributions(polys, cuts, overlaps)
    decreases |polys|
  {
    var n := |polys| - 1;
    if i < n {
      ContributionsKeepUntouched(polys[..n], cuts[..n], overlaps[..n], i);
      ContributionsGrow(polys, cuts, overlaps, polys[i]);
    } else {
      ContributionsLast(polys, cuts, overlaps);
    }
  }

  /** The last polygon, when nothing was cut from it and it does not overlap, is contributed as it is. */
  lemma ContributionsLast(polys: seq<Polygon>, cuts: seq<seq<Polygon>>, overlaps: seq<bool>)
    requires |cuts| == |polys| && |overlaps| == |polys| && polys != []
    requires |polys[|polys| - 1]| >= 3 && cuts[|polys| - 1] == [] && !overlaps[|polys| - 1]
    ensures polys[|polys| - 1] in Contributions(polys, cuts, overlaps)
  {
    var n := |polys| - 1;
    assert Contribution(polys[n], cuts[n], overlaps[n]) == [polys[n]];
  }

  /** What the polygons before the last contribute is still contributed once the last one is added. */
  lemma ContributionsGrow(polys: seq<Polygon>, cuts: seq<seq<Polygon>>, overlaps: seq<bool>, q: Polygon)
    requires |cuts| == |polys| && |overlaps| == |polys| && polys != []
    requires q in Contributions(polys[..|polys| - 1], cuts[..|polys| - 1], overlaps[..|polys| - 1])
    ensures q in Contributions(polys, cuts, overlaps)
  {
  }

  /** Every contributed polygon is an input polygon of at least 3 vertices or a renderable piece. */
  lemma {:induction false} ContributionsShape(polys: seq<Polygon>, cuts: seq<seq<Polygon>>, overlaps: seq<bool>)
    requires |cuts| == |polys| && |overlaps| == |polys|
    ensures forall q :: q in Contributions(polys, cuts, overlaps) ==> (q in polys && |q| >= 3) || Renderable(q)
    decreases |polys|
  {
    if polys != [] {
      var n := |polys| - 1;
      ContributionsShape(polys[..n], cuts[..n], overlaps[..n]);
      assert forall q :: q in polys[..n] ==> q in polys;
    }
  }

  /** What the overlap test's contract tells about a polygon found not to overlap the cutter. */
  predicate NotOverlapping(poly: Polygon, cutter: Polygon, one: CoordIndex, two: CoordIndex, inverse: bool)
  {
    && !CyclicEqual(poly, cutter, one, two, EPSILON)
    && !InsideAll(poly, one, two, cutter, inverse)
    && !InsideAll(cutter, one, two, poly, inverse)
  }

  /** What the cut's contract tells about the pieces it cut from a polygon. */
  predicate CutPieces(poly: Polygon, cut: seq<Polygon>, cutter: Polygon)
  {
    && |cut| <= |cutter|
    && (cutter == [] ==> cut == [])
    && forall q :: q in cut ==> q == poly || Renderable(q)
  }

  /**
   * The body of cutPolygons2d's inner loop for one polygon: the polygons it
   * pushes, with the pieces polygonCut2d cut away and the overlap test's
   * verdict (true where the test is not reached) as ghost results.
   */
  method CutOne(poly: Polygon, cutter: Polygon, one: CoordIndex, two: CoordIndex, inverse: bool)
    returns (pushed: seq<Polygon>, ghost cut: seq<Polygon>, ghost overlapping: bool)
    ensures pushed == Contribution(poly, cut, overlapping)
    ensures CutPieces(poly, cut, cutter)
    ensures !overlapping ==> NotOverlapping(poly, cutter, one, two, inverse)
  {
    if |poly| < 3 {
      return [], [], true;
    }
    var pieces := PolygonCut2d(poly, cutter, one, two, inverse, false);
    cut, overlapping := pieces, true;
    if |pieces| == 0 {
      var overlaps := PolygonIntersect2d(poly, cutter, one, two, inverse, CUT_OVERLAP_EPSILON);
      overlapping := overlaps;
      pushed := if overlaps then [] else [poly];
      return;
    }
    var kept := false;
    if |pieces| == 1 {
      kept := PolygonsEqual(pieces[0], poly, CUT_MATCH_EPSILON);
    }
    if kept {
      var overlaps := PolygonIntersect2d(poly, cutter, one, two, inverse, CUT_OVERLAP_EPSILON);
      if !overlaps {
        overlapping := false;
        return [poly], cut, overlapping;
      }
    }
    pushed := [];
    for j := 0 to |pieces|
      invariant pushed == Pieces(pieces[..j])
    {
      assert pieces[..j + 1][..j] == pieces[..j];
      var simplified := SimplifyPolygon(pieces[j]);
      if simplified.Some? {
        var degenerate := IsDegeneratePolygon(simplified.value);
        if !degenerate {
          pushed := pushed + [simplified.value];
        }
      }
    }
    assert pieces[..|pieces|] == pieces;
  }

  /** The recorded outcomes of a cutter for each polygon agree with what the cut and the overlap test promise. */
  predicate Recorded(polys: seq<Polygon>, cuts: seq<seq<Polygon>>, overlaps: seq<bool>, cutter: Polygon, one: CoordIndex, two: CoordIndex, inverse: bool)
  {
    && |cuts| == |polys| && |overlaps| == |polys|
    && (forall i :: 0 <= i < |polys| ==> CutPieces(polys[i], cuts[i], cutter))
    && (forall i :: 0 <= i < |polys| && !overlaps[i] ==> NotOverlapping(polys[i], cutter, one, two, inverse))
  }

  /** Recording one more polygon's outcomes. */
  lemma RecordedExtend(polys: seq<Polygon>, cuts: seq<seq<Polygon>>, overlaps: seq<bool>, cutter: Polygon, one: CoordIndex, two: CoordIndex, inverse: bool,
                       poly: Polygon, cut: seq<Polygon>, overlapping: bool)
    requires Recorded(polys, cuts, overlaps, cutter, one, two, inverse)
    requires CutPieces(poly, cut, cutter) && (!overlapping ==> NotOverlapping(poly, cutter, one, two, inverse))
    ensures Recorded(polys + [poly], cuts + [cut], overlaps + [overlapping], cutter, one, two, inverse)
  {
  }

  /** The contributions keep every untouched polygon and hold only inputs of 3 or more vertices and renderable pieces. */
  lemma ContributionsFacts(polys: seq<Polygon>, cuts: seq<seq<Polygon>>, overlaps: seq<bool>)
    requires |cuts| == |polys| && |overlaps| == |polys|
    ensures forall i :: 0 <= i < |polys| && |polys[i]| >= 3 && cuts[i] == [] && !overlaps[i] ==> polys[i] in Contributions(polys, cuts, overlaps)
    ensures forall q :: q in Contributions(polys, cuts, overlaps) ==> (q in polys && |q| >= 3) || Renderable(q)
  {
    forall i | 0 <= i < |polys| && |polys[i]| >= 3 && cuts[i] == [] && !overlaps[i]
      ensures polys[i] in Contributions(polys, cuts, overlaps)
    {
      ContributionsKeepUntouched(polys, cuts, overlaps, i);
    }
    ContributionsShape(polys, cuts, overlaps);
  }

  /** One polygon more in the contributions. */
  lemma ContributionsAppend(polys: seq<Polygon>, cuts: seq<seq<Polygon>>, overlaps: seq<bool>, poly: Polygon, cut: seq<Polygon>, overlapping: bool)
    requires |cuts| == |polys| && |overlaps| == |polys|
    ensures Contributions(polys + [poly], cuts + [cut], overlaps + [overlapping])
      == Contributions(polys, cuts, overlaps) + Contribution(poly, cut, overlapping)
  {
    assert (polys + [poly])[..|polys|] == polys;
    assert (cuts + [cut])[..|polys|] == cuts;
    assert (overlaps + [overlapping])[..|polys|] == overlaps;
  }

  /**
   * One cutter of cutPolygons2d. The ghost results record, per polygon,
   * the pieces polygonCut2d cut away and the overlap test's verdict; the
   * polygons left are the contributions those outcomes call for, so a
   * polygon the cutter leaves alone and does not overlap is kept as it is.
   */
  method CutByCutter(result: seq<Polygon>, cutter: Polygon, one: CoordIndex, two: CoordIndex, inverse: bool)
    returns (next: seq<Polygon>, ghost cuts: seq<seq<Polygon>>, ghost overlaps: seq<bool>)
    ensures Recorded(result, cuts, overlaps, cutter, one, two, inverse)
    ensures next == Contributions(result, cuts, overlaps)
    ensures forall i :: 0 <= i < |result| && |result[i]| >= 3 && cuts[i] == [] && !overlaps[i] ==> result[i] in next
    ensures forall q :: q in next ==> (q in result && |q| >= 3) || Renderable(q)
  {
    next, cuts, overlaps := [], [], [];
    for i := 0 to |result|
      invariant Recorded(result[..i], cuts, overlaps, cutter, one, two, inverse)
      invariant next == Contributions(result[..i], cuts, overlaps)
    {
      var pushed, cut, overlapping := CutOne(result[i], cutter, one, two, inverse);
      assert result[..i + 1] == result[..i] + [result[i]];
      RecordedExtend(result[..i], cuts, overlaps, cutter, one, two, inverse, result[i], cut, overlapping);
      ContributionsAppend(result[..i], cuts, overlaps, result[i], cut, overlapping);
      next, cuts, overlaps := next + pushed, cuts + [cut], overlaps + [overlapping];
    }
    assert result[..|result|] == result;
    ContributionsFacts(result, cuts, overlaps);
  }

  /** Every polygon Dedupe keeps is one of its input polygons. */
  lemma DedupeKeepsInputs(polys: seq<Polygon>, eps: real)
    ensures forall q :: q in Dedupe(polys, eps) ==> q in polys
  {
    DedupeIsSubsequence(polys, eps);
    var d, ix := Dedupe(polys, eps), DedupeIndices(polys, eps);
    forall q | q in d
      ensures q in polys
    {
      var k :| 0 <= k < |d| && d[k] == q;
      assert polys[ix[k]] == q;
    }
  }

  /**
   * cutPolygons2d: the cutters are applied one after another, the result
   * deduplicated after each; the loop stops once nothing is left. With no
   * cutter the polygons come back unchanged; otherwise every polygon left
   * is an input polygon of at least 3 vertices or a renderable piece, and no
   * two are equal within the dedupe tolerance. The ghost results record the
   * first cutter's outcomes: with a single cutter, a polygon it leaves
   * alone and does not overlap is still there (or one equal to it within
   * the tolerance is).
   */
  method CutPolygons2d(polys: seq<Polygon>, cutters: seq<Polygon>, one: CoordIndex, two: CoordIndex, inverse: bool)
    returns (result: seq<Polygon>, ghost cuts: seq<seq<Polygon>>, ghost overlaps: seq<bool>)
    ensures cutters == [] ==> result == polys
    ensures forall q :: q in result ==> q in polys || Renderable(q)
    ensures cutters != [] ==> PairwiseDistinct(result, CUT_MATCH_EPSILON) && forall q :: q in result ==> |q| >= 3
    ensures cutters != [] ==> Recorded(polys, cuts, overlaps, cutters[0], one, two, inverse)
    ensures |cutters| == 1 ==> result == Dedupe(Contributions(polys, cuts, overlaps), CUT_MATCH_EPSILON)
    ensures |cutters| == 1 ==> forall i :: 0 <= i < |polys| && |polys[i]| >= 3 && cuts[i] == [] && !overlaps[i] ==>
      polys[i] in result || HasEqual(result, polys[i], CUT_MATCH_EPSILON)
  {
    result, cuts, overlaps := polys, [], [];
    for c := 0 to |cutters|
      invariant forall q :: q in result ==> q in polys || Renderable(q)
      invariant c > 0 ==> PairwiseDistinct(result, CUT_MATCH_EPSILON) && forall q :: q in result ==> |q| >= 3
      invariant c == 0 ==> result == polys
      invariant c > 0 ==> Recorded(polys, cuts, overlaps, cutters[0], one, two, inverse)
      invariant c == 1 ==> result == Dedupe(Contributions(polys, cuts, overlaps), CUT_MATCH_EPSILON)
    {
      var next, roundCuts, roundOverlaps := CutByCutter(result, cutters[c], one, two, inverse);
      if c == 0 {
        cuts, overlaps := roundCuts, roundOverlaps;
      }
      result := DedupePolygons(next, CUT_MATCH_EPSILON);
      DedupeKeepsInputs(next, CUT_MATCH_EPSILON);
      DedupeDistinctAndComplete(next, CUT_MATCH_EPSILON);
      if |result| == 0 {
        break;
      }
    }
    if |cutters| == 1 {
      DedupeDistinctAndComplete(Contributions(polys, cuts, overlaps), CUT_MATCH_EPSILON);
      forall i | 0 <= i < |polys| && |polys[i]| >= 3 && cuts[i] == [] && !overlaps[i]
        ensures polys[i] in result || HasEqual(result, polys[i], CUT_MATCH_EPSILON)
      {
        ContributionsKeepUntouched(polys, cuts, overlaps, i);
        var d := Contributions(polys, cuts, overlaps);
        var k :| 0 <= k < |d| && d[k] == polys[i];
      }
    }
  }

  /**
   * applyFillFromBox: a box that does not touch the face leaves the polygons
   * alone. A solid opposite side cuts away the rectangle where the two
   * overlap (unless that overlap is thinner than the boundary epsilon); a
   * transformable box cuts with the projected strips of its opposite side.
   */
  method ApplyFillFromBox(face: FaceCandidate, visible: seq<Polygon>, box: Box) returns (r: seq<Polygon>)
    ensures !BoxIntersectsFace(box, face.bounds) ==> r == visible
    ensures forall q :: q in r ==> q in visible || Renderable(q)
  {
    var b := face.bounds;
    if !BoxIntersectsFace(box, b) {
      return visible;
    }
    var inverse := !FacingPositive(face.facing);
    if IsFaceSolid(box, OppositeFacing(face.facing)) {
      var minOne := Max(b.minOne, box.WorldMin(b.oneIndex));
      var maxOne := Min(b.maxOne, box.WorldMax(b.oneIndex));
      var minTwo := Max(b.minTwo, box.WorldMin(b.twoIndex));
      var maxTwo := Min(b.maxTwo, box.WorldMax(b.twoIndex));
      if maxOne - minOne <= BOUNDARY_EPSILON || maxTwo - minTwo <= BOUNDARY_EPSILON {
        return visible;
      }
      var cutter := FaceVerticesFromPlaneRect(PlaneRect(b.axis, b.sign, b.origin, minOne, maxOne, minTwo, maxTwo));
      ghost var cuts, overlaps;
      r, cuts, overlaps := CutPolygons2d(visible, [cutter], b.oneIndex, b.twoIndex, inverse);
      return;
    }
    var advanced := FillAdvancedCutters(face, box);
    if |advanced| == 0 {
      return visible;
    }
    ghost var cuts, overlaps;
    r, cuts, overlaps := CutPolygons2d(visible, advanced, b.oneIndex, b.twoIndex, inverse);
  }

  function Max(a: real, b: real): real { if a >= b then a else b }

  function Min(a: real, b: real): real { if a <= b then a else b }

  /** A tile whose boxes may occlude faces of `rendered`: it has collision and is solid or render-combinable. */
  predicate EligibleOccluderTile(tile: Tile, rendered: Tile)
  {
    !tile.structureNoCollision && (DoesProvideSolidFace(tile) || CanBeRenderCombined(tile, rendered))
  }

  /**
   * A box that applyOccluders may cut the face with: another box of an
   * eligible tile, in the outside neighbour cell when the face is outside,
   * touching the face.
   */
  predicate Occludes(face: FaceCandidate, rendered: Tile, tile: Tile, box: Box)
  {
    EligibleOccluderTile(tile, rendered) &&
    box.id != face.box.id &&
    (IsOutsideFace(face) ==> MatchesOutsideNeighbour(face, box, Some(GetOutsideNeighbourIndex(face)))) &&
    BoxIntersectsFace(box, face.bounds)
  }

  /** Some box among the first `i` tiles, and the first `j` boxes of tile `i`, occludes the face. */
  predicate OccluderBefore(face: FaceCandidate, rendered: Tile, tiles: seq<Tile>, i: nat, j: nat)
    requires i <= |tiles|
  {
    (exists a, b :: 0 <= a < i && 0 <= b < |tiles[a].boxes| && Occludes(face, rendered, tiles[a], tiles[a].boxes[b])) ||
    (i < |tiles| && exists b :: 0 <= b < j && b < |tiles[i].boxes| && Occludes(face, rendered, tiles[i], tiles[i].boxes[b]))
  }

  /** An occluder found before a position is found before every later position. */
  lemma OccluderBeforeGrows(face: FaceCandidate, rendered: Tile, tiles: seq<Tile>, i: nat, j: nat, i2: nat, j2: nat)
    requires i <= i2 <= |tiles| && (i < i2 || j <= j2)
    requires OccluderBefore(face, rendered, tiles, i, j)
    ensures OccluderBefore(face, rendered, tiles, i2, j2)
  {
    if !(exists a, b :: 0 <= a < i && 0 <= b < |tiles[a].boxes| && Occludes(face, rendered, tiles[a], tiles[a].boxes[b])) {
      var b :| 0 <= b < j && b < |tiles[i].boxes| && Occludes(face, rendered, tiles[i], tiles[i].boxes[b]);
      if i < i2 {
        assert 0 <= i < i2 && 0 <= b < |tiles[i].boxes| && Occludes(face, rendered, tiles[i], tiles[i].boxes[b]);
      }
    }
  }

  /**
   * applyOccluders: cuts the face's polygons with every eligible box in
   * tile order, skipping the face's own box, collision-free and ineligible
   * tiles and, for an outside face, boxes outside its neighbour cell; it
   * stops as soon as nothing is visible. Without any occluding box the
   * polygons come back unchanged; every polygon left is an input polygon or
   * a renderable piece.
   */
  method ApplyOccluders(face: FaceCandidate, startPolys: seq<Polygon>, rendered: Tile, allTiles: seq<Tile>)
    returns (visible: seq<Polygon>)
    ensures forall q :: q in visible ==> q in startPolys || Renderable(q)
    ensures !OccluderBefore(face, rendered, allTiles, |allTiles|, 0) ==> visible == startPolys
  {
    visible := startPolys;
    var outside := IsOutsideFace(face);
    var neighbourIndex := if outside then Some(GetOutsideNeighbourIndex(face)) else None;
    for i := 0 to |allTiles|
      invariant forall q :: q in visible ==> q in startPolys || Renderable(q)
      invariant visible == startPolys || OccluderBefore(face, rendered, allTiles, i, 0)
    {
      var tile := allTiles[i];
      if visible != startPolys {
        OccluderBeforeGrows(face, rendered, allTiles, i, 0, i + 1, 0);
      }
      if tile.structureNoCollision {
        continue;
      }
      if !(DoesProvideSolidFace(tile) || CanBeRenderCombined(tile, rendered)) {
        continue;
      }
      for j := 0 to |tile.boxes|
        invariant forall q :: q in visible ==> q in startPolys || Renderable(q)
        invariant visible == startPolys || OccluderBefore(face, rendered, allTiles, i, j)
      {
        var box := tile.boxes[j];
        if box.id == face.box.id {
          continue;
        }
        if outside && !MatchesOutsideNeighbour(face, box, neighbourIndex) {
          continue;
        }
        if |visible| == 0 {
          if visible != startPolys {
            OccluderBeforeGrows(face, rendered, allTiles, i, j, |allTiles|, 0);
          }
          return;
        }
        var before := visible;
        visible := ApplyFillFromBox(face, visible, box);
        if visible != before {
          assert Occludes(face, rendered, tile, box);
        }
      }
      if visible != startPolys {
        OccluderBeforeGrows(face, rendered, allTiles, i, |tile.boxes|, i + 1, 0);
      }
    }
  }
}
