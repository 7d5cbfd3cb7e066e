/**
 * The face-state evaluator: each face candidate is UNLOADED, or an INSIDE_*
 * or OUTSIDE_* state computed from how much of the face the neighbouring
 * boxes cover. Coverage is a bitmap over the face's grid cells, filled in
 * place with a counter of the cells set.
 */
module FaceStateEvaluation {
  import opened Wrappers
  import opened Facings
  import opened PolygonOps
  import opened Scene
  import opened FaceCandidateBuilder
  import opened OccluderOps

  // ---------------------------------------------------------------------
  // Raw coordinate helpers

  /** Math.round: the nearest integer, halves rounded up. */
  function Round(v: real): (r: int)
    ensures r as real - 0.5 <= v < r as real + 0.5
  {
    (v + 0.5).Floor
  }

  /** Math.ceil */
  function Ceil(v: real): (r: int)
    ensures r as real - 1.0 < v <= r as real
  {
    -((-v).Floor)
  }

  predicate NearInteger(v: real)
  {
    Abs(v - Round(v) as real) <= RAW_COORD_EPSILON
  }

  /** cellStartFromRaw: the nearest integer when within the raw epsilon, otherwise rounded down. */
  function CellStartFromRaw(v: real): int
  {
    if NearInteger(v) then Round(v) else (v + RAW_COORD_EPSILON).Floor
  }

  /** cellEndFromRaw: the nearest integer when within the raw epsilon, otherwise rounded up. */
  function CellEndFromRaw(v: real): int
  {
    if NearInteger(v) then Round(v) else Ceil(v - RAW_COORD_EPSILON)
  }

  /** roundRawCoord: snaps a coordinate within the raw epsilon of an integer onto it. */
  function RoundRawCoord(v: real): real
  {
    if NearInteger(v) then Round(v) as real else v
  }

  /** roundCellSpan: a span in cells, rounded down and never negative off the integers. */
  function RoundCellSpan(v: real): int
  {
    if NearInteger(v) then Round(v) else IntMax(0, (v + RAW_COORD_EPSILON).Floor)
  }

  function IntMax(a: int, b: int): int { if a >= b then a else b }

  /** On integral coordinates every rounding helper is exact. */
  lemma IntegralCoordsAreExact(n: int)
    ensures RoundRawCoord(n as real) == n as real
    ensures CellStartFromRaw(n as real) == n && CellEndFromRaw(n as real) == n
    ensures RoundCellSpan(n as real) == n
  {
    assert Round(n as real) == n;
  }

  /**
   * clampCellIndex: the value clamped into [0, limit]; a value already in
   * range is kept.
   */
  function ClampCellIndex(value: int, limitExclusive: int): (r: int)
    ensures limitExclusive >= 0 ==> 0 <= r <= limitExclusive
    ensures 0 <= value <= limitExclusive ==> r == value
  {
    if value <= 0 then 0
    else if value >= limitExclusive then limitExclusive
    else value
  }

  /** Math.trunc(a / b) for a positive divisor: the quotient rounded toward zero. */
  function TruncDiv(a: int, b: int): int
    requires b > 0
  {
    if a >= 0 then a / b else -((-a) / b)
  }

  /**
   * convertRawCoord: a raw coordinate on `fromGrid` re-expressed on `toGrid`,
   * dividing (toward zero) by the grid ratio when the target is coarser and
   * multiplying when it is finer.
   */
  function ConvertRawCoord(value: int, fromGrid: PositiveInt, toGrid: PositiveInt): (r: int)
    ensures fromGrid == toGrid ==> r == value
    ensures fromGrid < toGrid && toGrid % fromGrid == 0 ==> r * fromGrid == value * toGrid
  {
    if fromGrid > toGrid then
      var ratio := TruncDiv(fromGrid, toGrid);
      if ratio <= 0 then value else TruncDiv(value, ratio)
    else
      var ratio := TruncDiv(toGrid, fromGrid);
      if ratio <= 0 then 0 else value * ratio
  }

  // ---------------------------------------------------------------------
  // Profile flags

  /**
   * The three fields of the runtime face-behaviour profile the evaluator
   * reads, each by a strict comparison: outsideNeighborPolicy === 'air',
   * occludeOutsideFacesWithTiles === true and supportsCutting === true.
   * A missing profile reads as all false.
   */
  datatype FaceStateFlags = FaceStateFlags(policyIsAir: bool, occludeOutsideFacesWithTiles: bool, supportsCutting: bool)

  /** shouldOccludeOutsideFaces: never for the 'air' policy, otherwise only when switched on. */
  predicate ShouldOccludeOutsideFaces(flags: FaceStateFlags)
  {
    !flags.policyIsAir && flags.occludeOutsideFacesWithTiles
  }

  // ---------------------------------------------------------------------
  // Coverage

  /** The face's raw in-plane bounds (on its own grid) and its size in cells. */
  datatype FaceGrid = FaceGrid(minOne: real, maxOne: real, minTwo: real, maxTwo: real, cellsOne: nat, cellsTwo: nat)

  /** The cell grid of a face: one cell per raw unit of its box on each in-plane axis. */
  function FaceGridOf(face: FaceCandidate): (g: FaceGrid)
    ensures g.cellsOne == IntMax(0, face.box.RawMax(face.bounds.oneIndex) - face.box.RawMin(face.bounds.oneIndex))
    ensures g.cellsTwo == IntMax(0, face.box.RawMax(face.bounds.twoIndex) - face.box.RawMin(face.bounds.twoIndex))
  {
    var box, b := face.box, face.bounds;
    IntegralCoordsAreExact(box.RawMin(b.oneIndex));
    IntegralCoordsAreExact(box.RawMax(b.oneIndex));
    IntegralCoordsAreExact(box.RawMin(b.twoIndex));
    IntegralCoordsAreExact(box.RawMax(b.twoIndex));
    IntegralCoordsAreExact(box.RawMax(b.oneIndex) - box.RawMin(b.oneIndex));
    IntegralCoordsAreExact(box.RawMax(b.twoIndex) - box.RawMin(b.twoIndex));
    var minOne := RoundRawCoord(box.RawMin(b.oneIndex) as real);
    var maxOne := RoundRawCoord(box.RawMax(b.oneIndex) as real);
    var minTwo := RoundRawCoord(box.RawMin(b.twoIndex) as real);
    var maxTwo := RoundRawCoord(box.RawMax(b.twoIndex) as real);
    FaceGrid(minOne, maxOne, minTwo, maxTwo,
      IntMax(0, RoundCellSpan(maxOne - minOne)), IntMax(0, RoundCellSpan(maxTwo - minTwo)))
  }

  /** The in-plane overlap of a neighbour box with a face, in the face's raw coordinates. */
  datatype Overlap = Overlap(minOneRaw: real, maxOneRaw: real, minTwoRaw: real, maxTwoRaw: real)

  function RealMax(a: real, b: real): real { if a >= b then a else b }

  function RealMin(a: real, b: real): real { if a <= b then a else b }

  /** A raw coordinate of a box on the target grid, snapped to the integers. */
  function RawOnGrid(box: Box, bound: int, targetGrid: PositiveInt): real
  {
    RoundRawCoord(ConvertRawCoord(bound, box.grid, targetGrid) as real)
  }

  /**
   * projectFaceOverlapToGrid: None unless the box's near side lies on the
   * face plane; otherwise the overlap of the two in-plane extents, which
   * lies within the face and is thicker than the raw epsilon on both axes
   * (None when it is not).
   */
  function ProjectFaceOverlapToGrid(face: FaceCandidate, box: Box, targetGrid: PositiveInt, fg: FaceGrid): (r: Option<Overlap>)
    ensures r.Some? ==> fg.minOne <= r.value.minOneRaw && r.value.maxOneRaw <= fg.maxOne
    ensures r.Some? ==> fg.minTwo <= r.value.minTwoRaw && r.value.maxTwoRaw <= fg.maxTwo
    ensures r.Some? ==> r.value.maxOneRaw - r.value.minOneRaw > RAW_COORD_EPSILON
    ensures r.Some? ==> r.value.maxTwoRaw - r.value.minTwoRaw > RAW_COORD_EPSILON
    ensures r.Some? ==> Abs(RawOnGrid(box, if face.bounds.sign > 0 then box.RawMin(face.bounds.axisIndex) else box.RawMax(face.bounds.axisIndex), targetGrid)
                            - face.bounds.originRaw as real) <= RAW_COORD_EPSILON
  {
    var b := face.bounds;
    var minAxisRaw := RawOnGrid(box, box.RawMin(b.axisIndex), targetGrid);
    var maxAxisRaw := RawOnGrid(box, box.RawMax(b.axisIndex), targetGrid);
    var matchesPlane :=
      if b.sign > 0 then Abs(minAxisRaw - b.originRaw as real) <= RAW_COORD_EPSILON
      else Abs(maxAxisRaw - b.originRaw as real) <= RAW_COORD_EPSILON;
    if !matchesPlane then None
    else
      var minOneRaw := RealMax(fg.minOne, RawOnGrid(box, box.RawMin(b.oneIndex), targetGrid));
      var maxOneRaw := RealMin(fg.maxOne, RawOnGrid(box, box.RawMax(b.oneIndex), targetGrid));
      var minTwoRaw := RealMax(fg.minTwo, RawOnGrid(box, box.RawMin(b.twoIndex), targetGrid));
      var maxTwoRaw := RealMin(fg.maxTwo, RawOnGrid(box, box.RawMax(b.twoIndex), targetGrid));
      if maxOneRaw - minOneRaw <= RAW_COORD_EPSILON || maxTwoRaw - minTwoRaw <= RAW_COORD_EPSILON then None
      else Some(Overlap(minOneRaw, maxOneRaw, minTwoRaw, maxTwoRaw))
  }

  /** A half-open rectangle of cells [oneStart, oneEnd) x [twoStart, twoEnd). */
  datatype CellRect = CellRect(oneStart: int, oneEnd: int, twoStart: int, twoEnd: int)

  predicate InRect(r: CellRect, one: int, two: int)
  {
    r.oneStart <= one < r.oneEnd && r.twoStart <= two < r.twoEnd
  }

  /** What one neighbour box does to the coverage of a face. */
  datatype Contribution =
    | Skip                 // not a neighbour of the face, or no usable overlap
    | NonSolidOverlap      // overlaps the face, but its opposite side is not solid
    | Fill(rect: CellRect) // covers these cells

  /** The neighbour index computeFaceCoverage uses: only outside faces have one. */
  function NeighbourIndexFor(face: FaceCandidate, outside: bool): Option<int>
  {
    if outside then Some(GetOutsideNeighbourIndex(face)) else None
  }

  /**
   * The contribution of one box of an eligible tile: the face's own box and
   * (when restricted) boxes outside the neighbour cell are skipped; a box
   * overlapping the face on its plane contributes the clamped cells of the
   * overlap when its opposite side is solid.
   */
  function BoxContribution(face: FaceCandidate, fg: FaceGrid, box: Box, outside: bool, restrict: bool): (c: Contribution)
    ensures box.id == face.box.id ==> c == Skip
    ensures c.Fill? ==> 0 <= c.rect.oneStart < c.rect.oneEnd <= fg.cellsOne && 0 <= c.rect.twoStart < c.rect.twoEnd <= fg.cellsTwo
    ensures c.Fill? ==> IsFaceSolid(box, OppositeFacing(face.facing))
    ensures c.NonSolidOverlap? ==> !IsFaceSolid(box, OppositeFacing(face.facing))
    ensures outside && restrict && !MatchesOutsideNeighbour(face, box, NeighbourIndexFor(face, outside)) ==> c == Skip
  {
    if box.id == face.box.id then Skip
    else if outside && restrict && !MatchesOutsideNeighbour(face, box, NeighbourIndexFor(face, outside)) then Skip
    else
      match ProjectFaceOverlapToGrid(face, box, face.box.grid, fg)
      case None => Skip
      case Some(o) =>
        if !IsFaceSolid(box, OppositeFacing(face.facing)) then NonSolidOverlap
        else
          var oneStart := ClampCellIndex(CellStartFromRaw(o.minOneRaw - fg.minOne), fg.cellsOne);
          var oneEnd := ClampCellIndex(CellEndFromRaw(o.maxOneRaw - fg.minOne), fg.cellsOne);
          var twoStart := ClampCellIndex(CellStartFromRaw(o.minTwoRaw - fg.minTwo), fg.cellsTwo);
          var twoEnd := ClampCellIndex(CellEndFromRaw(o.maxTwoRaw - fg.minTwo), fg.cellsTwo);
          if oneEnd <= oneStart || twoEnd <= twoStart then Skip
          else Fill(CellRect(oneStart, oneEnd, twoStart, twoEnd))
  }

  /** The contributions of a tile's boxes, in order. */
  function BoxContributions(face: FaceCandidate, fg: FaceGrid, boxes: seq<Box>, outside: bool, restrict: bool): seq<Contribution>
    decreases |boxes|
  {
    if boxes == [] then []
    else BoxContributions(face, fg, boxes[..|boxes| - 1], outside, restrict) + [BoxContribution(face, fg, boxes[|boxes| - 1], outside, restrict)]
  }

  /** The contributions of a tile: none at all from collision-free or ineligible tiles. */
  function TileContributions(face: FaceCandidate, fg: FaceGrid, rendered: Tile, tile: Tile, outside: bool, restrict: bool)
    : (r: seq<Contribution>)
    ensures !EligibleOccluderTile(tile, rendered) ==> r == []
  {
    if !EligibleOccluderTile(tile, rendered) then []
    else BoxContributions(face, fg, tile.boxes, outside, restrict)
  }

  /** The concatenation of f over xs, in order. */
  function ConcatMap<T, U>(f: T -> seq<U>, xs: seq<T>): seq<U>
    decreases |xs|
  {
    if xs == [] then [] else ConcatMap(f, xs[..|xs| - 1]) + f(xs[|xs| - 1])
  }

  /** ConcatMap distributes over concatenation. */
  lemma {:induction false} ConcatMapAppend<T, U>(f: T -> seq<U>, xs: seq<T>, ys: seq<T>)
    ensures ConcatMap(f, xs + ys) == ConcatMap(f, xs) + ConcatMap(f, ys)
    decreases |ys|
  {
    if ys == [] {
      assert xs + ys == xs;
    } else {
      var init := ys[..|ys| - 1];
      ConcatMapAppend(f, xs, init);
      assert (xs + ys)[..|xs + ys| - 1] == xs + init;
      assert (xs + ys)[|xs + ys| - 1] == ys[|ys| - 1];
    }
  }

  /** An element of a ConcatMap comes from the image of one of the elements. */
  lemma {:induction false} ConcatMapMember<T, U>(f: T -> seq<U>, xs: seq<T>, y: U)
    ensures y in ConcatMap(f, xs) <==> exists x :: x in xs && y in f(x)
    decreases |xs|
  {
    if xs != [] {
      var init := xs[..|xs| - 1];
      ConcatMapMember(f, init, y);
      assert xs == init + [xs[|xs| - 1]];
      if exists x :: x in xs && y in f(x) {
        var x :| x in xs && y in f(x);
        if x in init {
          assert y in ConcatMap(f, init);
        }
      }
    }
  }

  /** ConcatMap of a prefix one longer. */
  lemma ConcatMapSnoc<T, U>(f: T -> seq<U>, xs: seq<T>, i: nat)
    requires i < |xs|
    ensures ConcatMap(f, xs[..i + 1]) == ConcatMap(f, xs[..i]) + f(xs[i])
  {
    assert xs[..i + 1][..i] == xs[..i];
  }

  /** The contributions of all tiles, in tile order then box order. */
  function Contributions(face: FaceCandidate, fg: FaceGrid, rendered: Tile, tiles: seq<Tile>, outside: bool, restrict: bool)
    : seq<Contribution>
  {
    ConcatMap((t: Tile) => TileContributions(face, fg, rendered, t, outside, restrict), tiles)
  }

  /** The contributions of a list of tiles followed by more tiles. */
  lemma ContributionsAppend(face: FaceCandidate, fg: FaceGrid, rendered: Tile, tiles: seq<Tile>, more: seq<Tile>, outside: bool, restrict: bool)
    ensures Contributions(face, fg, rendered, tiles + more, outside, restrict) ==
      Contributions(face, fg, rendered, tiles, outside, restrict) + Contributions(face, fg, rendered, more, outside, restrict)
  {
    ConcatMapAppend((t: Tile) => TileContributions(face, fg, rendered, t, outside, restrict), tiles, more);
  }

  /** Some box overlapped the face with a side that is not solid. */
  predicate HasNonSolid(cs: seq<Contribution>)
  {
    exists i :: 0 <= i < |cs| && cs[i].NonSolidOverlap?
  }

  /** The flat (row-major) bitmap index of a cell. */
  function CellIndex(one: int, two: int, cols: int): int
  {
    one * cols + two
  }

  /** The bitmap with every cell of a rectangle set. */
  function MarkRect(s: seq<bool>, cols: nat, r: CellRect): (t: seq<bool>)
    requires cols > 0
    ensures |t| == |s|
  {
    seq(|s|, k requires 0 <= k < |s| => s[k] || InRect(r, k / cols, k % cols))
  }

  /** The coverage bitmap after the given contributions: the union of their rectangles. */
  function CoverBits(cs: seq<Contribution>, total: nat, cols: nat): (s: seq<bool>)
    requires cols > 0
    ensures |s| == total
    decreases |cs|
  {
    if cs == [] then seq(total, _ => false)
    else
      var prev := CoverBits(cs[..|cs| - 1], total, cols);
      match cs[|cs| - 1]
      case Fill(r) => MarkRect(prev, cols, r)
      case _ => prev
  }

  /** The number of set cells. */
  function CountTrue(s: seq<bool>): (n: nat)
    ensures n <= |s|
  {
    if s == [] then 0 else CountTrue(s[..|s| - 1]) + (if s[|s| - 1] then 1 else 0)
  }

  /** The cell (one, two) lies in the rectangle of some contribution. */
  predicate CellCovered(cs: seq<Contribution>, one: int, two: int)
  {
    exists i :: 0 <= i < |cs| && cs[i].Fill? && InRect(cs[i].rect, one, two)
  }

  /** The number of distinct cells of a face covered by its neighbours. */
  function FilledCells(face: FaceCandidate, rendered: Tile, tiles: seq<Tile>, outside: bool, restrict: bool): nat
  {
    var fg := FaceGridOf(face);
    if fg.cellsOne * fg.cellsTwo == 0 then 0
    else
      var cs := Contributions(face, fg, rendered, tiles, outside, restrict);
      CountTrue(CoverBits(cs, fg.cellsOne * fg.cellsTwo, fg.cellsTwo))
  }

  datatype Coverage = Coverage(coveredFully: bool, partially: bool, needsAxisCutting: bool)

  /**
   * The coverage computeFaceCoverage reports: fully covered when every cell
   * is filled; partially when not fully covered and some cell is filled or
   * (without cutting support) a non-solid neighbour overlaps; a face of zero
   * cells is neither.
   */
  function CoverageOf(face: FaceCandidate, rendered: Tile, tiles: seq<Tile>, flags: FaceStateFlags, outside: bool, restrict: bool)
    : (r: Coverage)
    ensures r.needsAxisCutting == r.partially
    ensures !(r.coveredFully && r.partially)
    ensures FaceGridOf(face).cellsOne * FaceGridOf(face).cellsTwo == 0 ==> r == Coverage(false, false, false)
    ensures r.coveredFully ==> FilledCells(face, rendered, tiles, outside, restrict) > 0
  {
    var fg := FaceGridOf(face);
    var total := fg.cellsOne * fg.cellsTwo;
    if total == 0 then Coverage(false, false, false)
    else
      var cs := Contributions(face, fg, rendered, tiles, outside, restrict);
      var filled := FilledCells(face, rendered, tiles, outside, restrict);
      var covered := filled == total;
      var partially := !covered && (filled > 0 || (HasNonSolid(cs) && !flags.supportsCutting));
      Coverage(covered, partially, partially)
  }

  // ---------------------------------------------------------------------
  // Properties of the coverage

  lemma MulPositive(a: nat, b: nat)
    requires a * b > 0
    ensures a > 0 && b > 0
  {
  }

  /** The filled-cell count never exceeds the number of cells of the face. */
  lemma FilledCellsAtMostTotal(face: FaceCandidate, rendered: Tile, tiles: seq<Tile>, outside: bool, restrict: bool)
    ensures FilledCells(face, rendered, tiles, outside, restrict) <= FaceGridOf(face).cellsOne * FaceGridOf(face).cellsTwo
  {
  }

  /** Setting cells never lowers the count: a pointwise larger bitmap has at least as many cells set. */
  lemma {:induction false} CountTrueMonotone(s: seq<bool>, t: seq<bool>)
    requires |s| == |t| && forall k :: 0 <= k < |s| && s[k] ==> t[k]
    ensures CountTrue(s) <= CountTrue(t)
    decreases |s|
  {
    if s != [] {
      CountTrueMonotone(s[..|s| - 1], t[..|t| - 1]);
    }
  }

  /** All cells are set exactly when the count equals the length. */
  lemma {:induction false} CountTrueFull(s: seq<bool>)
    ensures CountTrue(s) == |s| <==> forall k :: 0 <= k < |s| ==> s[k]
    decreases |s|
  {
    if s != [] {
      var init := s[..|s| - 1];
      CountTrueFull(init);
      assert forall k :: 0 <= k < |init| ==> init[k] == s[k];
    }
  }

  /** A bitmap with no cell set counts zero. */
  lemma {:induction false} CountTrueNone(s: seq<bool>)
    requires forall k :: 0 <= k < |s| ==> !s[k]
    ensures CountTrue(s) == 0
    decreases |s|
  {
    if s != [] {
      var init := s[..|s| - 1];
      assert forall k :: 0 <= k < |init| ==> init[k] == s[k];
      CountTrueNone(init);
    }
  }

  /** Setting one unset cell raises the count by exactly one. */
  lemma {:induction false} CountTrueSet(s: seq<bool>, k: nat)
    requires k < |s| && !s[k]
    ensures CountTrue(s[k := true]) == CountTrue(s) + 1
    decreases |s|
  {
    var t := s[k := true];
    assert t[..|t| - 1] == if k < |s| - 1 then s[..|s| - 1][k := true] else s[..|s| - 1];
    if k < |s| - 1 {
      CountTrueSet(s[..|s| - 1], k);
    }
  }

  /** Each bit of the coverage bitmap is set exactly when its cell is covered. */
  lemma {:induction false} CoverBitsMeaning(cs: seq<Contribution>, total: nat, cols: nat, k: nat)
    requires cols > 0 && k < total
    ensures CoverBits(cs, total, cols)[k] <==> CellCovered(cs, k / cols, k % cols)
    decreases |cs|
  {
    if cs != [] {
      var init := cs[..|cs| - 1];
      CoverBitsMeaning(init, total, cols, k);
      if CellCovered(cs, k / cols, k % cols) {
        var i :| 0 <= i < |cs| && cs[i].Fill? && InRect(cs[i].rect, k / cols, k % cols);
        if i < |cs| - 1 {
          assert init[i] == cs[i];
        }
      }
      if CellCovered(init, k / cols, k % cols) {
        var i :| 0 <= i < |init| && init[i].Fill? && InRect(init[i].rect, k / cols, k % cols);
        assert cs[i] == init[i];
      }
    }
  }

  /** More contributions never unset a bit. */
  lemma CoverBitsGrow(cs: seq<Contribution>, more: seq<Contribution>, total: nat, cols: nat)
    requires cols > 0
    ensures forall k :: 0 <= k < total && CoverBits(cs, total, cols)[k] ==> CoverBits(cs + more, total, cols)[k]
  {
    forall k | 0 <= k < total && CoverBits(cs, total, cols)[k]
      ensures CoverBits(cs + more, total, cols)[k]
    {
      CoverBitsMeaning(cs, total, cols, k);
      CoverBitsMeaning(cs + more, total, cols, k);
      var i :| 0 <= i < |cs| && cs[i].Fill? && InRect(cs[i].rect, k / cols, k % cols);
      assert (cs + more)[i] == cs[i];
    }
  }

  /**
   * Cells are only ever set: more neighbour tiles never lower the filled
   * count, and a face fully covered stays fully covered.
   */
  lemma MoreTilesNeverLowerCoverage(face: FaceCandidate, rendered: Tile, tiles: seq<Tile>, more: seq<Tile>,
                                    flags: FaceStateFlags, outside: bool, restrict: bool)
    ensures FilledCells(face, rendered, tiles, outside, restrict) <= FilledCells(face, rendered, tiles + more, outside, restrict)
    ensures CoverageOf(face, rendered, tiles, flags, outside, restrict).coveredFully ==>
      CoverageOf(face, rendered, tiles + more, flags, outside, restrict).coveredFully
  {
    var fg := FaceGridOf(face);
    var total := fg.cellsOne * fg.cellsTwo;
    if total > 0 {
      MulPositive(fg.cellsOne, fg.cellsTwo);
      var cs := Contributions(face, fg, rendered, tiles, outside, restrict);
      var extra := Contributions(face, fg, rendered, more, outside, restrict);
      ContributionsAppend(face, fg, rendered, tiles, more, outside, restrict);
      CoverBitsGrow(cs, extra, total, fg.cellsTwo);
      CountTrueMonotone(CoverBits(cs, total, fg.cellsTwo), CoverBits(cs + extra, total, fg.cellsTwo));
    }
  }

  lemma MulMono(x: int, y: int, b: int)
    requires x <= y && b > 0
    ensures x * b <= y * b
  {
  }

  /** A cell index lies in the bitmap. */
  lemma CellIndexInRange(one: nat, two: nat, rows: nat, cols: nat)
    requires one < rows && two < cols
    ensures 0 <= CellIndex(one, two, cols) < rows * cols
  {
    MulMono(one + 1, rows, cols);
  }

  /** The row and column of a cell index are recovered by division and remainder. */
  lemma CellIndexInverse(one: nat, two: nat, cols: nat)
    requires two < cols
    ensures CellIndex(one, two, cols) / cols == one && CellIndex(one, two, cols) % cols == two
  {
    FloorDivUnique(CellIndex(one, two, cols), cols, one);
  }

  /** Every bitmap index is the index of a cell inside the grid. */
  lemma IndexIsCell(k: nat, rows: nat, cols: nat)
    requires cols > 0 && k < rows * cols
    ensures k / cols < rows && CellIndex(k / cols, k % cols, cols) == k
  {
    if k / cols >= rows {
      MulMono(rows, k / cols, cols);
      assert false;
    }
  }

  /** Every cell of a rows x cols grid lies in some Fill rectangle. */
  predicate AllCellsCovered(cs: seq<Contribution>, rows: nat, cols: nat)
  {
    forall one, two :: 0 <= one < rows && 0 <= two < cols ==> CellCovered(cs, one, two)
  }

  /** Every cell covered sets every bit. */
  lemma AllCellsCoveredFillsBits(cs: seq<Contribution>, rows: nat, cols: nat)
    requires rows > 0 && cols > 0 && AllCellsCovered(cs, rows, cols)
    ensures forall k :: 0 <= k < rows * cols ==> CoverBits(cs, rows * cols, cols)[k]
  {
    forall k | 0 <= k < rows * cols
      ensures CoverBits(cs, rows * cols, cols)[k]
    {
      IndexIsCell(k, rows, cols);
      CoverBitsMeaning(cs, rows * cols, cols, k);
    }
  }

  /** Every bit set means every cell is covered. */
  lemma FullBitsCoverAllCells(cs: seq<Contribution>, rows: nat, cols: nat)
    requires rows > 0 && cols > 0
    requires forall k :: 0 <= k < rows * cols ==> CoverBits(cs, rows * cols, cols)[k]
    ensures AllCellsCovered(cs, rows, cols)
  {
    forall one, two | 0 <= one < rows && 0 <= two < cols
      ensures CellCovered(cs, one, two)
    {
      CellIndexInRange(one, two, rows, cols);
      CellIndexInverse(one, two, cols);
      CoverBitsMeaning(cs, rows * cols, cols, CellIndex(one, two, cols));
    }
  }

  /** The bitmap is full exactly when every cell is covered. */
  lemma FullBitsIffAllCellsCovered(cs: seq<Contribution>, rows: nat, cols: nat)
    requires rows > 0 && cols > 0
    ensures CountTrue(CoverBits(cs, rows * cols, cols)) == rows * cols <==> AllCellsCovered(cs, rows, cols)
  {
    CountTrueFull(CoverBits(cs, rows * cols, cols));
    if AllCellsCovered(cs, rows, cols) {
      AllCellsCoveredFillsBits(cs, rows, cols);
    }
    if CountTrue(CoverBits(cs, rows * cols, cols)) == rows * cols {
      FullBitsCoverAllCells(cs, rows, cols);
    }
  }

  /**
   * A face is fully covered exactly when it has cells and every one of
   * them lies in the overlap rectangle of some solid neighbour.
   */
  lemma CoveredFullyIffEveryCellCovered(face: FaceCandidate, rendered: Tile, tiles: seq<Tile>, flags: FaceStateFlags, outside: bool, restrict: bool)
    ensures var fg := FaceGridOf(face);
      CoverageOf(face, rendered, tiles, flags, outside, restrict).coveredFully <==>
        fg.cellsOne > 0 && fg.cellsTwo > 0 &&
        AllCellsCovered(Contributions(face, fg, rendered, tiles, outside, restrict), fg.cellsOne, fg.cellsTwo)
  {
    var fg := FaceGridOf(face);
    if fg.cellsOne > 0 && fg.cellsTwo > 0 {
      FullBitsIffAllCellsCovered(Contributions(face, fg, rendered, tiles, outside, restrict), fg.cellsOne, fg.cellsTwo);
    }
  }

  // ---------------------------------------------------------------------
  // The bitmap fill

  /** Before (one, two) in row-major order. */
  predicate CellBefore(a: int, b: int, one: int, two: int)
  {
    a < one || (a == one && b < two)
  }

  /** The bitmap with the cells of the rectangle that come before (one, two) set. */
  function MarkedBefore(orig: seq<bool>, cols: nat, r: CellRect, one: int, two: int): (t: seq<bool>)
    requires cols > 0
    ensures |t| == |orig|
  {
    seq(|orig|, k requires 0 <= k < |orig| => orig[k] || (InRect(r, k / cols, k % cols) && CellBefore(k / cols, k % cols, one, two)))
  }

  /** One more cell of the current row. */
  lemma MarkStep(cur: seq<bool>, orig: seq<bool>, cols: nat, r: CellRect, one: nat, two: nat)
    requires cols > 0 && two < cols && InRect(r, one, two)
    requires CellIndex(one, two, cols) < |cur|
    requires cur == MarkedBefore(orig, cols, r, one, two)
    ensures cur[CellIndex(one, two, cols) := true] == MarkedBefore(orig, cols, r, one, two + 1)
  {
    var idx := CellIndex(one, two, cols);
    CellIndexInverse(one, two, cols);
    var next := MarkedBefore(orig, cols, r, one, two + 1);
    forall k | 0 <= k < |cur|
      ensures cur[idx := true][k] == next[k]
    {
      if k / cols == one && k % cols == two {
        assert CellIndex(k / cols, k % cols, cols) == k;
      }
    }
  }

  /** A finished row starts the next one. */
  lemma MarkNextRow(orig: seq<bool>, cols: nat, r: CellRect, one: int)
    requires cols > 0 && r.twoEnd <= cols
    ensures MarkedBefore(orig, cols, r, one, r.twoEnd) == MarkedBefore(orig, cols, r, one + 1, r.twoStart)
  {
  }

  /** Marking up to the end of the rectangle marks all of it. */
  lemma MarkDone(orig: seq<bool>, cols: nat, r: CellRect)
    requires cols > 0
    ensures MarkedBefore(orig, cols, r, r.oneEnd, r.twoStart) == MarkRect(orig, cols, r)
    ensures MarkedBefore(orig, cols, r, r.oneStart, r.twoStart) == orig
  {
  }

  /**
   * The inner loops of computeFaceCoverage: every cell of the rectangle is
   * set, the count of newly set cells is returned, nothing else changes.
   */
  method FillRect(filled: array<bool>, rows: nat, cols: nat, r: CellRect) returns (added: nat)
    requires cols > 0 && filled.Length == rows * cols
    requires 0 <= r.oneStart && r.oneEnd <= rows && 0 <= r.twoStart && r.twoEnd <= cols
    modifies filled
    ensures filled[..] == MarkRect(old(filled[..]), cols, r)
    ensures CountTrue(filled[..]) == CountTrue(old(filled[..])) + added
  {
    ghost var orig := filled[..];
    added := 0;
    MarkDone(orig, cols, r);
    var one := r.oneStart;
    while one < r.oneEnd
      invariant r.oneStart <= one && (r.oneStart < r.oneEnd ==> one <= r.oneEnd)
      invariant filled[..] == MarkedBefore(orig, cols, r, one, r.twoStart)
      invariant CountTrue(filled[..]) == CountTrue(orig) + added
      decreases r.oneEnd - one
    {
      var two := r.twoStart;
      while two < r.twoEnd
        invariant r.twoStart <= two && (r.twoStart < r.twoEnd ==> two <= r.twoEnd)
        invariant filled[..] == MarkedBefore(orig, cols, r, one, two)
        invariant CountTrue(filled[..]) == CountTrue(orig) + added
        decreases r.twoEnd - two
      {
        var index := CellIndex(one, two, cols);
        CellIndexInRange(one, two, rows, cols);
        MarkStep(filled[..], orig, cols, r, one, two);
        if !filled[index] {
          CountTrueSet(filled[..], index);
          filled[index] := true;
          added := added + 1;
        } else {
          assert filled[..][index := true] == filled[..];
        }
        two := two + 1;
      }
      MarkNextRow(orig, cols, r, one);
      one := one + 1;
    }
    if r.oneStart >= r.oneEnd {
      assert MarkRect(orig, cols, r) == orig;
    }
  }

  // ---------------------------------------------------------------------
  // computeFaceCoverage

  /** One more tile appends its own contributions. */
  lemma ContributionsSnoc(face: FaceCandidate, fg: FaceGrid, rendered: Tile, tiles: seq<Tile>, tile: Tile, outside: bool, restrict: bool)
    ensures Contributions(face, fg, rendered, tiles + [tile], outside, restrict) ==
      Contributions(face, fg, rendered, tiles, outside, restrict) + TileContributions(face, fg, rendered, tile, outside, restrict)
  {
    ContributionsAppend(face, fg, rendered, tiles, [tile], outside, restrict);
    assert [tile][..0] == [];
  }

  lemma HasNonSolidAppend(cs: seq<Contribution>, ds: seq<Contribution>)
    ensures HasNonSolid(cs + ds) <==> HasNonSolid(cs) || HasNonSolid(ds)
  {
    if HasNonSolid(cs + ds) {
      var i :| 0 <= i < |cs + ds| && (cs + ds)[i].NonSolidOverlap?;
      if i >= |cs| {
        assert ds[i - |cs|] == (cs + ds)[i];
      }
    }
    if HasNonSolid(cs) {
      var i :| 0 <= i < |cs| && cs[i].NonSolidOverlap?;
      assert (cs + ds)[i] == cs[i];
    }
    if HasNonSolid(ds) {
      var i :| 0 <= i < |ds| && ds[i].NonSolidOverlap?;
      assert (cs + ds)[|cs| + i] == ds[i];
    }
  }

  /** The bitmap after one more contribution. */
  lemma CoverBitsSnoc(cs: seq<Contribution>, c: Contribution, total: nat, cols: nat)
    requires cols > 0
    ensures CoverBits(cs + [c], total, cols) == if c.Fill? then MarkRect(CoverBits(cs, total, cols), cols, c.rect) else CoverBits(cs, total, cols)
  {
    assert (cs + [c])[..|cs|] == cs;
  }

  /**
   * The box loop of computeFaceCoverage for one eligible tile: each
   * contributed rectangle is marked in the bitmap, the newly set cells are
   * counted, and a non-solid overlap is noted when cutting is not supported.
   */
  method CoverTileBoxes(face: FaceCandidate, fg: FaceGrid, boxes: seq<Box>, outside: bool, restrict: bool,
                        supportsCutting: bool, filled: array<bool>, ghost before: seq<Contribution>)
    returns (added: nat, nonSolid: bool)
    requires fg.cellsTwo > 0 && filled.Length == fg.cellsOne * fg.cellsTwo
    requires filled[..] == CoverBits(before, filled.Length, fg.cellsTwo)
    modifies filled
    ensures filled[..] == CoverBits(before + BoxContributions(face, fg, boxes, outside, restrict), filled.Length, fg.cellsTwo)
    ensures CountTrue(filled[..]) == CountTrue(old(filled[..])) + added
    ensures nonSolid == (HasNonSolid(BoxContributions(face, fg, boxes, outside, restrict)) && !supportsCutting)
  {
    added, nonSolid := 0, false;
    ghost var done: seq<Contribution> := [];
    assert before + done == before;
    for j := 0 to |boxes|
      invariant done == BoxContributions(face, fg, boxes[..j], outside, restrict)
      invariant filled[..] == CoverBits(before + done, filled.Length, fg.cellsTwo)
      invariant CountTrue(filled[..]) == CountTrue(old(filled[..])) + added
      invariant nonSolid == (HasNonSolid(done) && !supportsCutting)
    {
      assert boxes[..j + 1][..j] == boxes[..j];
      var c := BoxContribution(face, fg, boxes[j], outside, restrict);
      CoverBitsSnoc(before + done, c, filled.Length, fg.cellsTwo);
      HasNonSolidAppend(done, [c]);
      assert HasNonSolid([c]) <==> c.NonSolidOverlap?;
      match c {
        case Skip =>
        case NonSolidOverlap =>
          if !supportsCutting {
            nonSolid := true;
          }
        case Fill(r) =>
          var n := FillRect(filled, fg.cellsOne, fg.cellsTwo, r);
          added := added + n;
      }
      assert before + done + [c] == before + (done + [c]);
      done := done + [c];
    }
    assert boxes[..|boxes|] == boxes;
  }

  /** The tile step of computeFaceCoverage: ineligible tiles are skipped, eligible ones have their boxes marked. */
  method CoverTile(face: FaceCandidate, fg: FaceGrid, rendered: Tile, tile: Tile, outside: bool, restrict: bool,
                   supportsCutting: bool, filled: array<bool>, ghost before: seq<Contribution>)
    returns (added: nat, nonSolid: bool)
    requires fg.cellsTwo > 0 && filled.Length == fg.cellsOne * fg.cellsTwo
    requires filled[..] == CoverBits(before, filled.Length, fg.cellsTwo)
    modifies filled
    ensures filled[..] == CoverBits(before + TileContributions(face, fg, rendered, tile, outside, restrict), filled.Length, fg.cellsTwo)
    ensures CountTrue(filled[..]) == CountTrue(old(filled[..])) + added
    ensures nonSolid == (HasNonSolid(TileContributions(face, fg, rendered, tile, outside, restrict)) && !supportsCutting)
  {
    if tile.structureNoCollision || !(DoesProvideSolidFace(tile) || CanBeRenderCombined(tile, rendered)) {
      assert before + [] == before;
      return 0, false;
    }
    added, nonSolid := CoverTileBoxes(face, fg, tile.boxes, outside, restrict, supportsCutting, filled, before);
  }

  /** The result computeFaceCoverage builds from the final count and flag is the specified coverage. */
  lemma CoverageFromCount(face: FaceCandidate, rendered: Tile, tiles: seq<Tile>, flags: FaceStateFlags, outside: bool, restrict: bool,
                          filledCells: nat, hasPartialByNonSolid: bool)
    requires FaceGridOf(face).cellsOne * FaceGridOf(face).cellsTwo > 0
    requires filledCells == FilledCells(face, rendered, tiles, outside, restrict)
    requires hasPartialByNonSolid == (HasNonSolid(Contributions(face, FaceGridOf(face), rendered, tiles, outside, restrict)) && !flags.supportsCutting)
    ensures var total := FaceGridOf(face).cellsOne * FaceGridOf(face).cellsTwo;
      var partially := filledCells != total && (filledCells > 0 || hasPartialByNonSolid);
      Coverage(filledCells == total, partially, partially) == CoverageOf(face, rendered, tiles, flags, outside, restrict)
  {
  }

  /**
   * computeFaceCoverage: a bitmap of the face's cells is filled from the
   * overlaps of the eligible neighbour boxes, and the result is the
   * coverage the specification function states.
   */
  method ComputeFaceCoverage(face: FaceCandidate, rendered: Tile, allTiles: seq<Tile>, flags: FaceStateFlags, outside: bool, restrict: bool)
    returns (cov: Coverage)
    ensures cov == CoverageOf(face, rendered, allTiles, flags, outside, restrict)
  {
    var fg := FaceGridOf(face);
    var totalCells := fg.cellsOne * fg.cellsTwo;
    if totalCells == 0 {
      return Coverage(false, false, false);
    }
    MulPositive(fg.cellsOne, fg.cellsTwo);
    var filled := new bool[totalCells](_ => false);
    var filledCells := 0;
    var hasPartialByNonSolid := false;
    ghost var cs: seq<Contribution> := [];
    assert filled[..] == CoverBits(cs, totalCells, fg.cellsTwo);
    CountTrueNone(filled[..]);
    for i := 0 to |allTiles|
      invariant cs == Contributions(face, fg, rendered, allTiles[..i], outside, restrict)
      invariant filled[..] == CoverBits(cs, totalCells, fg.cellsTwo)
      invariant filledCells == CountTrue(filled[..])
      invariant hasPartialByNonSolid == (HasNonSolid(cs) && !flags.supportsCutting)
    {
      var tile := allTiles[i];
      var added, nonSolid := CoverTile(face, fg, rendered, tile, outside, restrict, flags.supportsCutting, filled, cs);
      ghost var tc := TileContributions(face, fg, rendered, tile, outside, restrict);
      HasNonSolidAppend(cs, tc);
      assert allTiles[..i + 1] == allTiles[..i] + [tile];
      ContributionsSnoc(face, fg, rendered, allTiles[..i], tile, outside, restrict);
      filledCells := filledCells + added;
      hasPartialByNonSolid := hasPartialByNonSolid || nonSolid;
      cs := cs + tc;
    }
    assert allTiles[..|allTiles|] == allTiles;
    CoverageFromCount(face, rendered, allTiles, flags, outside, restrict, filledCells, hasPartialByNonSolid);
    var coveredFully := filledCells == totalCells;
    var partially := !coveredFully && (filledCells > 0 || hasPartialByNonSolid);
    return Coverage(coveredFully, partially, partially);
  }

  // ---------------------------------------------------------------------
  // Face states

  datatype FaceStateName =
    | Unloaded
    | InsideCovered | InsidePartiallyCovered | InsideUncovered
    | OutsideCovered | OutsidePartiallyCovered | OutsideUncovered

  /** The state names as they are written into debug reports, OUTISDE_COVERED spelt as it is. */
  function StateLabel(s: FaceStateName): (name: string)
    ensures |name| > 0
  {
    match s
    case Unloaded => "UNLOADED"
    case InsideCovered => "INSIDE_COVERED"
    case InsidePartiallyCovered => "INSIDE_PARTIALLY_COVERED"
    case InsideUncovered => "INSIDE_UNCOVERED"
    case OutsideCovered => "OUTISDE_COVERED"
    case OutsidePartiallyCovered => "OUTSIDE_PARTIALLY_COVERED"
    case OutsideUncovered => "OUTSIDE_UNCOVERED"
  }

  predicate IsInsideState(s: FaceStateName)
  {
    s.InsideCovered? || s.InsidePartiallyCovered? || s.InsideUncovered?
  }

  predicate IsOutsideState(s: FaceStateName)
  {
    s.OutsideCovered? || s.OutsidePartiallyCovered? || s.OutsideUncovered?
  }

  datatype FaceState = FaceState(outside: bool, state: FaceStateName, coveredFully: bool, partially: bool,
                                 renderable: bool, reason: string, needsAxisCutting: bool)

  /** Some polygon of the list has at least three vertices and is not degenerate. */
  predicate HasRenderable(polys: seq<Polygon>)
  {
    exists i :: 0 <= i < |polys| && Renderable(polys[i])
  }

  /** A face of a client-mode tilted-only candidate: uncovered, without any neighbour search. */
  function ClientTiltedOnlyFaceState(outside: bool, rendered: Tile): FaceState
  {
    if outside then
      if !rendered.cullOverEdge then FaceState(true, OutsideUncovered, false, false, true, "outside_cull_over_edge_disabled", false)
      else FaceState(true, OutsideUncovered, false, false, true, "outside_assume_air_neighbour", false)
    else FaceState(false, InsideUncovered, false, false, true, "inside_uncovered", false)
  }

  /** The state of an inside face with the given coverage. */
  function InsideStateFor(cov: Coverage): FaceState
  {
    if cov.coveredFully then FaceState(false, InsideCovered, true, false, false, "inside_covered", false)
    else if cov.partially then FaceState(false, InsidePartiallyCovered, false, true, true, "inside_partially_covered", cov.needsAxisCutting)
    else FaceState(false, InsideUncovered, false, false, true, "inside_uncovered", false)
  }

  /** The state of an outside face with the given coverage. */
  function OutsideStateFor(cov: Coverage): FaceState
  {
    if cov.coveredFully then FaceState(true, OutsideCovered, true, false, false, "outside_covered", false)
    else if cov.partially then FaceState(true, OutsidePartiallyCovered, false, true, true, "outside_partially_covered", cov.needsAxisCutting)
    else FaceState(true, OutsideUncovered, false, false, true, "outside_uncovered", false)
  }

  /** evaluateOutsideFaceState */
  function OutsideFaceState(face: FaceCandidate, rendered: Tile, tiles: seq<Tile>, flags: FaceStateFlags): FaceState
  {
    if !rendered.cullOverEdge then FaceState(true, OutsideUncovered, false, false, true, "outside_cull_over_edge_disabled", false)
    else if flags.policyIsAir || !ShouldOccludeOutsideFaces(flags) then
      FaceState(true, OutsideUncovered, false, false, true, "outside_assume_air_neighbour", false)
    else OutsideStateFor(CoverageOf(face, rendered, tiles, flags, true, true))
  }

  /** evaluateFaceState, as a function of the face, its tile, all tiles, the profile and the geometry mode. */
  function FaceStateOf(face: FaceCandidate, rendered: Tile, tiles: seq<Tile>, flags: FaceStateFlags, clientMode: bool): FaceState
  {
    var outside := IsOutsideFace(face);
    var hasAxis := HasRenderable(face.axisPolys);
    var hasTilted := HasRenderable(face.tiltedPolys);
    if !hasAxis && !hasTilted then FaceState(outside, Unloaded, false, false, false, "face_unloaded", false)
    else if clientMode && !hasAxis && hasTilted then ClientTiltedOnlyFaceState(outside, rendered)
    else if outside then OutsideFaceState(face, rendered, tiles, flags)
    else InsideStateFor(CoverageOf(face, rendered, tiles, flags, false, false))
  }

  /** evaluateFaceState: classifies a face and computes its coverage when that is needed. */
  method EvaluateFaceState(face: FaceCandidate, rendered: Tile, allTiles: seq<Tile>, flags: FaceStateFlags, clientMode: bool)
    returns (s: FaceState)
    ensures s == FaceStateOf(face, rendered, allTiles, flags, clientMode)
  {
    var outside := IsOutsideFace(face);
    var hasAxis := HasRenderablePolygon(face.axisPolys);
    var hasTilted := HasRenderablePolygon(face.tiltedPolys);
    if !hasAxis && !hasTilted {
      return FaceState(outside, Unloaded, false, false, false, "face_unloaded", false);
    }
    if clientMode && !hasAxis && hasTilted {
      return ClientTiltedOnlyFaceState(outside, rendered);
    }
    if outside {
      if !rendered.cullOverEdge {
        return FaceState(true, OutsideUncovered, false, false, true, "outside_cull_over_edge_disabled", false);
      }
      if flags.policyIsAir || !ShouldOccludeOutsideFaces(flags) {
        return FaceState(true, OutsideUncovered, false, false, true, "outside_assume_air_neighbour", false);
      }
      var cov := ComputeFaceCoverage(face, rendered, allTiles, flags, true, true);
      return OutsideStateFor(cov);
    }
    var cov := ComputeFaceCoverage(face, rendered, allTiles, flags, false, false);
    return InsideStateFor(cov);
  }

  // ---------------------------------------------------------------------
  // Properties of the face states

  /**
   * Every state is self-consistent: a face is renderable exactly when it
   * is loaded and not fully covered; fully covered and partially covered
   * are the COVERED and PARTIALLY_COVERED states; axis cutting is only
   * asked for on partially covered faces; inside and outside states match
   * the face's position.
   */
  lemma FaceStateConsistent(face: FaceCandidate, rendered: Tile, tiles: seq<Tile>, flags: FaceStateFlags, clientMode: bool)
    ensures var s := FaceStateOf(face, rendered, tiles, flags, clientMode);
      && s.outside == IsOutsideFace(face)
      && (s.renderable <==> s.state != Unloaded && !s.coveredFully)
      && (s.coveredFully <==> s.state == InsideCovered || s.state == OutsideCovered)
      && (s.partially <==> s.state == InsidePartiallyCovered || s.state == OutsidePartiallyCovered)
      && (s.needsAxisCutting ==> s.partially)
      && (IsInsideState(s.state) ==> !s.outside)
      && (IsOutsideState(s.state) ==> s.outside)
  {
  }

  /** A face is UNLOADED exactly when neither of its polygon lists has a renderable polygon. */
  lemma UnloadedIffNothingRenderable(face: FaceCandidate, rendered: Tile, tiles: seq<Tile>, flags: FaceStateFlags, clientMode: bool)
    ensures FaceStateOf(face, rendered, tiles, flags, clientMode).state == Unloaded <==>
      !HasRenderable(face.axisPolys) && !HasRenderable(face.tiltedPolys)
  {
  }

  /**
   * In client geometry mode a face with only tilted polygons is uncovered
   * and renderable whatever the neighbouring tiles and the profile are.
   */
  lemma ClientTiltedOnlyIgnoresNeighbours(face: FaceCandidate, rendered: Tile, tiles: seq<Tile>, otherTiles: seq<Tile>,
                                          flags: FaceStateFlags, otherFlags: FaceStateFlags)
    requires !HasRenderable(face.axisPolys) && HasRenderable(face.tiltedPolys)
    ensures var s := FaceStateOf(face, rendered, tiles, flags, true);
      && s == FaceStateOf(face, rendered, otherTiles, otherFlags, true)
      && s.renderable && !s.coveredFully && !s.partially && !s.needsAxisCutting
      && (s.state == InsideUncovered || s.state == OutsideUncovered)
  {
  }

  /**
   * An outside face whose tile does not cull over edges, or whose profile
   * does not occlude outside faces, is OUTSIDE_UNCOVERED whatever the
   * neighbouring tiles are.
   */
  lemma OutsideWithoutOcclusionIsUncovered(face: FaceCandidate, rendered: Tile, tiles: seq<Tile>, otherTiles: seq<Tile>,
                                           flags: FaceStateFlags, clientMode: bool)
    requires IsOutsideFace(face) && (HasRenderable(face.axisPolys) || HasRenderable(face.tiltedPolys))
    requires !rendered.cullOverEdge || !ShouldOccludeOutsideFaces(flags)
    ensures var s := FaceStateOf(face, rendered, tiles, flags, clientMode);
      && s == FaceStateOf(face, rendered, otherTiles, flags, clientMode)
      && s.state == OutsideUncovered && s.renderable
  {
  }

  /**
   * A loaded inside face (outside client-mode tilted-only handling) is
   * INSIDE_COVERED exactly when every one of its cells is covered by a
   * solid neighbour box.
   */
  lemma InsideCoveredIffEveryCellCovered(face: FaceCandidate, rendered: Tile, tiles: seq<Tile>, flags: FaceStateFlags, clientMode: bool)
    requires !IsOutsideFace(face) && HasRenderable(face.axisPolys)
    ensures var fg := FaceGridOf(face);
      FaceStateOf(face, rendered, tiles, flags, clientMode).state == InsideCovered <==>
        fg.cellsOne > 0 && fg.cellsTwo > 0 &&
        AllCellsCovered(Contributions(face, fg, rendered, tiles, false, false), fg.cellsOne, fg.cellsTwo)
  {
    CoveredFullyIffEveryCellCovered(face, rendered, tiles, flags, false, false);
  }
}
