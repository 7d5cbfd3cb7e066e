/**
 * The debug exporter's bookkeeping (the server command that evaluates every
 * face of a LittleTiles structure and writes a JSON report): the geometry
 * mode argument, the face-cell estimate and the outside test, the filled
 * cell count of a coverage bitmap, the per-face evaluation record, the
 * transformable cache comparison, and the two summaries that count faces
 * by state, facing and reason and keep the first mismatch samples.
 */
module LtDebugExport {
  import opened Wrappers
  import opened Strings
  import opened Json
  import opened Facings
  import opened Scene
  import FCB = FaceCandidateBuilder
  import PolygonOps
  import OccluderOps
  import FSE = FaceStateEvaluation
  import PostprocessFaces
  import Cli
  import CandidateDiff
  import ParityFaceStates
  import LtTextureExport

  type GeometryMode = PostprocessFaces.GeometryMode
  type StateName = FSE.FaceStateName

  // ---------------------------------------------------------------------------
  // GeometryMode.fromArg
  // ---------------------------------------------------------------------------

  /** GeometryMode.fromArg: the trimmed, lower-cased argument names a mode, or there is none. */
  function GeometryModeFromArg(raw: Option<string>): (m: Option<GeometryMode>)
    ensures m.Some? <==> ToLower(LtTextureExport.JavaTrimmed(raw)) in {"client", "server"}
    ensures m.Some? ==> Cli.ModeName(m.value) == ToLower(LtTextureExport.JavaTrimmed(raw))
  {
    var value := ToLower(LtTextureExport.JavaTrimmed(raw));
    if value == "client" then Some(PostprocessFaces.Client)
    else if value == "server" then Some(PostprocessFaces.Server)
    else None
  }

  /** Each mode's id reads back as that mode, and a missing argument as none. */
  lemma GeometryModeIds(mode: GeometryMode)
    ensures GeometryModeFromArg(Some(Cli.ModeName(mode))) == Some(mode)
    ensures GeometryModeFromArg(None) == None
  {
    var name := Cli.ModeName(mode);
    TrimOfTrimmed(JavaTrim, name);
    assert LtTextureExport.JavaTrimmed(Some(name)) == name;
    assert ToLower(name) == name;
    assert LtTextureExport.JavaTrimmed(None) == [];
  }

  // ---------------------------------------------------------------------------
  // estimateFaceCellCount and isOutsideFace
  // ---------------------------------------------------------------------------

  /** The extent of a box on one axis, 0 when it is empty or inverted. */
  function Span(box: Box, axis: nat): (n: int)
    ensures n >= 0
    ensures n == 0 <==> box.RawMax(axis) <= box.RawMin(axis)
  {
    var d := box.RawMax(axis) - box.RawMin(axis);
    if d > 0 then d else 0
  }

  /** estimateFaceCellCount: the product of the box's two in-plane extents. */
  function EstimateFaceCellCount(box: Box, f: Facing): (n: int)
    ensures n >= 0
    ensures n == 0 <==> Span(box, FacePlaneAxes(f).0) == 0 || Span(box, FacePlaneAxes(f).1) == 0
  {
    var (one, two) := FacePlaneAxes(f);
    ProductZero(Span(box, one), Span(box, two));
    Span(box, one) * Span(box, two)
  }

  /** A product of two naturals is zero exactly when one of them is. */
  lemma ProductZero(a: int, b: int)
    requires a >= 0 && b >= 0
    ensures a * b >= 0 && (a * b == 0 <==> a == 0 || b == 0)
  {
    if a > 0 && b > 0 {
      assert a * b >= b by {
        assert a * b == (a - 1) * b + b;
        assert (a - 1) * b >= 0;
      }
    }
  }

  /** Opposite sides of a box lie in the same plane directions, so they have the same estimate. */
  lemma OppositeFacesSameEstimate(box: Box, f: Facing)
    ensures EstimateFaceCellCount(box, OccluderOps.OppositeFacing(f)) == EstimateFaceCellCount(box, f)
  {
  }

  /** The estimate counts the cells of a full bitmap over the face. */
  lemma EstimateCountsFullFace(box: Box, f: Facing)
    ensures var (one, two) := FacePlaneAxes(f);
            FilledCount(Some(FullGrid(Span(box, one), Span(box, two)))) == EstimateFaceCellCount(box, f)
  {
    var (one, two) := FacePlaneAxes(f);
    FullGridCount(Span(box, one), Span(box, two));
  }

  /**
   * isOutsideFace: the face plane (the box maximum on the face axis for a
   * positive facing, the minimum otherwise) is outside unless it lies
   * strictly between 0 and the grid count.
   */
  predicate IsOutsideFace(box: Box, grid: int, f: Facing)
  {
    var k := AxisIndex(FacingAxis(f));
    var origin := if FacingPositive(f) then box.RawMax(k) else box.RawMin(k);
    !(origin > 0 && origin < grid)
  }

  /** On the box's own grid, the test is the exporter's own outside test for the face candidate. */
  lemma OutsideAgreesWithCandidates(box: Box, f: Facing, tile: Tile, axisPolys: seq<PolygonOps.Polygon>, tiltedPolys: seq<PolygonOps.Polygon>)
    ensures IsOutsideFace(box, box.grid, f)
            == OccluderOps.IsOutsideFace(FCB.FaceCandidate(tile, box, f, FCB.BoundsForFace(box, f), axisPolys, tiltedPolys))
  {
  }

  /**
   * For a box within its block, a face is outside exactly when it lies on
   * the block boundary: the grid count for positive facings, zero for the
   * others.
   */
  lemma OutsideIffOnBoundary(box: Box, grid: int, f: Facing)
    requires var k := AxisIndex(FacingAxis(f)); 0 <= box.RawMin(k) < box.RawMax(k) <= grid
    ensures var k := AxisIndex(FacingAxis(f));
            IsOutsideFace(box, grid, f) <==> if FacingPositive(f) then box.RawMax(k) == grid else box.RawMin(k) == 0
  {
  }

  // ---------------------------------------------------------------------------
  // countFilledCells
  // ---------------------------------------------------------------------------

  /** The number of set cells in one row. */
  function RowCount(row: seq<bool>): (n: nat)
    ensures n <= |row|
    decreases |row|
  {
    if row == [] then 0 else RowCount(row[..|row| - 1]) + (if row[|row| - 1] then 1 else 0)
  }

  /** The number of set cells over all rows. */
  function GridCount(rows: seq<seq<bool>>): nat
    decreases |rows|
  {
    if rows == [] then 0 else GridCount(rows[..|rows| - 1]) + RowCount(rows[|rows| - 1])
  }

  /** The number of cells over all rows, set or not. */
  function CellTotal(rows: seq<seq<bool>>): nat
    decreases |rows|
  {
    if rows == [] then 0 else CellTotal(rows[..|rows| - 1]) + |rows[|rows| - 1]|
  }

  /** countFilledCells as a value: none for a null bitmap, otherwise the set cells. */
  function FilledCount(filled: Option<seq<seq<bool>>>): nat
  {
    if filled.None? then 0 else GridCount(filled.value)
  }

  /** countFilledCells: nothing for a null or empty bitmap, otherwise a nested loop counting the set cells. */
  method CountFilledCells(filled: Option<seq<seq<bool>>>) returns (out: int)
    ensures out == FilledCount(filled)
  {
    if filled.None? || |filled.value| == 0 {
      return 0;
    }
    var rows := filled.value;
    out := 0;
    for one := 0 to |rows|
      invariant out == GridCount(rows[..one])
    {
      assert rows[..one + 1][..one] == rows[..one];
      var row := rows[one];
      for two := 0 to |row|
        invariant out == GridCount(rows[..one]) + RowCount(row[..two])
      {
        assert row[..two + 1][..two] == row[..two];
        if row[two] {
          out := out + 1;
        }
      }
      assert row[..|row|] == row;
    }
    assert rows[..|rows|] == rows;
  }

  /** A row's count is zero exactly when no cell of it is set. */
  lemma {:induction false} RowCountZero(row: seq<bool>)
    ensures RowCount(row) == 0 <==> forall j :: 0 <= j < |row| ==> !row[j]
    decreases |row|
  {
    if row != [] {
      RowCountZero(row[..|row| - 1]);
    }
  }

  /**
   * The count never exceeds the number of cells, and it is zero exactly
   * when no cell is set.
   */
  lemma {:induction false} GridCountBounds(rows: seq<seq<bool>>)
    ensures GridCount(rows) <= CellTotal(rows)
    ensures GridCount(rows) == 0 <==> forall i, j :: 0 <= i < |rows| && 0 <= j < |rows[i]| ==> !rows[i][j]
    decreases |rows|
  {
    if rows != [] {
      var init := rows[..|rows| - 1];
      GridCountBounds(init);
      RowCountZero(rows[|rows| - 1]);
      assert forall i :: 0 <= i < |init| ==> init[i] == rows[i];
    }
  }

  /** A bitmap of n rows of m set cells. */
  function FullGrid(n: nat, m: nat): (rows: seq<seq<bool>>)
    ensures |rows| == n && forall i :: 0 <= i < n ==> rows[i] == seq(m, j => true)
  {
    seq(n, i => seq(m, j => true))
  }

  /** A full row counts all its cells. */
  lemma {:induction false} FullRowCount(m: nat)
    ensures RowCount(seq(m, j => true)) == m
    decreases m
  {
    if m > 0 {
      FullRowCount(m - 1);
      assert seq(m, j => true)[..m - 1] == seq(m - 1, j => true);
    }
  }

  /** A full bitmap counts every one of its n * m cells. */
  lemma {:induction false} FullGridCount(n: nat, m: nat)
    ensures GridCount(FullGrid(n, m)) == n * m
    decreases n
  {
    if n > 0 {
      FullGridCount(n - 1, m);
      assert FullGrid(n, m)[..n - 1] == FullGrid(n - 1, m);
      FullRowCount(m);
      assert n * m == (n - 1) * m + m;
    }
  }

  // ---------------------------------------------------------------------------
  // FaceEvaluation
  // ---------------------------------------------------------------------------

  /** The outside states of LittleFaceState. */
  predicate IsOutside(s: StateName)
  {
    FSE.IsOutsideState(s)
  }

  /** The states in which the face is fully covered. */
  predicate CoveredFully(s: StateName)
  {
    s == FSE.InsideCovered || s == FSE.OutsideCovered
  }

  /** The transformable cache as one snapshot sees it. */
  datatype CacheSnapshot = CacheSnapshot(
    axisStripCount: int,
    tiltedRenderCount: int,
    hasAxisStrip: bool,
    hasTiltedStrip: bool,
    isCompletelyFilled: bool)

  /** TransformableFaceCacheSnapshot.empty. */
  const EmptySnapshot: CacheSnapshot := CacheSnapshot(0, 0, false, false, false)

  /** The current and fresh cache snapshots of one face and where they disagree. */
  datatype CacheDebug = CacheDebug(
    currentSnapshot: CacheSnapshot,
    freshSnapshot: CacheSnapshot,
    axisStripCountMismatch: bool,
    tiltedRenderCountMismatch: bool,
    hasAxisStripMismatch: bool,
    hasTiltedStripMismatch: bool,
    isCompletelyFilledMismatch: bool,
    currentVsFreshMismatch: bool,
    generateFaceCurrentNull: bool,
    generateFaceFreshNull: bool,
    generateFaceNullMismatch: bool,
    setCurrentResult: bool,
    setFreshResult: bool,
    setResultMismatch: bool)

  /**
   * The TransformableFaceCacheDebug constructor: a missing snapshot is the
   * empty one, each field is compared, and the overall mismatch is any
   * field mismatch.
   */
  function MakeCacheDebug(current: Option<CacheSnapshot>, latest: Option<CacheSnapshot>,
                          generateFaceCurrentNull: bool, generateFaceFreshNull: bool,
                          setCurrentResult: bool, setFreshResult: bool): (d: CacheDebug)
    ensures d.currentSnapshot == current.GetOr(EmptySnapshot) && d.freshSnapshot == latest.GetOr(EmptySnapshot)
    ensures d.currentVsFreshMismatch <==> d.currentSnapshot != d.freshSnapshot
    ensures d.generateFaceNullMismatch <==> generateFaceCurrentNull != generateFaceFreshNull
    ensures d.setResultMismatch <==> setCurrentResult != setFreshResult
    ensures IsConsistent(d)
  {
    var c := current.GetOr(EmptySnapshot);
    var f := latest.GetOr(EmptySnapshot);
    var axisStripCountMismatch := c.axisStripCount != f.axisStripCount;
    var tiltedRenderCountMismatch := c.tiltedRenderCount != f.tiltedRenderCount;
    var hasAxisStripMismatch := c.hasAxisStrip != f.hasAxisStrip;
    var hasTiltedStripMismatch := c.hasTiltedStrip != f.hasTiltedStrip;
    var isCompletelyFilledMismatch := c.isCompletelyFilled != f.isCompletelyFilled;
    CacheDebug(c, f, axisStripCountMismatch, tiltedRenderCountMismatch, hasAxisStripMismatch,
      hasTiltedStripMismatch, isCompletelyFilledMismatch,
      axisStripCountMismatch || tiltedRenderCountMismatch || hasAxisStripMismatch
        || hasTiltedStripMismatch || isCompletelyFilledMismatch,
      generateFaceCurrentNull, generateFaceFreshNull, generateFaceCurrentNull != generateFaceFreshNull,
      setCurrentResult, setFreshResult, setCurrentResult != setFreshResult)
  }

  /** The mismatch flags of a record agree with its two snapshots. */
  predicate IsConsistent(d: CacheDebug)
  {
    && (d.axisStripCountMismatch <==> d.currentSnapshot.axisStripCount != d.freshSnapshot.axisStripCount)
    && (d.tiltedRenderCountMismatch <==> d.currentSnapshot.tiltedRenderCount != d.freshSnapshot.tiltedRenderCount)
    && (d.hasAxisStripMismatch <==> d.currentSnapshot.hasAxisStrip != d.freshSnapshot.hasAxisStrip)
    && (d.hasTiltedStripMismatch <==> d.currentSnapshot.hasTiltedStrip != d.freshSnapshot.hasTiltedStrip)
    && (d.isCompletelyFilledMismatch <==> d.currentSnapshot.isCompletelyFilled != d.freshSnapshot.isCompletelyFilled)
    && (d.currentVsFreshMismatch <==>
          (d.axisStripCountMismatch || d.tiltedRenderCountMismatch
           || d.hasAxisStripMismatch || d.hasTiltedStripMismatch || d.isCompletelyFilledMismatch))
  }

  /**
   * The report's fieldMismatches object, read back by the candidate diff,
   * gives the record's overall mismatch: some field is true exactly when
   * the snapshots differ.
   */
  lemma FieldMismatchesReadBack(d: CacheDebug, v: Json)
    requires IsConsistent(d)
    requires Get(v, "axisStripCount") == Some(JBool(d.axisStripCountMismatch))
    requires Get(v, "tiltedRenderCount") == Some(JBool(d.tiltedRenderCountMismatch))
    requires Get(v, "hasAxisStrip") == Some(JBool(d.hasAxisStripMismatch))
    requires Get(v, "hasTiltedStrip") == Some(JBool(d.hasTiltedStripMismatch))
    requires Get(v, "isCompletelyFilled") == Some(JBool(d.isCompletelyFilledMismatch))
    ensures CandidateDiff.AnyField(v, true) <==> d.currentVsFreshMismatch
  {
    var names := CandidateDiff.MismatchFields;
    assert names[0] == "axisStripCount" && names[1] == "tiltedRenderCount" && names[2] == "hasAxisStrip";
    assert names[3] == "hasTiltedStrip" && names[4] == "isCompletelyFilled" && |names| == 5;
    if d.currentVsFreshMismatch {
      if d.axisStripCountMismatch {
        assert Get(v, names[0]) == Some(JBool(true));
      } else if d.tiltedRenderCountMismatch {
        assert Get(v, names[1]) == Some(JBool(true));
      } else if d.hasAxisStripMismatch {
        assert Get(v, names[2]) == Some(JBool(true));
      } else if d.hasTiltedStripMismatch {
        assert Get(v, names[3]) == Some(JBool(true));
      } else {
        assert Get(v, names[4]) == Some(JBool(true));
      }
    }
  }

  /** The record kept for one evaluated face. */
  datatype FaceEvaluation = FaceEvaluation(
    facing: Facing,
    state: StateName,
    reason: string,
    totalCells: int,
    filledCells: int,
    cache: Option<CacheDebug>)

  /** FaceEvaluation.renderable: the face is loaded and not fully covered. */
  predicate Renderable(e: FaceEvaluation)
  {
    e.state != FSE.Unloaded && !CoveredFully(e.state)
  }

  /** The renderable faces are exactly the partially covered and the uncovered ones, inside or outside. */
  lemma RenderableStates(e: FaceEvaluation)
    ensures Renderable(e) <==> e.state in {FSE.InsidePartiallyCovered, FSE.InsideUncovered,
                                           FSE.OutsidePartiallyCovered, FSE.OutsideUncovered}
  {
  }

  /**
   * A face as the report writes it (its state's name and its coveredFully
   * flag) is renderable for the report reader exactly when it is for the
   * exporter.
   */
  lemma RenderableReadBack(e: FaceEvaluation, face: Json)
    requires ParityFaceStates.FieldText(face, "state") == FSE.StateLabel(e.state)
    requires Get(face, "coveredFully") == Some(JBool(CoveredFully(e.state)))
    ensures ParityFaceStates.IsDebugFaceRenderable(face) <==> Renderable(e)
  {
    var stateName := FSE.StateLabel(e.state);
    assert stateName == "UNLOADED" <==> e.state == FSE.Unloaded;
    assert stateName == "INSIDE_COVERED" <==> e.state == FSE.InsideCovered;
    assert stateName == "OUTISDE_COVERED" <==> e.state == FSE.OutsideCovered;
  }

  /** The cell count of a server face: the product of its spans, at least 0. */
  function FaceCells(minOne: int, maxOne: int, minTwo: int, maxTwo: int): (n: int)
    ensures n >= 0
    ensures minOne <= maxOne && minTwo <= maxTwo ==> n == (maxOne - minOne) * (maxTwo - minTwo)
  {
    var product := (maxOne - minOne) * (maxTwo - minTwo);
    assert minOne <= maxOne && minTwo <= maxTwo ==> product >= 0 by {
      if minOne <= maxOne && minTwo <= maxTwo {
        ProductZero(maxOne - minOne, maxTwo - minTwo);
      }
    }
    if product > 0 then product else 0
  }

  /** FaceEvaluation.unloaded: no cells and not renderable. */
  function UnloadedEvaluation(f: Facing, cache: Option<CacheDebug>): (e: FaceEvaluation)
    ensures e.facing == f && e.cache == cache && e.reason == "face_unloaded"
    ensures e.totalCells == 0 && e.filledCells == 0
    ensures !Renderable(e) && !IsOutside(e.state)
  {
    FaceEvaluation(f, FSE.Unloaded, "face_unloaded", 0, 0, cache)
  }

  /** FaceEvaluation.outside: the given state and reason, the face's cells, none filled. */
  function OutsideEvaluation(f: Facing, state: StateName, reason: string,
                             minOne: int, maxOne: int, minTwo: int, maxTwo: int, cache: Option<CacheDebug>): (e: FaceEvaluation)
    ensures e.facing == f && e.state == state && e.reason == reason && e.cache == cache
    ensures e.totalCells == FaceCells(minOne, maxOne, minTwo, maxTwo) && e.filledCells == 0
  {
    FaceEvaluation(f, state, reason, FaceCells(minOne, maxOne, minTwo, maxTwo), 0, cache)
  }

  /** FaceEvaluation.inside: an uncovered inside face, renderable, with the face's cells and none filled. */
  function InsideEvaluation(f: Facing, minOne: int, maxOne: int, minTwo: int, maxTwo: int, cache: Option<CacheDebug>): (e: FaceEvaluation)
    ensures e.facing == f && e.cache == cache && e.reason == "inside_uncovered"
    ensures e.totalCells == FaceCells(minOne, maxOne, minTwo, maxTwo) && e.filledCells == 0
    ensures Renderable(e) && !IsOutside(e.state)
  {
    FaceEvaluation(f, FSE.InsideUncovered, "inside_uncovered", FaceCells(minOne, maxOne, minTwo, maxTwo), 0, cache)
  }

  // ---------------------------------------------------------------------------
  // FaceStateSummary
  // ---------------------------------------------------------------------------

  /** The number of faces with an outside state. */
  function OutsideCount(faces: seq<FaceEvaluation>): (n: nat)
    ensures n <= |faces|
    decreases |faces|
  {
    if faces == [] then 0
    else OutsideCount(faces[..|faces| - 1]) + (if IsOutside(faces[|faces| - 1].state) then 1 else 0)
  }

  /** The number of faces counted as inside: every face whose state is not an outside one. */
  function InsideCount(faces: seq<FaceEvaluation>): (n: nat)
    ensures n <= |faces|
    decreases |faces|
  {
    if faces == [] then 0
    else InsideCount(faces[..|faces| - 1]) + (if IsOutside(faces[|faces| - 1].state) then 0 else 1)
  }

  /** The number of renderable faces. */
  function RenderableCount(faces: seq<FaceEvaluation>): (n: nat)
    ensures n <= |faces|
    decreases |faces|
  {
    if faces == [] then 0
    else RenderableCount(faces[..|faces| - 1]) + (if Renderable(faces[|faces| - 1]) then 1 else 0)
  }

  /** The number of faces in a state. */
  function StateCount(faces: seq<FaceEvaluation>, s: StateName): (n: nat)
    decreases |faces|
  {
    if faces == [] then 0
    else StateCount(faces[..|faces| - 1], s) + (if faces[|faces| - 1].state == s then 1 else 0)
  }

  /** The number of faces with a facing. */
  function FacingCount(faces: seq<FaceEvaluation>, f: Facing): (n: nat)
    decreases |faces|
  {
    if faces == [] then 0
    else FacingCount(faces[..|faces| - 1], f) + (if faces[|faces| - 1].facing == f then 1 else 0)
  }

  /** The number of faces with a reason. */
  function ReasonCount(faces: seq<FaceEvaluation>, r: string): (n: nat)
    decreases |faces|
  {
    if faces == [] then 0
    else ReasonCount(faces[..|faces| - 1], r) + (if faces[|faces| - 1].reason == r then 1 else 0)
  }

  /** Every face is counted either inside or outside, never both. */
  lemma {:induction false} InsideOutsidePartition(faces: seq<FaceEvaluation>)
    ensures InsideCount(faces) + OutsideCount(faces) == |faces|
    decreases |faces|
  {
    if faces != [] {
      InsideOutsidePartition(faces[..|faces| - 1]);
    }
  }

  /** The per-state counts add up to the number of faces. */
  lemma {:induction false} StateCountsSum(faces: seq<FaceEvaluation>)
    ensures StateCount(faces, FSE.Unloaded)
            + StateCount(faces, FSE.InsideCovered) + StateCount(faces, FSE.InsidePartiallyCovered) + StateCount(faces, FSE.InsideUncovered)
            + StateCount(faces, FSE.OutsideCovered) + StateCount(faces, FSE.OutsidePartiallyCovered) + StateCount(faces, FSE.OutsideUncovered)
            == |faces|
    decreases |faces|
  {
    if faces != [] {
      StateCountsSum(faces[..|faces| - 1]);
    }
  }

  /** The per-facing counts add up to the number of faces. */
  lemma {:induction false} FacingCountsSum(faces: seq<FaceEvaluation>)
    ensures FacingCount(faces, DOWN) + FacingCount(faces, UP) + FacingCount(faces, NORTH)
            + FacingCount(faces, SOUTH) + FacingCount(faces, WEST) + FacingCount(faces, EAST) == |faces|
    decreases |faces|
  {
    if faces != [] {
      FacingCountsSum(faces[..|faces| - 1]);
    }
  }

  /** A reason is counted exactly when some face has it. */
  lemma {:induction false} ReasonCountPositive(faces: seq<FaceEvaluation>, r: string)
    ensures ReasonCount(faces, r) > 0 <==> exists i :: 0 <= i < |faces| && faces[i].reason == r
    decreases |faces|
  {
    if faces != [] {
      var init := faces[..|faces| - 1];
      ReasonCountPositive(init, r);
      assert forall i :: 0 <= i < |init| ==> init[i] == faces[i];
    }
  }

  /** One more occurrence of a key; a key not yet counted starts from 0. */
  function Bump<K>(m: map<K, int>, k: K): map<K, int>
  {
    m[k := (if k in m then m[k] else 0) + 1]
  }

  /** Every state at 0. */
  const ZeroByState: map<StateName, int> :=
    map[FSE.Unloaded := 0, FSE.InsideCovered := 0, FSE.InsidePartiallyCovered := 0, FSE.InsideUncovered := 0,
           FSE.OutsideCovered := 0, FSE.OutsidePartiallyCovered := 0, FSE.OutsideUncovered := 0]

  /** Every facing at 0. */
  const ZeroByFacing: map<Facing, int> := map[DOWN := 0, UP := 0, NORTH := 0, SOUTH := 0, WEST := 0, EAST := 0]

  /** byState holds every state, with the number of faces in it. */
  ghost predicate StatesCounted(m: map<StateName, int>, faces: seq<FaceEvaluation>)
  {
    forall s :: s in m && m[s] == StateCount(faces, s)
  }

  /** byFacing holds every facing, with the number of faces that have it. */
  ghost predicate FacingsCounted(m: map<Facing, int>, faces: seq<FaceEvaluation>)
  {
    forall f :: f in m && m[f] == FacingCount(faces, f)
  }

  /** byReason holds exactly the reasons some face has, each with its number of faces. */
  ghost predicate ReasonsCounted(m: map<string, int>, faces: seq<FaceEvaluation>)
  {
    && (forall r :: r in m <==> ReasonCount(faces, r) > 0)
    && (forall r :: r in m ==> m[r] == ReasonCount(faces, r))
  }

  /** Before any face, the zero maps count every state and facing, and the empty map every reason. */
  lemma CountedInitially()
    ensures StatesCounted(ZeroByState, []) && FacingsCounted(ZeroByFacing, []) && ReasonsCounted(map[], [])
  {
    forall s: StateName ensures s in ZeroByState {
      match s
      case Unloaded =>
      case InsideCovered =>
      case InsidePartiallyCovered =>
      case InsideUncovered =>
      case OutsideCovered =>
      case OutsidePartiallyCovered =>
      case OutsideUncovered =>
    }
    forall f: Facing ensures f in ZeroByFacing {
      match f
      case DOWN =>
      case UP =>
      case NORTH =>
      case SOUTH =>
      case WEST =>
      case EAST =>
    }
  }

  /** One more face: adding one under its state, facing and reason keeps every map counting, and the totals move with it. */
  lemma CountedStep(bs: map<StateName, int>, bf: map<Facing, int>, br: map<string, int>, faces: seq<FaceEvaluation>, face: FaceEvaluation)
    requires StatesCounted(bs, faces) && FacingsCounted(bf, faces) && ReasonsCounted(br, faces)
    ensures StatesCounted(Bump(bs, face.state), faces + [face])
    ensures FacingsCounted(Bump(bf, face.facing), faces + [face])
    ensures ReasonsCounted(Bump(br, face.reason), faces + [face])
    ensures OutsideCount(faces + [face]) == OutsideCount(faces) + (if IsOutside(face.state) then 1 else 0)
    ensures InsideCount(faces + [face]) == InsideCount(faces) + (if IsOutside(face.state) then 0 else 1)
    ensures RenderableCount(faces + [face]) == RenderableCount(faces) + (if Renderable(face) then 1 else 0)
  {
    var next := faces + [face];
    assert next[..|next| - 1] == faces;
  }

  /** The face-state summary: totals, inside and outside faces, and counts by state, facing and reason. */
  class FaceStateSummary {
    var totalFaces: int
    var renderableFaces: int
    var insideFaces: int
    var outsideFaces: int
    var byState: map<StateName, int>
    var byFacing: map<Facing, int>
    var byReason: map<string, int>
    /** The faces recorded so far, in order. */
    ghost var recorded: seq<FaceEvaluation>

    /**
     * Every counter is the count of its faces among those recorded: byState holds
     * every state and byFacing every facing, byReason exactly the reasons seen.
     */
    ghost predicate Valid()
      reads this
    {
      && totalFaces == |recorded|
      && renderableFaces == RenderableCount(recorded)
      && insideFaces == InsideCount(recorded)
      && outsideFaces == OutsideCount(recorded)
      && StatesCounted(byState, recorded)
      && FacingsCounted(byFacing, recorded)
      && ReasonsCounted(byReason, recorded)
    }

    /** Every state and facing starts at 0, and no reason is known. */
    constructor()
      ensures Valid() && recorded == []
      ensures totalFaces == 0 && renderableFaces == 0 && insideFaces == 0 && outsideFaces == 0
      ensures byState == ZeroByState && byFacing == ZeroByFacing && byReason == map[]
    {
      totalFaces, renderableFaces, insideFaces, outsideFaces := 0, 0, 0, 0;
      byState := ZeroByState;
      byFacing := ZeroByFacing;
      byReason := map[];
      recorded := [];
      CountedInitially();
    }

    /**
     * record: one more face, counted under its state, facing and reason,
     * as inside or outside, and as renderable when it is.
     */
    method Record(face: FaceEvaluation)
      requires Valid()
      modifies this
      ensures Valid() && recorded == old(recorded) + [face]
      ensures totalFaces == old(totalFaces) + 1
      ensures outsideFaces == old(outsideFaces) + (if IsOutside(face.state) then 1 else 0)
      ensures insideFaces == old(insideFaces) + (if IsOutside(face.state) then 0 else 1)
      ensures renderableFaces == old(renderableFaces) + (if Renderable(face) then 1 else 0)
    {
      CountedStep(byState, byFacing, byReason, recorded, face);
      totalFaces := totalFaces + 1;
      byState := Bump(byState, face.state);
      byFacing := Bump(byFacing, face.facing);
      byReason := Bump(byReason, face.reason);
      if IsOutside(face.state) {
        outsideFaces := outsideFaces + 1;
      } else {
        insideFaces := insideFaces + 1;
      }
      if Renderable(face) {
        renderableFaces := renderableFaces + 1;
      }
      recorded := recorded + [face];
    }
  }

  // ---------------------------------------------------------------------------
  // TransformableDiagnosticsSummary
  // ---------------------------------------------------------------------------

  /** Where a face was found: the structure file, the tile, the box and the facing. */
  datatype FaceLocationSample = FaceLocationSample(path: string, tileIndex: int, boxIndex: int, facing: Facing)

  /** At most this many samples are kept per kind of mismatch. */
  const SAMPLE_LIMIT: nat := 16

  /** The three kinds of transformable cache mismatch the summary counts. */
  datatype MismatchKind = CacheMismatch | GenerateFaceMismatch | SetMismatch

  /** Whether a cache record shows a mismatch of a kind. */
  predicate HasMismatch(d: CacheDebug, kind: MismatchKind)
  {
    match kind
    case CacheMismatch => d.currentVsFreshMismatch
    case GenerateFaceMismatch => d.generateFaceNullMismatch
    case SetMismatch => d.setResultMismatch
  }

  /** One evaluated transformable face: where it is and its cache record. */
  datatype Evaluated = Evaluated(location: FaceLocationSample, cache: CacheDebug)

  /** The locations, in order, of the evaluated faces with a mismatch of a kind. */
  function Flagged(faces: seq<Evaluated>, kind: MismatchKind): (r: seq<FaceLocationSample>)
    ensures |r| <= |faces|
    decreases |faces|
  {
    if faces == [] then []
    else
      var last := faces[|faces| - 1];
      Flagged(faces[..|faces| - 1], kind) + (if HasMismatch(last.cache, kind) then [last.location] else [])
  }

  /** The first SAMPLE_LIMIT items, or all of them when there are fewer. */
  function Capped(items: seq<FaceLocationSample>): (r: seq<FaceLocationSample>)
    ensures |r| == if |items| < SAMPLE_LIMIT then |items| else SAMPLE_LIMIT
    ensures r == items[..|r|]
  {
    if |items| <= SAMPLE_LIMIT then items else items[..SAMPLE_LIMIT]
  }

  /** addSample: the sample appended unless the list is already full. */
  function AddSample(samples: seq<FaceLocationSample>, sample: FaceLocationSample): seq<FaceLocationSample>
  {
    if |samples| >= SAMPLE_LIMIT then samples else samples + [sample]
  }

  /** Adding each flagged location as it comes keeps exactly the first SAMPLE_LIMIT of them. */
  lemma AddSampleKeepsFirst(items: seq<FaceLocationSample>, sample: FaceLocationSample)
    ensures AddSample(Capped(items), sample) == Capped(items + [sample])
  {
    if |items| >= SAMPLE_LIMIT {
      assert (items + [sample])[..SAMPLE_LIMIT] == items[..SAMPLE_LIMIT];
    }
  }

  /**
   * One more evaluated face adds its location to the mismatches it shows,
   * and the samples of each kind follow by addSample.
   */
  lemma FlaggedStep(faces: seq<Evaluated>, e: Evaluated, kind: MismatchKind)
    ensures Flagged(faces + [e], kind) == Flagged(faces, kind) + (if HasMismatch(e.cache, kind) then [e.location] else [])
    ensures Capped(Flagged(faces + [e], kind))
            == if HasMismatch(e.cache, kind) then AddSample(Capped(Flagged(faces, kind)), e.location) else Capped(Flagged(faces, kind))
  {
    var next := faces + [e];
    assert next[..|next| - 1] == faces;
    if HasMismatch(e.cache, kind) {
      AddSampleKeepsFirst(Flagged(faces, kind), e.location);
    }
  }

  /**
   * What a counter and its sample list mean: the number of evaluated faces
   * that show a kind of mismatch, and the first SAMPLE_LIMIT of their
   * locations, in order.
   */
  ghost predicate KindCounted(count: int, samples: seq<FaceLocationSample>, faces: seq<Evaluated>, kind: MismatchKind)
  {
    count == |Flagged(faces, kind)| && samples == Capped(Flagged(faces, kind))
  }

  /** A sample list holds at most SAMPLE_LIMIT locations and never more than its counter. */
  lemma KindCountedBounds(count: int, samples: seq<FaceLocationSample>, faces: seq<Evaluated>, kind: MismatchKind)
    requires KindCounted(count, samples, faces, kind)
    ensures |samples| <= SAMPLE_LIMIT && |samples| <= count <= |faces|
  {
  }

  /** Counting and sampling a face that shows the mismatch, and leaving the rest alone, keeps the meaning. */
  lemma KindCountedStep(count: int, samples: seq<FaceLocationSample>, faces: seq<Evaluated>, e: Evaluated, kind: MismatchKind)
    requires KindCounted(count, samples, faces, kind)
    ensures HasMismatch(e.cache, kind) ==> KindCounted(count + 1, AddSample(samples, e.location), faces + [e], kind)
    ensures !HasMismatch(e.cache, kind) ==> KindCounted(count, samples, faces + [e], kind)
  {
    FlaggedStep(faces, e, kind);
  }

  /** The transformable diagnostics summary: evaluated faces, mismatch counters and the first samples of each. */
  class TransformableDiagnosticsSummary {
    var transformableFacesEvaluated: int
    var currentVsFreshCacheMismatchFaces: int
    var generateFaceCurrentVsFreshMismatchFaces: int
    var setCurrentVsFreshMismatchFaces: int
    var cacheMismatchSamples: seq<FaceLocationSample>
    var generateFaceMismatchSamples: seq<FaceLocationSample>
    var setMismatchSamples: seq<FaceLocationSample>
    /** The transformable faces recorded so far, in order. */
    ghost var recorded: seq<Evaluated>

    /** Each counter counts its mismatches, and each sample list holds the first of them. */
    ghost predicate Valid()
      reads this
    {
      && transformableFacesEvaluated == |recorded|
      && KindCounted(currentVsFreshCacheMismatchFaces, cacheMismatchSamples, recorded, CacheMismatch)
      && KindCounted(generateFaceCurrentVsFreshMismatchFaces, generateFaceMismatchSamples, recorded, GenerateFaceMismatch)
      && KindCounted(setCurrentVsFreshMismatchFaces, setMismatchSamples, recorded, SetMismatch)
    }

    /** Nothing counted and no samples. */
    constructor()
      ensures Valid() && recorded == []
      ensures transformableFacesEvaluated == 0 && cacheMismatchSamples == []
    {
      transformableFacesEvaluated := 0;
      currentVsFreshCacheMismatchFaces := 0;
      generateFaceCurrentVsFreshMismatchFaces := 0;
      setCurrentVsFreshMismatchFaces := 0;
      cacheMismatchSamples, generateFaceMismatchSamples, setMismatchSamples := [], [], [];
      recorded := [];
    }

    /**
     * record: a face without a transformable cache record is skipped;
     * otherwise it is counted, and each mismatch it shows is counted and
     * sampled while its list has room.
     */
    method Record(path: string, tileIndex: int, boxIndex: int, face: FaceEvaluation)
      requires Valid()
      modifies this
      ensures Valid()
      ensures face.cache.None? ==> recorded == old(recorded) && transformableFacesEvaluated == old(transformableFacesEvaluated)
      ensures face.cache.Some? ==>
                recorded == old(recorded) + [Evaluated(FaceLocationSample(path, tileIndex, boxIndex, face.facing), face.cache.value)]
    {
      if face.cache.None? {
        return;
      }
      var d := face.cache.value;
      var location := FaceLocationSample(path, tileIndex, boxIndex, face.facing);
      var e := Evaluated(location, d);
      KindCountedStep(currentVsFreshCacheMismatchFaces, cacheMismatchSamples, recorded, e, CacheMismatch);
      KindCountedStep(generateFaceCurrentVsFreshMismatchFaces, generateFaceMismatchSamples, recorded, e, GenerateFaceMismatch);
      KindCountedStep(setCurrentVsFreshMismatchFaces, setMismatchSamples, recorded, e, SetMismatch);
      transformableFacesEvaluated := transformableFacesEvaluated + 1;
      if d.currentVsFreshMismatch {
        currentVsFreshCacheMismatchFaces := currentVsFreshCacheMismatchFaces + 1;
        cacheMismatchSamples := AddSample(cacheMismatchSamples, location);
      }
      if d.generateFaceNullMismatch {
        generateFaceCurrentVsFreshMismatchFaces := generateFaceCurrentVsFreshMismatchFaces + 1;
        generateFaceMismatchSamples := AddSample(generateFaceMismatchSamples, location);
      }
      if d.setResultMismatch {
        setCurrentVsFreshMismatchFaces := setCurrentVsFreshMismatchFaces + 1;
        setMismatchSamples := AddSample(setMismatchSamples, location);
      }
      recorded := recorded + [e];
    }
  }

  // ---------------------------------------------------------------------------
  // toOutputFileName
  // ---------------------------------------------------------------------------

  /** The debug report's name for an input file: the name without its last extension, then ".json". */
  function DebugFileName(name: string): (r: string)
    ensures |r| >= 5 && r[|r| - 5..] == ".json"
  {
    LtTextureExport.OutputFileName(name, ".json")
  }

  /** The debug report and the texture report of one input share the same base name. */
  lemma ReportsShareBase(name: string)
    ensures var d := DebugFileName(name);
            var t := LtTextureExport.TexturesFileName(name);
            d[..|d| - 5] == t[..|t| - 14]
  {
  }
}
