/**
 * The parity tool's face-state summary (`parity/face-state-summary.mjs`):
 * the faces of a debug export tree counted per facing and per side, once
 * over all faces and once over the renderable ones, plus the two
 * sanitisers of the exporter's own summaries.
 */
module ParityFaceStates {
  import opened Wrappers
  import opened Json
  import opened Facings

  // ---------------------------------------------------------------------------
  // Renderability of one debug face
  // ---------------------------------------------------------------------------

  /** String(value ?? ''): the text of a field, '' when it is missing or null. */
  function FieldText(face: Json, key: string): string
  {
    var v := Get(face, key);
    if IsNullish(v) then "" else JsText(v.value).GetOr("")
  }

  /**
   * isDebugFaceRenderable: a face is renderable unless its state is
   * UNLOADED or it is fully covered, either by its coveredFully flag or by
   * a covered state (the outside one spelt 'OUTISDE_COVERED', as the
   * evaluator writes it).
   */
  predicate IsDebugFaceRenderable(face: Json)
  {
    var state := FieldText(face, "state");
    var coveredFully := IsBool(Get(face, "coveredFully"), true) || state == "INSIDE_COVERED" || state == "OUTISDE_COVERED";
    state != "UNLOADED" && !coveredFully
  }

  lemma IsDebugFaceRenderableSpec(face: Json)
    ensures FieldText(face, "state") == "UNLOADED" ==> !IsDebugFaceRenderable(face)
    ensures FieldText(face, "state") == "INSIDE_COVERED" ==> !IsDebugFaceRenderable(face)
    ensures FieldText(face, "state") == "OUTISDE_COVERED" ==> !IsDebugFaceRenderable(face)
    ensures Get(face, "coveredFully") == Some(JBool(true)) ==> !IsDebugFaceRenderable(face)
    ensures FieldText(face, "state") !in {"UNLOADED", "INSIDE_COVERED", "OUTISDE_COVERED"} && Get(face, "coveredFully") != Some(JBool(true))
            ==> IsDebugFaceRenderable(face)
  {
  }

  // ---------------------------------------------------------------------------
  // Counters
  // ---------------------------------------------------------------------------

  /** One counter per facing, as the byFacing objects hold. */
  datatype FacingCounts = FacingCounts(down: nat, up: nat, north: nat, south: nat, west: nat, east: nat)

  datatype Sides = Sides(inside: nat, outside: nat)

  /** The summary's counters. */
  datatype FaceStateSummary = FaceStateSummary(
    totalFaces: nat,
    totalRenderableFaces: nat,
    byFacingAll: FacingCounts,
    byFacingRenderable: FacingCounts,
    byOutsideAll: Sides,
    byOutsideRenderable: Sides)

  function CountFor(c: FacingCounts, f: Facing): nat
  {
    match f
    case DOWN => c.down
    case UP => c.up
    case NORTH => c.north
    case SOUTH => c.south
    case WEST => c.west
    case EAST => c.east
  }

  function FacingTotal(c: FacingCounts): nat
  {
    c.down + c.up + c.north + c.south + c.west + c.east
  }

  /** Every facing counter of `a` is at most that of `b`. */
  predicate Within(a: FacingCounts, b: FacingCounts)
  {
    a.down <= b.down && a.up <= b.up && a.north <= b.north && a.south <= b.south && a.west <= b.west && a.east <= b.east
  }

  const NoFacings := FacingCounts(0, 0, 0, 0, 0, 0)
  const NoFaces := FaceStateSummary(0, 0, NoFacings, NoFacings, Sides(0, 0), Sides(0, 0))

  /** The counters of one face: the facing counter only when the facing text names a facing. */
  function FacingOne(facing: Option<Facing>): (c: FacingCounts)
    ensures FacingTotal(c) == (if facing.Some? then 1 else 0)
  {
    match facing
    case None => NoFacings
    case Some(DOWN) => NoFacings.(down := 1)
    case Some(UP) => NoFacings.(up := 1)
    case Some(NORTH) => NoFacings.(north := 1)
    case Some(SOUTH) => NoFacings.(south := 1)
    case Some(WEST) => NoFacings.(west := 1)
    case Some(EAST) => NoFacings.(east := 1)
  }

  function AddFacings(a: FacingCounts, b: FacingCounts): FacingCounts
  {
    FacingCounts(a.down + b.down, a.up + b.up, a.north + b.north, a.south + b.south, a.west + b.west, a.east + b.east)
  }

  function AddSides(a: Sides, b: Sides): Sides
  {
    Sides(a.inside + b.inside, a.outside + b.outside)
  }

  function Add(a: FaceStateSummary, b: FaceStateSummary): FaceStateSummary
  {
    FaceStateSummary(
      a.totalFaces + b.totalFaces,
      a.totalRenderableFaces + b.totalRenderableFaces,
      AddFacings(a.byFacingAll, b.byFacingAll),
      AddFacings(a.byFacingRenderable, b.byFacingRenderable),
      AddSides(a.byOutsideAll, b.byOutsideAll),
      AddSides(a.byOutsideRenderable, b.byOutsideRenderable))
  }

  /** What the summary reads from one face: its facing, whether it is outside, and whether it is renderable. */
  datatype FaceReading = FaceReading(facing: Option<Facing>, outside: bool, renderable: bool)

  function ReadFace(face: Json): FaceReading
  {
    FaceReading(Named(FieldText(face, "facing")), IsBool(Get(face, "outside"), true), IsDebugFaceRenderable(face))
  }

  /** What one face adds to the counters. */
  function FaceCounts(d: FaceReading): FaceStateSummary
  {
    var side := if d.outside then Sides(0, 1) else Sides(1, 0);
    if d.renderable then FaceStateSummary(1, 1, FacingOne(d.facing), FacingOne(d.facing), side, side)
    else FaceStateSummary(1, 0, FacingOne(d.facing), NoFacings, side, Sides(0, 0))
  }

  /**
   * The consistency of a summary: each side split sums to its total, no
   * facing has more renderable faces than faces, and the facing counters
   * never exceed the totals.
   */
  ghost predicate Consistent(s: FaceStateSummary)
  {
    SidesConsistent(s) && FacingsConsistent(s)
  }

  /** The side splits of a summary sum to their totals. */
  ghost predicate SidesConsistent(s: FaceStateSummary)
  {
    && s.totalRenderableFaces <= s.totalFaces
    && s.byOutsideAll.inside + s.byOutsideAll.outside == s.totalFaces
    && s.byOutsideRenderable.inside + s.byOutsideRenderable.outside == s.totalRenderableFaces
    && s.byOutsideRenderable.inside <= s.byOutsideAll.inside
    && s.byOutsideRenderable.outside <= s.byOutsideAll.outside
  }

  /** The facing counters of a summary stay within the totals, the renderable ones within all. */
  ghost predicate FacingsConsistent(s: FaceStateSummary)
  {
    && FacingTotal(s.byFacingAll) <= s.totalFaces
    && FacingTotal(s.byFacingRenderable) <= s.totalRenderableFaces
    && Within(s.byFacingRenderable, s.byFacingAll)
  }

  lemma FaceCountsConsistent(d: FaceReading)
    ensures Consistent(FaceCounts(d))
    ensures FaceCounts(d).totalFaces == 1
    ensures FaceCounts(d).totalRenderableFaces == (if d.renderable then 1 else 0)
  {
  }

  lemma AddConsistent(a: FaceStateSummary, b: FaceStateSummary)
    requires Consistent(a) && Consistent(b)
    ensures Consistent(Add(a, b))
  {
  }

  // ---------------------------------------------------------------------------
  // The tree walk as a recursive specification
  // ---------------------------------------------------------------------------

  /** The walk throws a TypeError on a value it cannot iterate and on a null tile or box. */
  datatype WalkError = TypeError

  /** The faces a part of the tree holds, in the order the walk visits them, or the error it throws. */
  type Faces = Result<seq<Json>, WalkError>

  /** How the summary reads one face; the summary proper uses `ReadFace`. */
  type Reader = Json -> FaceReading

  /** The faces of one part followed by those of the next; a thrown error wins. */
  function Join(a: Faces, b: Faces): (r: Faces)
    ensures r.Ok? <==> a.Ok? && b.Ok?
  {
    if a.Err? || b.Err? then Err(TypeError) else Ok(a.value + b.value)
  }

  /** A box holds its faceStates when that is an array; reading a field of null throws. */
  function BoxFaces(box: Json): Faces
  {
    var faces := Get(box, "faceStates");
    if box == JNull then Err(TypeError)
    else if faces.Some? && faces.value.JArr? then Ok(faces.value.items)
    else Ok([])
  }

  function BoxesFaces(boxes: seq<Json>): Faces
    decreases |boxes|
  {
    if boxes == [] then Ok([]) else Join(BoxesFaces(boxes[..|boxes| - 1]), BoxFaces(boxes[|boxes| - 1]))
  }

  /** A tile holds the faces of its boxes (`tile.boxes ?? []`); a value without boxes holds none. */
  function TileFaces(tile: Json): Faces
  {
    if tile == JNull then Err(TypeError)
    else
      var boxes := Iterated(Get(tile, "boxes"));
      if boxes.Err? then Err(TypeError) else BoxesFaces(boxes.value)
  }

  function TilesFaces(tiles: seq<Json>): Faces
    decreases |tiles|
  {
    if tiles == [] then Ok([]) else Join(TilesFaces(tiles[..|tiles| - 1]), TileFaces(tiles[|tiles| - 1]))
  }

  /**
   * The faces a group holds by itself: none unless it is an object (null,
   * falsy and non-object values are skipped, and an array has no tiles),
   * the faces of its tiles otherwise.
   */
  function OwnFaces(group: Json): Faces
  {
    if !group.JObj? then Ok([])
    else
      var tiles := Iterated(Get(group, "tiles"));
      if tiles.Err? then Err(TypeError) else TilesFaces(tiles.value)
  }

  /** The children a group pushes: none unless it is an object with iterable children. */
  function ChildrenOf(group: Json): Result<seq<Json>, IterError>
  {
    if group.JObj? then Iterated(Get(group, "children")) else Ok([])
  }

  lemma ChildrenSmaller(group: Json, i: nat)
    requires ChildrenOf(group).Ok? && i < |ChildrenOf(group).value|
    ensures ChildrenOf(group).value[i] < group
  {
  }

  /** The faces of a group and all its descendants: its own, then its children's, last child first. */
  function GroupFaces(group: Json): Faces
    decreases group
  {
    var own := OwnFaces(group);
    var children := ChildrenOf(group);
    if own.Err? || children.Err? then Err(TypeError)
    else
      forall i | 0 <= i < |children.value| ensures children.value[i] < group {
        ChildrenSmaller(group, i);
      }
      Join(own, ChildrenFaces(children.value, group))
  }

  /** The faces of sibling groups, last first, as the stack pops them. */
  function ChildrenFaces(children: seq<Json>, ghost parent: Json): Faces
    requires forall i :: 0 <= i < |children| ==> children[i] < parent
    decreases parent, |children|
  {
    if children == [] then Ok([])
    else Join(GroupFaces(children[|children| - 1]), ChildrenFaces(children[..|children| - 1], parent))
  }

  /** The counters of a sequence of faces, face by face. */
  function FacesCounts(read: Reader, faces: seq<Json>): FaceStateSummary
    decreases |faces|
  {
    if faces == [] then NoFaces else Add(FacesCounts(read, faces[..|faces| - 1]), FaceCounts(read(faces[|faces| - 1])))
  }

  /** The summary of the faces a walk visits: null when there are none, their counters otherwise. */
  function SummaryFrom(read: Reader, faces: Faces): Result<Option<FaceStateSummary>, WalkError>
  {
    if faces.Err? then Err(TypeError)
    else if faces.value == [] then Ok(None)
    else Ok(Some(FacesCounts(read, faces.value)))
  }

  /** The summary of a whole tree. */
  function SummaryOf(read: Reader, root: Json): Result<Option<FaceStateSummary>, WalkError>
  {
    SummaryFrom(read, GroupFaces(root))
  }

  // ---------------------------------------------------------------------------
  // Properties of the summary
  // ---------------------------------------------------------------------------

  lemma JoinAssociative(a: Faces, b: Faces, c: Faces)
    ensures Join(Join(a, b), c) == Join(a, Join(b, c))
  {
    if a.Ok? && b.Ok? && c.Ok? {
      assert (a.value + b.value) + c.value == a.value + (b.value + c.value);
    }
  }

  lemma JoinEmpty(a: Faces)
    ensures Join(a, Ok([])) == a && Join(Ok([]), a) == a
  {
    if a.Ok? {
      assert a.value + [] == a.value && [] + a.value == a.value;
    } else {
      assert a.error == TypeError;
    }
  }

  lemma FacesCountsSnoc(read: Reader, faces: seq<Json>, face: Json)
    ensures FacesCounts(read, faces + [face]) == Add(FacesCounts(read, faces), FaceCounts(read(face)))
  {
    assert (faces + [face])[..|faces|] == faces;
  }

  /**
   * The counters of any sequence of faces are consistent (renderable faces
   * never outnumber faces, the side splits sum to their totals, the facing
   * counters stay within them) and count every face once.
   */
  lemma {:induction false} FacesCountsConsistent(read: Reader, faces: seq<Json>)
    ensures Consistent(FacesCounts(read, faces))
    ensures FacesCounts(read, faces).totalFaces == |faces|
    decreases |faces|
  {
    if faces != [] {
      FacesCountsConsistent(read, faces[..|faces| - 1]);
      FaceCountsConsistent(read(faces[|faces| - 1]));
      AddConsistent(FacesCounts(read, faces[..|faces| - 1]), FaceCounts(read(faces[|faces| - 1])));
    }
  }

  /** The summary is null exactly when the walk saw no face, and a summary it returns is consistent and counts every face. */
  lemma SummaryFromSpec(read: Reader, faces: Faces)
    ensures SummaryFrom(read, faces).Ok? <==> faces.Ok?
    ensures faces.Ok? ==> (SummaryFrom(read, faces).value.None? <==> faces.value == [])
    ensures faces.Ok? && faces.value != [] ==>
              && Consistent(SummaryFrom(read, faces).value.value)
              && SummaryFrom(read, faces).value.value.totalFaces == |faces.value|
  {
    if faces.Ok? {
      FacesCountsConsistent(read, faces.value);
    }
  }

  // ---------------------------------------------------------------------------
  // The walk with an explicit stack
  // ---------------------------------------------------------------------------

  /** The number of groups a value still stands for: itself and, through its children, its descendants. */
  function Weight(group: Json): nat
    decreases group
  {
    var children := ChildrenOf(group);
    if children.Err? then 1
    else
      forall i | 0 <= i < |children.value| ensures children.value[i] < group {
        ChildrenSmaller(group, i);
      }
      1 + ChildrenWeight(children.value, group)
  }

  function ChildrenWeight(children: seq<Json>, ghost parent: Json): nat
    requires forall i :: 0 <= i < |children| ==> children[i] < parent
    decreases parent, |children|
  {
    if children == [] then 0 else ChildrenWeight(children[..|children| - 1], parent) + Weight(children[|children| - 1])
  }

  /** The groups still to be popped, counting descendants. */
  function StackWeight(stack: seq<Json>): nat
    decreases |stack|
  {
    if stack == [] then 0 else StackWeight(stack[..|stack| - 1]) + Weight(stack[|stack| - 1])
  }

  /** The faces the groups on the stack still hold, in the order they will be popped. */
  function StackFaces(stack: seq<Json>): Faces
    decreases |stack|
  {
    if stack == [] then Ok([]) else Join(GroupFaces(stack[|stack| - 1]), StackFaces(stack[..|stack| - 1]))
  }

  /** Pushing `b` on top of `a`: the groups of `b` are popped first. */
  lemma {:induction false} StackFacesAppend(a: seq<Json>, b: seq<Json>)
    ensures StackFaces(a + b) == Join(StackFaces(b), StackFaces(a))
    ensures StackWeight(a + b) == StackWeight(a) + StackWeight(b)
    decreases |b|
  {
    if b == [] {
      assert a + b == a;
      JoinEmpty(StackFaces(a));
    } else {
      var b' := b[..|b| - 1];
      assert (a + b)[..|a + b| - 1] == a + b';
      StackFacesAppend(a, b');
      JoinAssociative(GroupFaces(b[|b| - 1]), StackFaces(b'), StackFaces(a));
    }
  }

  /** The children, walked as siblings, are the children on the stack. */
  lemma {:induction false} ChildrenAsStack(children: seq<Json>, parent: Json)
    requires forall i :: 0 <= i < |children| ==> children[i] < parent
    ensures ChildrenFaces(children, parent) == StackFaces(children)
    ensures ChildrenWeight(children, parent) == StackWeight(children)
    decreases |children|
  {
    if children != [] {
      ChildrenAsStack(children[..|children| - 1], parent);
    }
  }

  /** Popping a group: its own faces, then those of the children it pushes. */
  lemma PopGroup(group: Json)
    requires OwnFaces(group).Ok? && ChildrenOf(group).Ok?
    ensures GroupFaces(group) == Join(OwnFaces(group), StackFaces(ChildrenOf(group).value))
    ensures Weight(group) == 1 + StackWeight(ChildrenOf(group).value)
  {
    var children := ChildrenOf(group).value;
    forall i | 0 <= i < |children| ensures children[i] < group {
      ChildrenSmaller(group, i);
    }
    ChildrenAsStack(children, group);
  }

  /** Once a box throws, its whole list throws. */
  lemma {:induction false} BoxesFacesErr(boxes: seq<Json>, i: nat)
    requires i < |boxes| && BoxFaces(boxes[i]).Err?
    ensures BoxesFaces(boxes).Err?
    decreases |boxes|
  {
    if i < |boxes| - 1 {
      BoxesFacesErr(boxes[..|boxes| - 1], i);
    }
  }

  /** Once a tile throws, its whole list throws. */
  lemma {:induction false} TilesFacesErr(tiles: seq<Json>, i: nat)
    requires i < |tiles| && TileFaces(tiles[i]).Err?
    ensures TilesFaces(tiles).Err?
    decreases |tiles|
  {
    if i < |tiles| - 1 {
      TilesFacesErr(tiles[..|tiles| - 1], i);
    }
  }

  /**
   * The walk below is stated for any per-face step: `Fold(step, init, faces)`
   * is what the step makes of the faces in order.
   */
  function Fold<C>(step: (C, Json) -> C, init: C, faces: seq<Json>): C
    decreases |faces|
  {
    if faces == [] then init else step(Fold(step, init, faces[..|faces| - 1]), faces[|faces| - 1])
  }

  lemma FoldSnoc<C>(step: (C, Json) -> C, init: C, faces: seq<Json>, face: Json)
    ensures Fold(step, init, faces + [face]) == step(Fold(step, init, faces), face)
  {
    assert (faces + [face])[..|faces|] == faces;
  }

  /** The state the source's loop keeps: the counters and its seenAny flag. */
  datatype Tallied = Tallied(counts: FaceStateSummary, seenAny: bool)

  /** What the summary does with one face: mark a face as seen and add its counters. */
  function Tally(t: Tallied, face: Json): Tallied
  {
    Tallied(Add(t.counts, FaceCounts(ReadFace(face))), true)
  }

  /** Tallying the faces one by one from nothing gives their counters, and seenAny tells whether there were any. */
  lemma {:induction false} FoldTally(faces: seq<Json>)
    ensures Fold(Tally, Tallied(NoFaces, false), faces) == Tallied(FacesCounts(ReadFace, faces), faces != [])
    decreases |faces|
  {
    if faces != [] {
      FoldTally(faces[..|faces| - 1]);
    }
  }

  /** The innermost loop: every face of a faceStates array is tallied. */
  method CountFaces<C>(step: (C, Json) -> C, faces: seq<Json>, acc: C, ghost init: C, ghost seen: seq<Json>) returns (r: C)
    requires acc == Fold(step, init, seen)
    ensures r == Fold(step, init, seen + faces)
  {
    r := acc;
    assert seen + faces[..0] == seen;
    for i := 0 to |faces|
      invariant r == Fold(step, init, seen + faces[..i])
    {
      var face := faces[i];
      FoldSnoc(step, init, seen + faces[..i], face);
      assert seen + faces[..i + 1] == (seen + faces[..i]) + [face];
      r := step(r, face);
    }
    assert faces[..|faces|] == faces;
  }

  /** The box loop: a null box throws, a box without a faceStates array is skipped. */
  method CountBoxes<C>(step: (C, Json) -> C, boxes: seq<Json>, acc: C, ghost init: C, ghost seen: seq<Json>) returns (r: Result<C, WalkError>)
    requires acc == Fold(step, init, seen)
    ensures r.Ok? <==> BoxesFaces(boxes).Ok?
    ensures r.Ok? ==> r.value == Fold(step, init, seen + BoxesFaces(boxes).value)
  {
    var sum := acc;
    assert boxes[..0] == [] && seen + [] == seen;
    for i := 0 to |boxes|
      invariant BoxesFaces(boxes[..i]).Ok?
      invariant sum == Fold(step, init, seen + BoxesFaces(boxes[..i]).value)
    {
      var box := boxes[i];
      if box == JNull {
        BoxesFacesErr(boxes, i);
        return Err(TypeError);
      }
      ghost var before := BoxesFaces(boxes[..i]).value;
      assert boxes[..i + 1][..i] == boxes[..i];
      var faceStates := Get(box, "faceStates");
      if faceStates.Some? && faceStates.value.JArr? {
        var faces := faceStates.value.items;
        assert BoxesFaces(boxes[..i + 1]) == Ok(before + faces);
        sum := CountFaces(step, faces, sum, init, seen + before);
        assert seen + before + faces == seen + (before + faces);
      } else {
        assert BoxesFaces(boxes[..i + 1]) == Ok(before + []);
        assert before + [] == before;
      }
    }
    assert boxes[..|boxes|] == boxes;
    r := Ok(sum);
  }

  /** One tile: a null tile throws, and so do boxes that cannot be iterated. */
  method CountTile<C>(step: (C, Json) -> C, tile: Json, acc: C, ghost init: C, ghost seen: seq<Json>) returns (r: Result<C, WalkError>)
    requires acc == Fold(step, init, seen)
    ensures r.Ok? <==> TileFaces(tile).Ok?
    ensures r.Ok? ==> r.value == Fold(step, init, seen + TileFaces(tile).value)
  {
    if tile == JNull {
      return Err(TypeError);
    }
    var boxes := Iterated(Get(tile, "boxes"));
    if boxes.Err? {
      return Err(TypeError);
    }
    r := CountBoxes(step, boxes.value, acc, init, seen);
  }

  /** The tile loop. */
  method CountTiles<C>(step: (C, Json) -> C, tiles: seq<Json>, acc: C, ghost init: C, ghost seen: seq<Json>) returns (r: Result<C, WalkError>)
    requires acc == Fold(step, init, seen)
    ensures r.Ok? <==> TilesFaces(tiles).Ok?
    ensures r.Ok? ==> r.value == Fold(step, init, seen + TilesFaces(tiles).value)
  {
    var sum := acc;
    assert tiles[..0] == [] && seen + [] == seen;
    for i := 0 to |tiles|
      invariant TilesFaces(tiles[..i]).Ok?
      invariant sum == Fold(step, init, seen + TilesFaces(tiles[..i]).value)
    {
      ghost var before := TilesFaces(tiles[..i]).value;
      var next := CountTile(step, tiles[i], sum, init, seen + before);
      if next.Err? {
        TilesFacesErr(tiles, i);
        return Err(TypeError);
      }
      assert tiles[..i + 1][..i] == tiles[..i];
      assert seen + before + TileFaces(tiles[i]).value == seen + (before + TileFaces(tiles[i]).value);
      sum := next.value;
    }
    assert tiles[..|tiles|] == tiles;
    r := Ok(sum);
  }

  /**
   * The stack walk for any step: pops a group, skips it unless it is an
   * object, tallies the faces of its tiles' boxes and pushes its children.
   * It yields what the step makes of every face of the tree.
   */
  method WalkGroups<C>(step: (C, Json) -> C, init: C, root: Json) returns (r: Result<C, WalkError>)
    ensures r.Ok? <==> GroupFaces(root).Ok?
    ensures r.Ok? ==> r.value == Fold(step, init, GroupFaces(root).value)
  {
    var acc := init;
    ghost var seen: seq<Json> := [];
    var stack := [root];
    assert stack[..0] == [];
    JoinEmpty(GroupFaces(root));
    while |stack| > 0
      invariant acc == Fold(step, init, seen)
      invariant Join(Ok(seen), StackFaces(stack)) == GroupFaces(root)
      decreases StackWeight(stack)
    {
      var group := stack[|stack| - 1];
      var rest := stack[..|stack| - 1];
      stack := rest;
      if !group.JObj? {
        PopGroup(group);
        JoinEmpty(Ok([]));
        assert GroupFaces(group) == Ok([]);
        JoinAssociative(Ok(seen), GroupFaces(group), StackFaces(rest));
        JoinEmpty(Ok(seen));
        assert Join(Ok(seen), StackFaces(rest)) == GroupFaces(root);
        continue;
      }
      var tiles := Iterated(Get(group, "tiles"));
      if tiles.Err? {
        return Err(TypeError);
      }
      var next := CountTiles(step, tiles.value, acc, init, seen);
      if next.Err? {
        return Err(TypeError);
      }
      var children := Iterated(Get(group, "children"));
      if children.Err? {
        return Err(TypeError);
      }
      ghost var own, pushed, below := OwnFaces(group), StackFaces(children.value), StackFaces(rest);
      PopGroup(group);
      JoinAssociative(Ok(seen), GroupFaces(group), below);
      StackFacesAppend(rest, children.value);
      JoinAssociative(own, pushed, below);
      JoinAssociative(Ok(seen), own, Join(pushed, below));
      assert Join(Ok(seen), own) == Ok(seen + own.value);
      assert Join(Ok(seen + own.value), StackFaces(rest + children.value)) == GroupFaces(root);
      acc := next.value;
      seen := seen + OwnFaces(group).value;
      stack := rest + children.value;
    }
    JoinEmpty(Ok(seen));
    r := Ok(acc);
  }

  /**
   * summarizeDebugFaceStates: the counters of every face of the tree, null
   * when the walk saw no face.
   */
  method SummarizeDebugFaceStates(root: Json) returns (r: Result<Option<FaceStateSummary>, WalkError>)
    ensures r == SummaryOf(ReadFace, root)
    ensures r.Ok? && r.value.Some? ==> r.value.value.totalFaces > 0 && Consistent(r.value.value)
  {
    var walked := WalkGroups(Tally, Tallied(NoFaces, false), root);
    SummaryFromSpec(ReadFace, GroupFaces(root));
    if walked.Err? {
      return Err(TypeError);
    }
    FoldTally(GroupFaces(root).value);
    if !walked.value.seenAny {
      return Ok(None);
    }
    return Ok(Some(walked.value.counts));
  }

  // ---------------------------------------------------------------------------
  // Sanitisers
  // ---------------------------------------------------------------------------

  /** A field kept when it is an integer and null otherwise. */
  function IntegerField(summary: Json, key: string): (r: Option<int>)
    ensures r.Some? <==> IsInteger(Get(summary, key))
    ensures r.Some? ==> r.value as real == Get(summary, key).value.n
  {
    if IsInteger(Get(summary, key)) then Some(AsInt(Get(summary, key))) else None
  }

  datatype SanitizedFaceStateSummary = SanitizedFaceStateSummary(
    totalFaces: Option<int>, renderableFaces: Option<int>, insideFaces: Option<int>, outsideFaces: Option<int>)

  datatype SanitizedTransformableSummary = SanitizedTransformableSummary(
    transformableFacesEvaluated: Option<int>,
    currentVsFreshCacheMismatchFaces: Option<int>,
    generateFaceCurrentVsFreshMismatchFaces: Option<int>,
    setCurrentVsFreshMismatchFaces: Option<int>)

  /** sanitizeDebugFaceStateSummary: null for anything but an object; each count kept only when an integer. */
  function SanitizeDebugFaceStateSummary(summary: Option<Json>): (r: Option<SanitizedFaceStateSummary>)
    ensures r.Some? <==> IsObjectLike(summary)
    ensures r.Some? ==> && (r.value.totalFaces.Some? <==> IsInteger(Get(summary.value, "totalFaces")))
                        && (r.value.renderableFaces.Some? <==> IsInteger(Get(summary.value, "renderableFaces")))
                        && (r.value.insideFaces.Some? <==> IsInteger(Get(summary.value, "insideFaces")))
                        && (r.value.outsideFaces.Some? <==> IsInteger(Get(summary.value, "outsideFaces")))
  {
    if !IsObjectLike(summary) then None
    else
      var s := summary.value;
      Some(SanitizedFaceStateSummary(
        IntegerField(s, "totalFaces"), IntegerField(s, "renderableFaces"),
        IntegerField(s, "insideFaces"), IntegerField(s, "outsideFaces")))
  }

  /** sanitizeTransformableDiagnosticsSummary: the same for the four transformable diagnostics counters. */
  function SanitizeTransformableDiagnosticsSummary(summary: Option<Json>): (r: Option<SanitizedTransformableSummary>)
    ensures r.Some? <==> IsObjectLike(summary)
    ensures r.Some? ==> && (r.value.transformableFacesEvaluated.Some? <==> IsInteger(Get(summary.value, "transformableFacesEvaluated")))
                        && (r.value.currentVsFreshCacheMismatchFaces.Some? <==> IsInteger(Get(summary.value, "currentVsFreshCacheMismatchFaces")))
                        && (r.value.generateFaceCurrentVsFreshMismatchFaces.Some? <==> IsInteger(Get(summary.value, "generateFaceCurrentVsFreshMismatchFaces")))
                        && (r.value.setCurrentVsFreshMismatchFaces.Some? <==> IsInteger(Get(summary.value, "setCurrentVsFreshMismatchFaces")))
  {
    if !IsObjectLike(summary) then None
    else
      var s := summary.value;
      Some(SanitizedTransformableSummary(
        IntegerField(s, "transformableFacesEvaluated"), IntegerField(s, "currentVsFreshCacheMismatchFaces"),
        IntegerField(s, "generateFaceCurrentVsFreshMismatchFaces"), IntegerField(s, "setCurrentVsFreshMismatchFaces")))
  }
}
