/**
 * The LittleTiles import decoder: an already-parsed SNBT compound becomes a
 * group tree of tiles and boxes, in the current format (`t`, `c`, `e`) or
 * the legacy one (`tiles`, `children`), and is flattened into tile and box
 * lists.
 */
module LtImportParser {
  import opened Wrappers
  import opened Json
  import Strings

  /**
   * A parsed SNBT value. A compound keeps its entries in their own order,
   * which is the order `Object.entries` walks.
   */
  datatype Nbt =
    | NNull
    | NBool(b: bool)
    | NNum(n: real)
    | NStr(s: string)
    | NList(items: seq<Nbt>)
    | NCompound(entries: seq<Entry>)

  /** One key and value of a compound. */
  datatype Entry = Entry(key: string, value: Nbt)

  const DEFAULT_GRID: int := 16

  /** Why decoding stops. NullAccess is the TypeError of reading a field of null; the others are ParseErrors. */
  datatype ErrorKind =
    | TopLevelNotObject
    | NullAccess
    | EntriesNotList
    | LegacyTilesNotList
    | NotIntArray
    | NotInteger
    | BlockRequired
    | BadBoxLength
    | UnsupportedBoxLength
    | BadBounds

  datatype Bounds = Bounds(minX: int, minY: int, minZ: int, maxX: int, maxY: int, maxZ: int)

  datatype ParsedBox =
    | AabbBox(bounds: Bounds)
    | TransformableBox(bounds: Bounds, transformData: seq<int>)

  datatype ParsedTile = ParsedTile(blockState: string, color: int, grid: int, structureId: Option<string>, boxes: seq<ParsedBox>)

  datatype Group = Group(grid: int, structureId: Option<string>, tiles: seq<ParsedTile>, children: seq<Group>)

  /** A box of the flat list, with its tile's fields copied in. */
  datatype FlatBox = FlatBox(box: ParsedBox, blockState: string, color: int, grid: int, structureId: Option<string>)

  datatype Schema = Legacy | Current

  datatype Parsed = Parsed(schema: Schema, root: Group, tiles: seq<ParsedTile>, boxes: seq<FlatBox>)

  // ---------------------------------------------------------------------
  // Values

  /** The number of nodes of a value, the measure the group recursion decreases. */
  function Size(v: Nbt): nat
  {
    match v
    case NList(items) => 1 + ItemsSize(items)
    case NCompound(entries) => 1 + EntriesSize(entries)
    case _ => 1
  }

  function ItemsSize(items: seq<Nbt>): nat
  {
    if items == [] then 0 else ItemsSize(items[..|items| - 1]) + Size(items[|items| - 1])
  }

  function EntriesSize(entries: seq<Entry>): nat
  {
    if entries == [] then 0 else EntriesSize(entries[..|entries| - 1]) + Size(entries[|entries| - 1].value)
  }

  /** Every item is no larger than all the items together. */
  lemma {:induction false} ItemSmaller(items: seq<Nbt>, i: nat)
    requires i < |items|
    ensures Size(items[i]) <= ItemsSize(items)
    decreases |items|
  {
    if i < |items| - 1 {
      ItemSmaller(items[..|items| - 1], i);
    }
  }

  /** Every entry value is no larger than all the entries together. */
  lemma {:induction false} EntrySmaller(entries: seq<Entry>, i: nat)
    requires i < |entries|
    ensures Size(entries[i].value) <= EntriesSize(entries)
    decreases |entries|
  {
    if i < |entries| - 1 {
      EntrySmaller(entries[..|entries| - 1], i);
    }
  }

  /** The value of the first entry with the key. */
  function Lookup(entries: seq<Entry>, key: string): (r: Option<Nbt>)
    ensures r.Some? ==> exists i :: 0 <= i < |entries| && entries[i] == Entry(key, r.value)
    ensures r.None? ==> forall i :: 0 <= i < |entries| ==> entries[i].key != key
    decreases |entries|
  {
    if entries == [] then None
    else if entries[0].key == key then Some(entries[0].value)
    else
      var r := Lookup(entries[1..], key);
      assert forall i :: 1 <= i < |entries| ==> entries[i] == entries[1..][i - 1];
      r
  }

  /** value.key on a value that is not null: nothing unless it is a compound holding the key. */
  function Field(v: Nbt, key: string): Option<Nbt>
  {
    if v.NCompound? then Lookup(v.entries, key) else None
  }

  /** A field is smaller than the value holding it. */
  lemma FieldSmaller(v: Nbt, key: string)
    requires Field(v, key).Some?
    ensures Size(Field(v, key).value) < Size(v)
  {
    var i :| 0 <= i < |v.entries| && v.entries[i] == Entry(key, Field(v, key).value);
    EntrySmaller(v.entries, i);
  }

  /** isObject: a compound. */
  predicate IsObject(v: Option<Nbt>)
  {
    v.Some? && v.value.NCompound?
  }

  predicate IsList(v: Option<Nbt>)
  {
    v.Some? && v.value.NList?
  }

  /** value == null. */
  predicate IsNullish(v: Option<Nbt>)
  {
    v.None? || v.value.NNull?
  }

  /** A value as far as Number() and String() look at it: a compound's entries are never read. */
  function Leaf(v: Nbt): Json
  {
    match v
    case NNull => JNull
    case NBool(b) => JBool(b)
    case NNum(n) => JNum(n)
    case NStr(s) => JStr(s)
    case NList(items) => JArr(seq(|items|, i requires 0 <= i < |items| => Leaf(items[i])))
    case NCompound(_) => JObj(map[])
  }

  /** Number(value), with NaN as None. */
  function NumberOf(v: Option<Nbt>): Option<real>
  {
    if v.None? then None else ToNumber(Some(Leaf(v.value)))
  }

  // ---------------------------------------------------------------------
  // Grids, structure ids and legacy names

  /** resolveGrid (and toPositiveInt, the same rule): a positive-integer number, else the fallback. */
  function ResolveGrid(n: Option<real>, fallback: int): (grid: int)
    ensures IsPositiveIntNumber(n) ==> grid as real == n.value
    ensures !IsPositiveIntNumber(n) ==> grid == fallback
    ensures fallback > 0 ==> grid > 0
  {
    if IsPositiveIntNumber(n) then PositiveIntOf(n) else fallback
  }

  /**
   * parseStructureId: the trimmed text of structure.id, or nothing for a
   * structure that is not a compound, a missing or null id, or a blank text.
   */
  function StructureId(structure: Option<Nbt>): (id: Option<string>)
    ensures id.Some? <==>
      && IsObject(structure) && !IsNullish(Field(structure.value, "id"))
      && JsText(Leaf(Field(structure.value, "id").value)).Some?
      && Strings.Trim(Strings.JsTrim, JsText(Leaf(Field(structure.value, "id").value)).value) != []
    ensures id.Some? ==> id.value == Strings.Trim(Strings.JsTrim, JsText(Leaf(Field(structure.value, "id").value)).value)
    ensures id.Some? ==> id.value != [] && Strings.Trim(Strings.JsTrim, id.value) == id.value
  {
    if !IsObject(structure) then None
    else
      var raw := Field(structure.value, "id");
      if IsNullish(raw) then None
      else
        var text := JsText(Leaf(raw.value));
        if text.None? then None
        else
          var trimmed := Strings.Trim(Strings.JsTrim, text.value);
          Strings.TrimIdempotent(Strings.JsTrim, text.value);
          if |trimmed| == 0 then None else Some(trimmed)
  }

  /** Number.isInteger on a field. */
  predicate IsIntegerField(v: Option<Nbt>)
  {
    v.Some? && v.value.NNum? && IsIntegral(v.value.n)
  }

  /**
   * oldTileName: the block name, with ":meta" appended for a non-zero
   * integer meta; a missing or non-string block is an error.
   */
  function OldTileName(tileObj: Nbt): (r: Result<string, ErrorKind>)
  {
    var block := Field(tileObj, "block");
    if !tileObj.NCompound? || !(block.Some? && block.value.NStr?) then Err(BlockRequired)
    else
      var meta := Field(tileObj, "meta");
      if IsIntegerField(meta) && meta.value.n != 0.0 then Ok(block.value.s + ":" + Strings.IntToString(meta.value.n.Floor))
      else Ok(block.value.s)
  }

  /** The name is the block name, extended exactly when the meta is a non-zero integer. */
  lemma OldTileNameRule(tileObj: Nbt)
    ensures OldTileName(tileObj).Ok? <==> tileObj.NCompound? && Field(tileObj, "block").Some? && Field(tileObj, "block").value.NStr?
    ensures OldTileName(tileObj).Ok? ==>
      var block := Field(tileObj, "block").value.s;
      var meta := Field(tileObj, "meta");
      && Strings.IsPrefix(block, OldTileName(tileObj).value)
      && (OldTileName(tileObj).value == block <==> !(IsIntegerField(meta) && meta.value.n != 0.0))
      && (IsIntegerField(meta) && meta.value.n != 0.0 ==>
            OldTileName(tileObj).value == block + ":" + Strings.IntToString(meta.value.n.Floor))
  {
  }

  /** The integer colour of a legacy tile, or -1. */
  function LegacyColor(tileObj: Nbt): int
  {
    var c := Field(tileObj, "color");
    if IsIntegerField(c) then c.value.n.Floor else -1
  }

  // ---------------------------------------------------------------------
  // Integer arrays and box arrays

  /** An element Number() reads as a finite integer. */
  predicate IsIntElement(v: Nbt)
  {
    var n := NumberOf(Some(v));
    n.Some? && IsIntegral(n.value)
  }

  /** asIntArray: a list whose every element reads as an integer, or an error. */
  function IntArray(value: Nbt): (r: Result<seq<int>, ErrorKind>)
    ensures r.Ok? ==> value.NList? && |r.value| == |value.items|
    ensures r.Ok? ==> forall i :: 0 <= i < |value.items| ==> IsIntElement(value.items[i]) && r.value[i] as real == NumberOf(Some(value.items[i])).value
  {
    if !value.NList? then Err(NotIntArray)
    else if forall i :: 0 <= i < |value.items| ==> IsIntElement(value.items[i]) then
      Ok(seq(|value.items|, i requires 0 <= i < |value.items| => NumberOf(Some(value.items[i])).value.Floor))
    else Err(NotInteger)
  }

  /** asIntArray, with its loop. */
  method AsIntArray(value: Nbt) returns (r: Result<seq<int>, ErrorKind>)
    ensures r == IntArray(value)
  {
    if !value.NList? {
      return Err(NotIntArray);
    }
    var out: seq<int> := [];
    for i := 0 to |value.items|
      invariant |out| == i
      invariant forall k :: 0 <= k < i ==> IsIntElement(value.items[k]) && out[k] == NumberOf(Some(value.items[k])).value.Floor
    {
      var n := NumberOf(Some(value.items[i]));
      if !(n.Some? && IsIntegral(n.value)) {
        return Err(NotInteger);
      }
      out := out + [n.value.Floor];
    }
    assert forall k :: 0 <= k < |value.items| ==> IsIntElement(value.items[k]);
    assert out == seq(|value.items|, i requires 0 <= i < |value.items| => NumberOf(Some(value.items[i])).value.Floor);
    return Ok(out);
  }

  /** min < max on all three axes. */
  predicate ValidBounds(a: seq<int>)
    requires |a| >= 6
  {
    a[0] < a[3] && a[1] < a[4] && a[2] < a[5]
  }

  function BoundsOf(a: seq<int>): Bounds
    requires |a| >= 6
  {
    Bounds(a[0], a[1], a[2], a[3], a[4], a[5])
  }

  function ToAabb(a: seq<int>): Result<ParsedBox, ErrorKind>
    requires |a| >= 6
  {
    if ValidBounds(a) then Ok(AabbBox(BoundsOf(a))) else Err(BadBounds)
  }

  /** A transformable box keeps the array from index 6 on, the indicator word first. */
  function ToTransformable(a: seq<int>): Result<ParsedBox, ErrorKind>
    requires |a| >= 6
  {
    if ValidBounds(a) then Ok(TransformableBox(BoundsOf(a), a[6..])) else Err(BadBounds)
  }

  /** parseBoxArray. */
  function ParseBoxArray(a: seq<int>): Result<ParsedBox, ErrorKind>
  {
    if |a| < 6 then Err(BadBoxLength)
    else if |a| == 6 then ToAabb(a)
    else if a[6] < 0 then ToTransformable(a)
    else if |a| == 7 || |a| == 11 then ToAabb(a)
    else Err(UnsupportedBoxLength)
  }

  /**
   * The box-array rules: a box needs six or more numbers and valid bounds;
   * it is transformable exactly when there is a negative seventh number, in
   * which case its data is the array from index 6; otherwise the length must
   * be 6, 7 or 11; the bounds are the first six numbers.
   */
  lemma BoxArrayRules(a: seq<int>)
    ensures ParseBoxArray(a).Ok? <==> |a| >= 6 && ValidBounds(a) && (|a| == 6 || a[6] < 0 || |a| == 7 || |a| == 11)
    ensures ParseBoxArray(a) == Err(BadBoxLength) <==> |a| < 6
    ensures ParseBoxArray(a) == Err(UnsupportedBoxLength) <==> |a| > 6 && a[6] >= 0 && |a| != 7 && |a| != 11
    ensures ParseBoxArray(a).Ok? ==> ParseBoxArray(a).value.bounds == BoundsOf(a)
    ensures ParseBoxArray(a).Ok? ==> (ParseBoxArray(a).value.TransformableBox? <==> |a| > 6 && a[6] < 0)
    ensures ParseBoxArray(a).Ok? && ParseBoxArray(a).value.TransformableBox? ==> ParseBoxArray(a).value.transformData == a[6..]
  {
  }

  // ---------------------------------------------------------------------
  // Fallible steps in order

  /** A step's single result as a one-element list. */
  function Single<T>(r: Result<T, ErrorKind>): Result<seq<T>, ErrorKind>
  {
    if r.Err? then Err(r.error) else Ok([r.value])
  }

  /** Each element in order through a step that may throw: the first error, or every output concatenated. */
  function Collect<T, U>(f: T --> Result<seq<U>, ErrorKind>, xs: seq<T>): Result<seq<U>, ErrorKind>
    requires forall i :: 0 <= i < |xs| ==> f.requires(xs[i])
    decreases |xs|
  {
    if xs == [] then Ok([])
    else
      var prev := Collect(f, xs[..|xs| - 1]);
      if prev.Err? then prev
      else
        var last := f(xs[|xs| - 1]);
        if last.Err? then Err(last.error) else Ok(prev.value + last.value)
  }

  /** One element more. */
  lemma CollectSnoc<T, U>(f: T --> Result<seq<U>, ErrorKind>, xs: seq<T>, i: nat)
    requires forall k :: 0 <= k < |xs| ==> f.requires(xs[k])
    requires i < |xs|
    ensures Collect(f, xs[..i + 1]) ==
      var prev := Collect(f, xs[..i]);
      if prev.Err? then prev
      else if f(xs[i]).Err? then Err(f(xs[i]).error)
      else Ok(prev.value + f(xs[i]).value)
  {
    assert xs[..i + 1][..i] == xs[..i];
  }

  /** Once a prefix has thrown, the whole throws the same error. */
  lemma {:induction false} CollectErr<T, U>(f: T --> Result<seq<U>, ErrorKind>, xs: seq<T>, i: nat)
    requires forall k :: 0 <= k < |xs| ==> f.requires(xs[k])
    requires i <= |xs| && Collect(f, xs[..i]).Err?
    ensures Collect(f, xs) == Collect(f, xs[..i])
    decreases |xs| - i
  {
    if i < |xs| {
      CollectSnoc(f, xs, i);
      CollectErr(f, xs, i + 1);
    } else {
      assert xs[..i] == xs;
    }
  }

  /** The whole succeeds exactly when every step does. */
  lemma {:induction false} CollectOk<T, U>(f: T --> Result<seq<U>, ErrorKind>, xs: seq<T>)
    requires forall k :: 0 <= k < |xs| ==> f.requires(xs[k])
    ensures Collect(f, xs).Ok? <==> forall i :: 0 <= i < |xs| ==> f(xs[i]).Ok?
    decreases |xs|
  {
    if xs != [] {
      var init := xs[..|xs| - 1];
      CollectOk(f, init);
      assert forall i :: 0 <= i < |init| ==> init[i] == xs[i];
    }
  }

  /** A property every step's outputs have, the whole output has. */
  lemma {:induction false} CollectAll<T, U>(f: T --> Result<seq<U>, ErrorKind>, xs: seq<T>, P: U -> bool)
    requires forall k :: 0 <= k < |xs| ==> f.requires(xs[k])
    requires forall k :: 0 <= k < |xs| && f(xs[k]).Ok? ==> forall y :: y in f(xs[k]).value ==> P(y)
    requires Collect(f, xs).Ok?
    ensures forall y :: y in Collect(f, xs).value ==> P(y)
    decreases |xs|
  {
    if xs != [] {
      var init := xs[..|xs| - 1];
      assert forall k :: 0 <= k < |init| ==> init[k] == xs[k];
      CollectAll(f, init, P);
    }
  }

  /** Steps of one output each give one output per element, in order. */
  lemma {:induction false} CollectSingles<T, U>(f: T --> Result<seq<U>, ErrorKind>, xs: seq<T>)
    requires forall k :: 0 <= k < |xs| ==> f.requires(xs[k])
    requires forall k :: 0 <= k < |xs| && f(xs[k]).Ok? ==> |f(xs[k]).value| == 1
    requires Collect(f, xs).Ok?
    ensures |Collect(f, xs).value| == |xs|
    ensures forall i :: 0 <= i < |xs| ==> f(xs[i]).Ok? && Collect(f, xs).value[i] == f(xs[i]).value[0]
    decreases |xs|
  {
    if xs != [] {
      var init := xs[..|xs| - 1];
      assert forall k :: 0 <= k < |init| ==> init[k] == xs[k];
      CollectSingles(f, init);
    }
  }

  // ---------------------------------------------------------------------
  // The entries of one block state (current format)

  /** What one entry is: a colour or a box. */
  datatype EntryValue = ColorValue(color: int) | BoxValue(box: ParsedBox)

  /** An entry: a one-number integer array is a colour; any other integer array must be a box. */
  function Classify(entry: Nbt): Result<EntryValue, ErrorKind>
  {
    var ints := IntArray(entry);
    if ints.Err? then Err(ints.error)
    else if |ints.value| == 1 then Ok(ColorValue(ints.value[0]))
    else
      var box := ParseBoxArray(ints.value);
      if box.Err? then Err(box.error) else Ok(BoxValue(box.value))
  }

  /**
   * The entry rules: a colour is exactly a one-number integer array; a box
   * is exactly a longer or shorter integer array that parses as a box.
   */
  lemma ClassifyRules(entry: Nbt)
    ensures (Classify(entry).Ok? && Classify(entry).value.ColorValue?) <==> IntArray(entry).Ok? && |IntArray(entry).value| == 1
    ensures (Classify(entry).Ok? && Classify(entry).value.BoxValue?) <==>
      IntArray(entry).Ok? && |IntArray(entry).value| != 1 && ParseBoxArray(IntArray(entry).value).Ok?
    ensures Classify(entry).Ok? && Classify(entry).value.ColorValue? ==> Classify(entry).value.color == IntArray(entry).value[0]
    ensures Classify(entry).Ok? && Classify(entry).value.BoxValue? ==> Classify(entry).value.box == ParseBoxArray(IntArray(entry).value).value
  {
  }

  function ClassifyStep(): Nbt -> Result<seq<EntryValue>, ErrorKind>
  {
    (entry: Nbt) => Single(Classify(entry))
  }

  /** The entries loop's state: the tiles opened so far and the current colour. */
  datatype EntryState = EntryState(tiles: seq<ParsedTile>, color: int)

  /** The last tile with one more box. */
  function AddBox(tiles: seq<ParsedTile>, box: ParsedBox): seq<ParsedTile>
    requires tiles != []
  {
    var last := tiles[|tiles| - 1];
    tiles[..|tiles| - 1] + [last.(boxes := last.boxes + [box])]
  }

  /**
   * One entry: a colour sets the colour and opens a new tile; a box goes
   * to the open tile, opening one in the current colour when none is open
   * yet.
   */
  function EntryStep(st: EntryState, blockState: string, grid: int, sid: Option<string>, v: EntryValue): EntryState
  {
    match v
    case ColorValue(c) => EntryState(st.tiles + [ParsedTile(blockState, c, grid, sid, [])], c)
    case BoxValue(box) =>
      var open := if st.tiles == [] then [ParsedTile(blockState, st.color, grid, sid, [])] else st.tiles;
      EntryState(AddBox(open, box), st.color)
  }

  /** The loop state after the entries, starting with colour -1 and no tile. */
  function EntriesFold(blockState: string, grid: int, sid: Option<string>, vs: seq<EntryValue>): EntryState
    decreases |vs|
  {
    if vs == [] then EntryState([], -1)
    else EntryStep(EntriesFold(blockState, grid, sid, vs[..|vs| - 1]), blockState, grid, sid, vs[|vs| - 1])
  }

  /**
   * The tiles one block state's entries open. The first entry that is not
   * a colour or a box stops the whole decoding, so what was opened before
   * it is never seen.
   */
  function TileEntries(blockState: string, grid: int, sid: Option<string>, entries: seq<Nbt>): Result<seq<ParsedTile>, ErrorKind>
  {
    var vs := Collect(ClassifyStep(), entries);
    if vs.Err? then Err(vs.error) else Ok(EntriesFold(blockState, grid, sid, vs.value).tiles)
  }

  /** The entries are read without error exactly when each is a colour or a box, and then each gives one value. */
  lemma TileEntriesOk(blockState: string, grid: int, sid: Option<string>, entries: seq<Nbt>)
    ensures TileEntries(blockState, grid, sid, entries).Ok? <==> forall i :: 0 <= i < |entries| ==> Classify(entries[i]).Ok?
    ensures Collect(ClassifyStep(), entries).Ok? ==>
      && |Collect(ClassifyStep(), entries).value| == |entries|
      && forall i :: 0 <= i < |entries| ==> Collect(ClassifyStep(), entries).value[i] == Classify(entries[i]).value
  {
    CollectOk(ClassifyStep(), entries);
    if Collect(ClassifyStep(), entries).Ok? {
      CollectSingles(ClassifyStep(), entries);
    }
  }

  /** The colours the values give, in order. */
  function ColorsOf(vs: seq<EntryValue>): seq<int>
    decreases |vs|
  {
    if vs == [] then []
    else
      var v := vs[|vs| - 1];
      ColorsOf(vs[..|vs| - 1]) + (if v.ColorValue? then [v.color] else [])
  }

  /** The boxes the values give, in order. */
  function BoxesOf(vs: seq<EntryValue>): seq<ParsedBox>
    decreases |vs|
  {
    if vs == [] then []
    else
      var v := vs[|vs| - 1];
      BoxesOf(vs[..|vs| - 1]) + (if v.BoxValue? then [v.box] else [])
  }

  /** A leading box opens a tile of colour -1. */
  function LeadColor(vs: seq<EntryValue>): seq<int>
  {
    if vs != [] && vs[0].BoxValue? then [-1] else []
  }

  /** The boxes of the tiles, in order. */
  function AllBoxes(tiles: seq<ParsedTile>): seq<ParsedBox>
    decreases |tiles|
  {
    if tiles == [] then [] else AllBoxes(tiles[..|tiles| - 1]) + tiles[|tiles| - 1].boxes
  }

  function TileColors(tiles: seq<ParsedTile>): seq<int>
  {
    seq(|tiles|, i requires 0 <= i < |tiles| => tiles[i].color)
  }

  /** Every tile carries the block state, grid and structure id it was read under. */
  predicate SameOrigin(tiles: seq<ParsedTile>, blockState: string, grid: int, sid: Option<string>)
  {
    forall i :: 0 <= i < |tiles| ==> tiles[i].blockState == blockState && tiles[i].grid == grid && tiles[i].structureId == sid
  }

  lemma AllBoxesSnoc(tiles: seq<ParsedTile>, t: ParsedTile)
    ensures AllBoxes(tiles + [t]) == AllBoxes(tiles) + t.boxes
  {
    assert (tiles + [t])[..|tiles|] == tiles;
  }

  /** Adding a box extends the boxes by it and changes nothing else. */
  lemma AddBoxSpec(tiles: seq<ParsedTile>, box: ParsedBox)
    requires tiles != []
    ensures AllBoxes(AddBox(tiles, box)) == AllBoxes(tiles) + [box]
    ensures TileColors(AddBox(tiles, box)) == TileColors(tiles)
    ensures forall bs, grid, sid :: SameOrigin(tiles, bs, grid, sid) ==> SameOrigin(AddBox(tiles, box), bs, grid, sid)
  {
    var init := tiles[..|tiles| - 1];
    var last := tiles[|tiles| - 1];
    AllBoxesSnoc(init, last);
    AllBoxesSnoc(init, last.(boxes := last.boxes + [box]));
    assert tiles == init + [last];
  }

  /** One step's effect on the tiles' boxes and origin. */
  lemma EntryStepBoxes(st: EntryState, blockState: string, grid: int, sid: Option<string>, v: EntryValue)
    requires SameOrigin(st.tiles, blockState, grid, sid)
    ensures AllBoxes(EntryStep(st, blockState, grid, sid, v).tiles) == AllBoxes(st.tiles) + (if v.BoxValue? then [v.box] else [])
    ensures SameOrigin(EntryStep(st, blockState, grid, sid, v).tiles, blockState, grid, sid)
  {
    if v.ColorValue? {
      AllBoxesSnoc(st.tiles, ParsedTile(blockState, v.color, grid, sid, []));
    } else if st.tiles == [] {
      var first := ParsedTile(blockState, st.color, grid, sid, []);
      AllBoxesSnoc([], first);
      AddBoxSpec([first], v.box);
    } else {
      AddBoxSpec(st.tiles, v.box);
    }
  }

  /** The tiles' boxes are the entries' boxes, in order, and every tile carries the block state, grid and structure id. */
  lemma {:induction false} EntriesFoldBoxes(blockState: string, grid: int, sid: Option<string>, vs: seq<EntryValue>)
    ensures AllBoxes(EntriesFold(blockState, grid, sid, vs).tiles) == BoxesOf(vs)
    ensures SameOrigin(EntriesFold(blockState, grid, sid, vs).tiles, blockState, grid, sid)
    decreases |vs|
  {
    if vs != [] {
      var init := vs[..|vs| - 1];
      EntriesFoldBoxes(blockState, grid, sid, init);
      EntryStepBoxes(EntriesFold(blockState, grid, sid, init), blockState, grid, sid, vs[|vs| - 1]);
    }
  }

  /** There is a tile as soon as there is an entry, and the loop ends on the last colour, or -1. */
  lemma {:induction false} EntriesFoldColor(blockState: string, grid: int, sid: Option<string>, vs: seq<EntryValue>)
    ensures EntriesFold(blockState, grid, sid, vs).tiles != [] <==> vs != []
    ensures EntriesFold(blockState, grid, sid, vs).color == (if ColorsOf(vs) == [] then -1 else ColorsOf(vs)[|ColorsOf(vs)| - 1])
    decreases |vs|
  {
    if vs != [] {
      EntriesFoldColor(blockState, grid, sid, vs[..|vs| - 1]);
    }
  }

  /** One step's effect on the tiles' colours. */
  lemma EntryStepColors(st: EntryState, blockState: string, grid: int, sid: Option<string>, v: EntryValue)
    requires st.tiles == [] ==> st.color == -1
    ensures TileColors(EntryStep(st, blockState, grid, sid, v).tiles) ==
      TileColors(st.tiles) + (if v.ColorValue? then [v.color] else if st.tiles == [] then [-1] else [])
  {
    if v.ColorValue? {
      var t := ParsedTile(blockState, v.color, grid, sid, []);
      assert TileColors(st.tiles + [t]) == TileColors(st.tiles) + [v.color];
    } else if st.tiles == [] {
      AddBoxSpec([ParsedTile(blockState, st.color, grid, sid, [])], v.box);
    } else {
      AddBoxSpec(st.tiles, v.box);
    }
  }

  /** The tiles' colours are the entries' colours in order, after a -1 for a leading box. */
  lemma {:induction false} EntriesFoldColors(blockState: string, grid: int, sid: Option<string>, vs: seq<EntryValue>)
    ensures TileColors(EntriesFold(blockState, grid, sid, vs).tiles) == LeadColor(vs) + ColorsOf(vs)
    decreases |vs|
  {
    if vs != [] {
      var init := vs[..|vs| - 1];
      var v := vs[|vs| - 1];
      EntriesFoldColors(blockState, grid, sid, init);
      EntriesFoldColor(blockState, grid, sid, init);
      EntryStepColors(EntriesFold(blockState, grid, sid, init), blockState, grid, sid, v);
      if init != [] {
        assert vs[0] == init[0];
        assert LeadColor(vs) == LeadColor(init);
      } else {
        assert LeadColor(vs) == (if v.BoxValue? then [-1] else []);
      }
      assert ColorsOf(vs) == ColorsOf(init) + (if v.ColorValue? then [v.color] else []);
    }
  }

  /** The entries loop of one block state. */
  method ParseTileEntries(blockState: string, grid: int, sid: Option<string>, entries: seq<Nbt>) returns (r: Result<seq<ParsedTile>, ErrorKind>)
    ensures r == TileEntries(blockState, grid, sid, entries)
  {
    var color := -1;
    var tiles: seq<ParsedTile> := [];
    var open := false;
    ghost var vs: seq<EntryValue> := [];
    for i := 0 to |entries|
      invariant Collect(ClassifyStep(), entries[..i]) == Ok(vs)
      invariant EntriesFold(blockState, grid, sid, vs) == EntryState(tiles, color)
      invariant open <==> tiles != []
    {
      CollectSnoc(ClassifyStep(), entries, i);
      var ints := AsIntArray(entries[i]);
      if ints.Err? {
        CollectErr(ClassifyStep(), entries, i + 1);
        return Err(ints.error);
      }
      if |ints.value| == 1 {
        color := ints.value[0];
        tiles := tiles + [ParsedTile(blockState, color, grid, sid, [])];
        open := true;
        assert vs + [ColorValue(color)] == (vs + [ColorValue(color)])[..|vs|] + [ColorValue(color)];
        vs := vs + [ColorValue(color)];
        continue;
      }
      var box := ParseBoxArray(ints.value);
      if box.Err? {
        CollectErr(ClassifyStep(), entries, i + 1);
        return Err(box.error);
      }
      if !open {
        tiles := tiles + [ParsedTile(blockState, color, grid, sid, [])];
        open := true;
      }
      tiles := AddBox(tiles, box.value);
      assert (vs + [BoxValue(box.value)])[..|vs|] == vs;
      vs := vs + [BoxValue(box.value)];
    }
    assert entries[..|entries|] == entries;
    return Ok(tiles);
  }

  // ---------------------------------------------------------------------
  // Groups of the current format

  /** One block state's entry of `t`: its value must be a list of entries. */
  function BlockStateTiles(grid: int, sid: Option<string>, e: Entry): Result<seq<ParsedTile>, ErrorKind>
  {
    if !e.value.NList? then Err(EntriesNotList) else TileEntries(e.key, grid, sid, e.value.items)
  }

  function TileStep(grid: int, sid: Option<string>): Entry -> Result<seq<ParsedTile>, ErrorKind>
  {
    (e: Entry) => BlockStateTiles(grid, sid, e)
  }

  /** The tiles of a block state carry its name, the group's grid and the group's structure id. */
  lemma BlockStateOrigin(grid: int, sid: Option<string>, e: Entry)
    requires BlockStateTiles(grid, sid, e).Ok?
    ensures forall t :: t in BlockStateTiles(grid, sid, e).value ==> t.blockState == e.key && t.grid == grid && t.structureId == sid
  {
    var vs := Collect(ClassifyStep(), e.value.items);
    EntriesFoldBoxes(e.key, grid, sid, vs.value);
  }

  /** The entries of `t` when it is a compound, else none. */
  function TEntries(group: Nbt): seq<Entry>
  {
    var t := Field(group, "t");
    if IsObject(t) then t.value.entries else []
  }

  /** The items of `c` when it is a list, else none. */
  function CItems(group: Nbt): seq<Nbt>
  {
    var c := Field(group, "c");
    if IsList(c) then c.value.items else []
  }

  /** The values of `e` when it is a compound, in entry order, else none. */
  function EValues(group: Nbt): seq<Nbt>
  {
    var e := Field(group, "e");
    if IsObject(e) then seq(|e.value.entries|, i requires 0 <= i < |e.value.entries| => e.value.entries[i].value) else []
  }

  /** The child groups: the `c` items, then the `e` values. */
  function ChildValues(group: Nbt): seq<Nbt>
  {
    CItems(group) + EValues(group)
  }

  lemma ChildValuesSmaller(group: Nbt)
    ensures forall i :: 0 <= i < |ChildValues(group)| ==> Size(ChildValues(group)[i]) < Size(group)
  {
    var c := Field(group, "c");
    var e := Field(group, "e");
    if IsList(c) {
      FieldSmaller(group, "c");
      forall i | 0 <= i < |c.value.items|
        ensures Size(c.value.items[i]) < Size(group)
      {
        ItemSmaller(c.value.items, i);
      }
    }
    if IsObject(e) {
      FieldSmaller(group, "e");
      forall i | 0 <= i < |e.value.entries|
        ensures Size(e.value.entries[i].value) < Size(group)
      {
        EntrySmaller(e.value.entries, i);
      }
    }
  }

  function GroupStep(grid: int, bound: nat): Nbt --> Result<seq<Group>, ErrorKind>
    decreases bound, 0
  {
    (v: Nbt) requires Size(v) < bound => Single(CurrentGroup(v, grid))
  }

  /**
   * parseCurrentGroup: the group's own grid or the inherited one, its
   * structure id from `s`, the tiles of every block state of `t` in order,
   * then the children of `c` and `e`, each inheriting the group's grid.
   * Reading a field of a null group throws.
   */
  function CurrentGroup(group: Nbt, defaultGrid: int): Result<Group, ErrorKind>
    decreases Size(group), 1
  {
    if group.NNull? then Err(NullAccess)
    else
      var grid := ResolveGrid(NumberOf(Field(group, "grid")), defaultGrid);
      var sid := StructureId(Field(group, "s"));
      var tiles := Collect(TileStep(grid, sid), TEntries(group));
      if tiles.Err? then Err(tiles.error)
      else
        ChildValuesSmaller(group);
        var children := Collect(GroupStep(grid, Size(group)), ChildValues(group));
        if children.Err? then Err(children.error) else Ok(Group(grid, sid, tiles.value, children.value))
  }

  /**
   * A decoded group: its grid is its own positive-integer grid or the
   * inherited one, its structure id is read from `s`, all its tiles carry
   * both, and its children are the `c` items then the `e` values, each
   * decoded under the group's grid.
   */
  lemma CurrentGroupShape(group: Nbt, defaultGrid: int)
    requires CurrentGroup(group, defaultGrid).Ok?
    ensures var g := CurrentGroup(group, defaultGrid).value;
      && g.grid == ResolveGrid(NumberOf(Field(group, "grid")), defaultGrid)
      && g.structureId == StructureId(Field(group, "s"))
      && (forall t :: t in g.tiles ==> t.grid == g.grid && t.structureId == g.structureId)
      && |g.children| == |ChildValues(group)|
      && forall i :: 0 <= i < |g.children| ==> CurrentGroup(ChildValues(group)[i], g.grid) == Ok(g.children[i])
  {
    var grid := ResolveGrid(NumberOf(Field(group, "grid")), defaultGrid);
    var sid := StructureId(Field(group, "s"));
    forall k | 0 <= k < |TEntries(group)| && TileStep(grid, sid)(TEntries(group)[k]).Ok?
      ensures forall t :: t in TileStep(grid, sid)(TEntries(group)[k]).value ==> t.grid == grid && t.structureId == sid
    {
      BlockStateOrigin(grid, sid, TEntries(group)[k]);
    }
    CollectAll(TileStep(grid, sid), TEntries(group), (t: ParsedTile) => t.grid == grid && t.structureId == sid);
    ChildValuesSmaller(group);
    CollectSingles(GroupStep(grid, Size(group)), ChildValues(group));
  }

  /** A group decodes exactly when it is not null, every block state's entries decode and every child decodes. */
  lemma CurrentGroupOk(group: Nbt, defaultGrid: int)
    ensures CurrentGroup(group, defaultGrid).Ok? <==>
      && !group.NNull?
      && var grid := ResolveGrid(NumberOf(Field(group, "grid")), defaultGrid);
      && (forall k :: 0 <= k < |TEntries(group)| ==> BlockStateTiles(grid, StructureId(Field(group, "s")), TEntries(group)[k]).Ok?)
      && (forall i :: 0 <= i < |ChildValues(group)| ==> CurrentGroup(ChildValues(group)[i], grid).Ok?)
  {
    if !group.NNull? {
      var grid := ResolveGrid(NumberOf(Field(group, "grid")), defaultGrid);
      var sid := StructureId(Field(group, "s"));
      CollectOk(TileStep(grid, sid), TEntries(group));
      ChildValuesSmaller(group);
      CollectOk(GroupStep(grid, Size(group)), ChildValues(group));
    }
  }

  /** Every grid in a group tree is positive. */
  predicate GridsPositive(g: Group)
  {
    g.grid > 0 && forall i :: 0 <= i < |g.children| ==> GridsPositive(g.children[i])
  }

  /** Under a positive default grid every decoded grid is positive. */
  lemma {:induction false} CurrentGridsPositive(group: Nbt, defaultGrid: int)
    requires defaultGrid > 0 && CurrentGroup(group, defaultGrid).Ok?
    ensures GridsPositive(CurrentGroup(group, defaultGrid).value)
    decreases Size(group)
  {
    var g := CurrentGroup(group, defaultGrid).value;
    CurrentGroupShape(group, defaultGrid);
    ChildValuesSmaller(group);
    forall i | 0 <= i < |g.children|
      ensures GridsPositive(g.children[i])
    {
      CurrentGridsPositive(ChildValues(group)[i], g.grid);
    }
  }

  lemma GroupStepAt(grid: int, bound: nat, v: Nbt)
    requires Size(v) < bound
    ensures GroupStep(grid, bound)(v) == Single(CurrentGroup(v, grid))
  {
  }

  /** With the tiles decoded, the group is decided by its children. */
  lemma CurrentGroupChildren(group: Nbt, defaultGrid: int)
    requires !group.NNull?
    requires
      var grid := ResolveGrid(NumberOf(Field(group, "grid")), defaultGrid);
      Collect(TileStep(grid, StructureId(Field(group, "s"))), TEntries(group)).Ok?
    ensures forall i :: 0 <= i < |ChildValues(group)| ==> Size(ChildValues(group)[i]) < Size(group)
    ensures
      var grid := ResolveGrid(NumberOf(Field(group, "grid")), defaultGrid);
      var sid := StructureId(Field(group, "s"));
      var children := Collect(GroupStep(grid, Size(group)), ChildValues(group));
      CurrentGroup(group, defaultGrid) ==
        if children.Err? then Err(children.error)
        else Ok(Group(grid, sid, Collect(TileStep(grid, sid), TEntries(group)).value, children.value))
  {
    ChildValuesSmaller(group);
  }

  /** The loop of parseCurrentGroup over the block states of `t`. */
  method ParseGroupTiles(ts: seq<Entry>, grid: int, sid: Option<string>) returns (r: Result<seq<ParsedTile>, ErrorKind>)
    ensures r == Collect(TileStep(grid, sid), ts)
  {
    var tilesOut: seq<ParsedTile> := [];
    for i := 0 to |ts|
      invariant Collect(TileStep(grid, sid), ts[..i]) == Ok(tilesOut)
    {
      CollectSnoc(TileStep(grid, sid), ts, i);
      if !ts[i].value.NList? {
        CollectErr(TileStep(grid, sid), ts, i + 1);
        return Err(EntriesNotList);
      }
      var more := ParseTileEntries(ts[i].key, grid, sid, ts[i].value.items);
      if more.Err? {
        CollectErr(TileStep(grid, sid), ts, i + 1);
        return Err(more.error);
      }
      tilesOut := tilesOut + more.value;
    }
    assert ts[..|ts|] == ts;
    return Ok(tilesOut);
  }

  /** parseCurrentGroup, with its loops over `c` and `e`. */
  method ParseCurrentGroup(group: Nbt, defaultGrid: int) returns (r: Result<Group, ErrorKind>)
    ensures r == CurrentGroup(group, defaultGrid)
    decreases Size(group), 2
  {
    if group.NNull? {
      return Err(NullAccess);
    }
    var grid := ResolveGrid(NumberOf(Field(group, "grid")), defaultGrid);
    var sid := StructureId(Field(group, "s"));
    var tilesOut := ParseGroupTiles(TEntries(group), grid, sid);
    if tilesOut.Err? {
      return Err(tilesOut.error);
    }
    CurrentGroupChildren(group, defaultGrid);
    var kids := ChildValues(group);
    assert kids[..0] == [];
    var children := ParseChildRun(kids, 0, |CItems(group)|, grid, Size(group), []);
    if children.Ok? {
      children := ParseChildRun(kids, |CItems(group)|, |kids|, grid, Size(group), children.value);
    } else {
      CollectErr(GroupStep(grid, Size(group)), kids, |CItems(group)|);
    }
    assert kids[..|kids|] == kids;
    if children.Err? {
      return Err(children.error);
    }
    return Ok(Group(grid, sid, tilesOut.value, children.value));
  }

  /** One child more: its group is appended, or its error ends the run. */
  lemma ChildStep(kids: seq<Nbt>, hi: nat, i: nat, grid: int, bound: nat, children: seq<Group>)
    requires i < hi <= |kids|
    requires forall k :: 0 <= k < |kids| ==> Size(kids[k]) < bound
    requires Collect(GroupStep(grid, bound), kids[..i]) == Ok(children)
    ensures CurrentGroup(kids[i], grid).Ok? ==> Collect(GroupStep(grid, bound), kids[..i + 1]) == Ok(children + [CurrentGroup(kids[i], grid).value])
    ensures CurrentGroup(kids[i], grid).Err? ==> Collect(GroupStep(grid, bound), kids[..hi]) == Err(CurrentGroup(kids[i], grid).error)
  {
    var step := GroupStep(grid, bound);
    CollectSnoc(step, kids, i);
    GroupStepAt(grid, bound, kids[i]);
    if CurrentGroup(kids[i], grid).Err? {
      assert kids[..hi][..i + 1] == kids[..i + 1];
      CollectErr(step, kids[..hi], i + 1);
    }
  }

  /**
   * The loops of parseCurrentGroup over the children from `lo` to `hi`:
   * the `c` items are one run, the `e` values the next.
   */
  method ParseChildRun(kids: seq<Nbt>, lo: nat, hi: nat, grid: int, bound: nat, done: seq<Group>) returns (r: Result<seq<Group>, ErrorKind>)
    requires lo <= hi <= |kids|
    requires forall k :: 0 <= k < |kids| ==> Size(kids[k]) < bound
    requires Collect(GroupStep(grid, bound), kids[..lo]) == Ok(done)
    ensures r == Collect(GroupStep(grid, bound), kids[..hi])
    decreases bound, 1
  {
    var children := done;
    for i := lo to hi
      invariant Collect(GroupStep(grid, bound), kids[..i]) == Ok(children)
    {
      var more := ParseChild(kids, hi, i, grid, bound, children);
      if more.Err? {
        return more;
      }
      children := more.value;
    }
    return Ok(children);
  }

  /** One pass of a child loop: the child is decoded and appended, or its error ends the run. */
  method ParseChild(kids: seq<Nbt>, hi: nat, i: nat, grid: int, bound: nat, children: seq<Group>) returns (r: Result<seq<Group>, ErrorKind>)
    requires i < hi <= |kids|
    requires forall k :: 0 <= k < |kids| ==> Size(kids[k]) < bound
    requires Collect(GroupStep(grid, bound), kids[..i]) == Ok(children)
    ensures r.Ok? ==> Collect(GroupStep(grid, bound), kids[..i + 1]) == r
    ensures r.Err? ==> Collect(GroupStep(grid, bound), kids[..hi]) == r
    decreases bound, 0
  {
    var child := ParseCurrentGroup(kids[i], grid);
    ChildStep(kids, hi, i, grid, bound, children);
    if child.Err? {
      return Err(child.error);
    }
    return Ok(children + [child.value]);
  }

  // ---------------------------------------------------------------------
  // Groups of the legacy format

  function ArrayStep(): Nbt -> Result<seq<seq<int>>, ErrorKind>
  {
    (b: Nbt) => Single(IntArray(b))
  }

  function BoxStep(): seq<int> -> Result<seq<ParsedBox>, ErrorKind>
  {
    (a: seq<int>) => Single(ParseBoxArray(a))
  }

  /** A legacy tile's box arrays: its `boxes` list, else its `bBox`, else its `box`, else none. */
  function LegacyArrays(tileEntry: Nbt): Result<seq<seq<int>>, ErrorKind>
  {
    var boxes := Field(tileEntry, "boxes");
    var bBox := Field(tileEntry, "bBox");
    var box := Field(tileEntry, "box");
    if IsList(boxes) then Collect(ArrayStep(), boxes.value.items)
    else if !IsNullish(bBox) then Single(IntArray(bBox.value))
    else if !IsNullish(box) then Single(IntArray(box.value))
    else Ok([])
  }

  /** The arrays come from the first of `boxes` (a list), `bBox`, `box` that is present. */
  lemma LegacyArraysRule(tileEntry: Nbt)
    requires LegacyArrays(tileEntry).Ok?
    ensures var arrays := LegacyArrays(tileEntry).value;
      var boxes := Field(tileEntry, "boxes");
      var bBox := Field(tileEntry, "bBox");
      var box := Field(tileEntry, "box");
      && (IsList(boxes) ==> |arrays| == |boxes.value.items| && forall i :: 0 <= i < |arrays| ==> Ok(arrays[i]) == IntArray(boxes.value.items[i]))
      && (!IsList(boxes) && !IsNullish(bBox) ==> |arrays| == 1 && Ok(arrays[0]) == IntArray(bBox.value))
      && (!IsList(boxes) && IsNullish(bBox) && !IsNullish(box) ==> |arrays| == 1 && Ok(arrays[0]) == IntArray(box.value))
      && (!IsList(boxes) && IsNullish(bBox) && IsNullish(box) ==> arrays == [])
  {
    var boxes := Field(tileEntry, "boxes");
    if IsList(boxes) {
      CollectSingles(ArrayStep(), boxes.value.items);
    }
  }

  /** A legacy tile's name and colour come from its `tile` compound, else from the entry itself. */
  function TileObject(tileEntry: Nbt): Nbt
  {
    var inner := Field(tileEntry, "tile");
    if IsObject(inner) then inner.value else tileEntry
  }

  /** One legacy tile: its name, its colour, and a box for each of its arrays, in order. */
  function LegacyTile(tileEntry: Nbt, grid: int, sid: Option<string>): Result<ParsedTile, ErrorKind>
  {
    if tileEntry.NNull? then Err(NullAccess)
    else
      var tileObj := TileObject(tileEntry);
      var name := OldTileName(tileObj);
      if name.Err? then Err(name.error)
      else
        var arrays := LegacyArrays(tileEntry);
        if arrays.Err? then Err(arrays.error)
        else
          var boxes := Collect(BoxStep(), arrays.value);
          if boxes.Err? then Err(boxes.error)
          else Ok(ParsedTile(name.value, LegacyColor(tileObj), grid, sid, boxes.value))
  }

  /**
   * A decoded legacy tile has the old name and colour of its tile object,
   * the group's grid and structure id, and exactly one box per array.
   */
  lemma LegacyTileShape(tileEntry: Nbt, grid: int, sid: Option<string>)
    requires LegacyTile(tileEntry, grid, sid).Ok?
    ensures var t := LegacyTile(tileEntry, grid, sid).value;
      var arrays := LegacyArrays(tileEntry).value;
      && LegacyArrays(tileEntry).Ok?
      && Ok(t.blockState) == OldTileName(TileObject(tileEntry))
      && t.color == LegacyColor(TileObject(tileEntry))
      && t.grid == grid && t.structureId == sid
      && |t.boxes| == |arrays|
      && forall j :: 0 <= j < |arrays| ==> Ok(t.boxes[j]) == ParseBoxArray(arrays[j])
  {
    CollectSingles(BoxStep(), LegacyArrays(tileEntry).value);
  }

  function LegacyTileStep(grid: int, sid: Option<string>): Nbt -> Result<seq<ParsedTile>, ErrorKind>
  {
    (e: Nbt) => Single(LegacyTile(e, grid, sid))
  }

  /** The items of `children` when it is a list, else none. */
  function LegacyChildren(group: Nbt): seq<Nbt>
  {
    var c := Field(group, "children");
    if IsList(c) then c.value.items else []
  }

  lemma LegacyChildrenSmaller(group: Nbt)
    ensures forall i :: 0 <= i < |LegacyChildren(group)| ==> Size(LegacyChildren(group)[i]) < Size(group)
  {
    var c := Field(group, "children");
    if IsList(c) {
      FieldSmaller(group, "children");
      forall i | 0 <= i < |c.value.items|
        ensures Size(c.value.items[i]) < Size(group)
      {
        ItemSmaller(c.value.items, i);
      }
    }
  }

  function LegacyGroupStep(grid: int, bound: nat): Nbt --> Result<seq<Group>, ErrorKind>
    decreases bound, 0
  {
    (v: Nbt) requires Size(v) < bound => Single(LegacyGroup(v, grid))
  }

  /**
   * parseLegacyGroup: the group's own grid or the inherited one, its
   * structure id from `structure`, a `tiles` list that must be present, one
   * tile per item, then the `children`, each inheriting the group's grid.
   */
  function LegacyGroup(group: Nbt, inheritedGrid: int): Result<Group, ErrorKind>
    decreases Size(group), 1
  {
    if group.NNull? then Err(NullAccess)
    else
      var grid := ResolveGrid(NumberOf(Field(group, "grid")), inheritedGrid);
      var sid := StructureId(Field(group, "structure"));
      var tiles := Field(group, "tiles");
      if !IsList(tiles) then Err(LegacyTilesNotList)
      else
        var ts := Collect(LegacyTileStep(grid, sid), tiles.value.items);
        if ts.Err? then Err(ts.error)
        else
          LegacyChildrenSmaller(group);
          var children := Collect(LegacyGroupStep(grid, Size(group)), LegacyChildren(group));
          if children.Err? then Err(children.error) else Ok(Group(grid, sid, ts.value, children.value))
  }

  /**
   * A decoded legacy group: its grid is its own positive-integer grid or
   * the inherited one, its structure id is read from `structure`, and it
   * has one tile per `tiles` item, in order.
   */
  lemma LegacyGroupTiles(group: Nbt, inheritedGrid: int)
    requires LegacyGroup(group, inheritedGrid).Ok?
    ensures IsList(Field(group, "tiles"))
    ensures var g := LegacyGroup(group, inheritedGrid).value;
      var items := Field(group, "tiles").value.items;
      && g.grid == ResolveGrid(NumberOf(Field(group, "grid")), inheritedGrid)
      && g.structureId == StructureId(Field(group, "structure"))
      && |g.tiles| == |items|
      && forall i :: 0 <= i < |items| ==> LegacyTile(items[i], g.grid, g.structureId) == Ok(g.tiles[i])
  {
    var grid := ResolveGrid(NumberOf(Field(group, "grid")), inheritedGrid);
    var sid := StructureId(Field(group, "structure"));
    CollectSingles(LegacyTileStep(grid, sid), Field(group, "tiles").value.items);
  }

  /** A decoded legacy group has one child per `children` item, in order, each decoded under the group's grid. */
  lemma LegacyGroupShape(group: Nbt, inheritedGrid: int)
    requires LegacyGroup(group, inheritedGrid).Ok?
    ensures var g := LegacyGroup(group, inheritedGrid).value;
      && g.grid == ResolveGrid(NumberOf(Field(group, "grid")), inheritedGrid)
      && |g.children| == |LegacyChildren(group)|
      && forall i :: 0 <= i < |g.children| ==> LegacyGroup(LegacyChildren(group)[i], g.grid) == Ok(g.children[i])
  {
    var grid := ResolveGrid(NumberOf(Field(group, "grid")), inheritedGrid);
    LegacyChildrenSmaller(group);
    CollectSingles(LegacyGroupStep(grid, Size(group)), LegacyChildren(group));
  }

  /** Under a positive inherited grid every decoded grid is positive. */
  lemma {:induction false} LegacyGridsPositive(group: Nbt, inheritedGrid: int)
    requires inheritedGrid > 0 && LegacyGroup(group, inheritedGrid).Ok?
    ensures GridsPositive(LegacyGroup(group, inheritedGrid).value)
    decreases Size(group)
  {
    var g := LegacyGroup(group, inheritedGrid).value;
    LegacyGroupShape(group, inheritedGrid);
    LegacyChildrenSmaller(group);
    forall i | 0 <= i < |g.children|
      ensures GridsPositive(g.children[i])
    {
      LegacyGridsPositive(LegacyChildren(group)[i], g.grid);
    }
  }

  /** The loop of parseLegacyGroup collecting a tile's box arrays. */
  method ReadLegacyArrays(tileEntry: Nbt) returns (r: Result<seq<seq<int>>, ErrorKind>)
    ensures r == LegacyArrays(tileEntry)
  {
    var boxes := Field(tileEntry, "boxes");
    var bBox := Field(tileEntry, "bBox");
    var box := Field(tileEntry, "box");
    if IsList(boxes) {
      var items := boxes.value.items;
      var arrays: seq<seq<int>> := [];
      for i := 0 to |items|
        invariant Collect(ArrayStep(), items[..i]) == Ok(arrays)
      {
        CollectSnoc(ArrayStep(), items, i);
        var a := AsIntArray(items[i]);
        if a.Err? {
          CollectErr(ArrayStep(), items, i + 1);
          return Err(a.error);
        }
        arrays := arrays + [a.value];
      }
      assert items[..|items|] == items;
      return Ok(arrays);
    } else if !IsNullish(bBox) {
      var a := AsIntArray(bBox.value);
      return if a.Err? then Err(a.error) else Ok([a.value]);
    } else if !IsNullish(box) {
      var a := AsIntArray(box.value);
      return if a.Err? then Err(a.error) else Ok([a.value]);
    }
    return Ok([]);
  }

  /** The loop of parseLegacyGroup turning a tile's arrays into boxes. */
  method ParseBoxArrays(arrays: seq<seq<int>>) returns (r: Result<seq<ParsedBox>, ErrorKind>)
    ensures r == Collect(BoxStep(), arrays)
  {
    var boxes: seq<ParsedBox> := [];
    for j := 0 to |arrays|
      invariant Collect(BoxStep(), arrays[..j]) == Ok(boxes)
    {
      CollectSnoc(BoxStep(), arrays, j);
      var box := ParseBoxArray(arrays[j]);
      if box.Err? {
        CollectErr(BoxStep(), arrays, j + 1);
        return Err(box.error);
      }
      boxes := boxes + [box.value];
    }
    assert arrays[..|arrays|] == arrays;
    return Ok(boxes);
  }

  /** The body of parseLegacyGroup's loop over `tiles`. */
  method ParseLegacyTile(tileEntry: Nbt, grid: int, sid: Option<string>) returns (r: Result<ParsedTile, ErrorKind>)
    ensures r == LegacyTile(tileEntry, grid, sid)
  {
    if tileEntry.NNull? {
      return Err(NullAccess);
    }
    var tileObj := TileObject(tileEntry);
    var name := OldTileName(tileObj);
    if name.Err? {
      return Err(name.error);
    }
    var arrays := ReadLegacyArrays(tileEntry);
    if arrays.Err? {
      return Err(arrays.error);
    }
    var boxes := ParseBoxArrays(arrays.value);
    if boxes.Err? {
      return Err(boxes.error);
    }
    return Ok(ParsedTile(name.value, LegacyColor(tileObj), grid, sid, boxes.value));
  }

  /** parseLegacyGroup's loop over `tiles`. */
  method ParseLegacyTiles(items: seq<Nbt>, grid: int, sid: Option<string>) returns (r: Result<seq<ParsedTile>, ErrorKind>)
    ensures r == Collect(LegacyTileStep(grid, sid), items)
  {
    var tiles: seq<ParsedTile> := [];
    for i := 0 to |items|
      invariant Collect(LegacyTileStep(grid, sid), items[..i]) == Ok(tiles)
    {
      CollectSnoc(LegacyTileStep(grid, sid), items, i);
      var tile := ParseLegacyTile(items[i], grid, sid);
      if tile.Err? {
        CollectErr(LegacyTileStep(grid, sid), items, i + 1);
        return Err(tile.error);
      }
      tiles := tiles + [tile.value];
    }
    assert items[..|items|] == items;
    return Ok(tiles);
  }

  lemma LegacyGroupStepAt(grid: int, bound: nat, v: Nbt)
    requires Size(v) < bound
    ensures LegacyGroupStep(grid, bound)(v) == Single(LegacyGroup(v, grid))
  {
  }

  /** One legacy child more: its group is appended, or its error ends the loop. */
  lemma LegacyChildStep(kids: seq<Nbt>, i: nat, grid: int, bound: nat, children: seq<Group>)
    requires i < |kids|
    requires forall k :: 0 <= k < |kids| ==> Size(kids[k]) < bound
    requires Collect(LegacyGroupStep(grid, bound), kids[..i]) == Ok(children)
    ensures LegacyGroup(kids[i], grid).Ok? ==> Collect(LegacyGroupStep(grid, bound), kids[..i + 1]) == Ok(children + [LegacyGroup(kids[i], grid).value])
    ensures LegacyGroup(kids[i], grid).Err? ==> Collect(LegacyGroupStep(grid, bound), kids) == Err(LegacyGroup(kids[i], grid).error)
  {
    var step := LegacyGroupStep(grid, bound);
    CollectSnoc(step, kids, i);
    LegacyGroupStepAt(grid, bound, kids[i]);
    if LegacyGroup(kids[i], grid).Err? {
      CollectErr(step, kids, i + 1);
    }
  }

  /** With the tiles decoded, the legacy group is decided by its children. */
  lemma LegacyGroupChildren(group: Nbt, inheritedGrid: int)
    requires !group.NNull? && IsList(Field(group, "tiles"))
    requires
      var grid := ResolveGrid(NumberOf(Field(group, "grid")), inheritedGrid);
      Collect(LegacyTileStep(grid, StructureId(Field(group, "structure"))), Field(group, "tiles").value.items).Ok?
    ensures forall i :: 0 <= i < |LegacyChildren(group)| ==> Size(LegacyChildren(group)[i]) < Size(group)
    ensures
      var grid := ResolveGrid(NumberOf(Field(group, "grid")), inheritedGrid);
      var sid := StructureId(Field(group, "structure"));
      var children := Collect(LegacyGroupStep(grid, Size(group)), LegacyChildren(group));
      LegacyGroup(group, inheritedGrid) ==
        if children.Err? then Err(children.error)
        else Ok(Group(grid, sid, Collect(LegacyTileStep(grid, sid), Field(group, "tiles").value.items).value, children.value))
  {
    LegacyChildrenSmaller(group);
  }

  /** parseLegacyGroup, with its loops over `tiles` and `children`. */
  method ParseLegacyGroup(group: Nbt, inheritedGrid: int) returns (r: Result<Group, ErrorKind>)
    ensures r == LegacyGroup(group, inheritedGrid)
    decreases Size(group)
  {
    if group.NNull? {
      return Err(NullAccess);
    }
    var grid := ResolveGrid(NumberOf(Field(group, "grid")), inheritedGrid);
    var sid := StructureId(Field(group, "structure"));
    var tiles := Field(group, "tiles");
    if !IsList(tiles) {
      return Err(LegacyTilesNotList);
    }
    var ts := ParseLegacyTiles(tiles.value.items, grid, sid);
    if ts.Err? {
      return Err(ts.error);
    }
    LegacyGroupChildren(group, inheritedGrid);
    var kids := LegacyChildren(group);
    var children: seq<Group> := [];
    for i := 0 to |kids|
      invariant Collect(LegacyGroupStep(grid, Size(group)), kids[..i]) == Ok(children)
    {
      var child := ParseLegacyGroup(kids[i], grid);
      LegacyChildStep(kids, i, grid, Size(group), children);
      if child.Err? {
        return Err(child.error);
      }
      children := children + [child.value];
    }
    assert kids[..|kids|] == kids;
    return Ok(Group(grid, sid, ts.value, children));
  }

  // ---------------------------------------------------------------------
  // Flattening

  /** The tiles that have boxes, in order. */
  function TilesWithBoxes(tiles: seq<ParsedTile>): seq<ParsedTile>
    decreases |tiles|
  {
    if tiles == [] then []
    else
      var t := tiles[|tiles| - 1];
      TilesWithBoxes(tiles[..|tiles| - 1]) + (if t.boxes != [] then [t] else [])
  }

  /** A tile's boxes, each with the tile's block state, colour, grid and structure id copied in. */
  function TileFlatBoxes(t: ParsedTile): seq<FlatBox>
  {
    seq(|t.boxes|, j requires 0 <= j < |t.boxes| => FlatBox(t.boxes[j], t.blockState, t.color, t.grid, t.structureId))
  }

  /** The flat boxes of the tiles, in order. */
  function TilesFlatBoxes(tiles: seq<ParsedTile>): seq<FlatBox>
    decreases |tiles|
  {
    if tiles == [] then [] else TilesFlatBoxes(tiles[..|tiles| - 1]) + TileFlatBoxes(tiles[|tiles| - 1])
  }

  /** flattenTiles: the group's tiles that have boxes, then its children's, depth first. */
  function FlatTiles(g: Group): seq<ParsedTile>
    decreases g, |g.children| + 1
  {
    TilesWithBoxes(g.tiles) + ChildrenFlatTiles(g, |g.children|)
  }

  /** The flat tiles of the first k children. */
  function ChildrenFlatTiles(g: Group, k: nat): seq<ParsedTile>
    requires k <= |g.children|
    decreases g, k
  {
    if k == 0 then [] else ChildrenFlatTiles(g, k - 1) + FlatTiles(g.children[k - 1])
  }

  /** flattenBoxes: the boxes of the group's tiles, then its children's, depth first. */
  function FlatBoxes(g: Group): seq<FlatBox>
    decreases g, |g.children| + 1
  {
    TilesFlatBoxes(g.tiles) + ChildrenFlatBoxes(g, |g.children|)
  }

  /** The flat boxes of the first k children. */
  function ChildrenFlatBoxes(g: Group, k: nat): seq<FlatBox>
    requires k <= |g.children|
    decreases g, k
  {
    if k == 0 then [] else ChildrenFlatBoxes(g, k - 1) + FlatBoxes(g.children[k - 1])
  }

  lemma {:induction false} TilesFlatBoxesAppend(a: seq<ParsedTile>, b: seq<ParsedTile>)
    ensures TilesFlatBoxes(a + b) == TilesFlatBoxes(a) + TilesFlatBoxes(b)
    decreases |b|
  {
    if b != [] {
      var init := b[..|b| - 1];
      assert (a + b)[..|a + b| - 1] == a + init;
      TilesFlatBoxesAppend(a, init);
    } else {
      assert a + b == a;
    }
  }

  /** Dropping the tiles without boxes drops no box. */
  lemma {:induction false} TilesWithBoxesKeepsBoxes(tiles: seq<ParsedTile>)
    ensures TilesFlatBoxes(TilesWithBoxes(tiles)) == TilesFlatBoxes(tiles)
    ensures forall i :: 0 <= i < |TilesWithBoxes(tiles)| ==> TilesWithBoxes(tiles)[i].boxes != []
    decreases |tiles|
  {
    if tiles != [] {
      var init := tiles[..|tiles| - 1];
      var t := tiles[|tiles| - 1];
      TilesWithBoxesKeepsBoxes(init);
      TilesFlatBoxesAppend(TilesWithBoxes(init), if t.boxes != [] then [t] else []);
      assert TilesFlatBoxes([t]) == TileFlatBoxes(t) by {
        assert [t][..0] == [];
      }
    }
  }

  /**
   * flattenBoxes lists exactly the boxes of the tiles flattenTiles lists, in
   * the same order, and every tile flattenTiles lists has a box.
   */
  lemma {:induction false} FlatBoxesOfFlatTiles(g: Group)
    ensures FlatBoxes(g) == TilesFlatBoxes(FlatTiles(g))
    ensures forall i :: 0 <= i < |FlatTiles(g)| ==> FlatTiles(g)[i].boxes != []
    decreases g, |g.children| + 1
  {
    TilesWithBoxesKeepsBoxes(g.tiles);
    ChildrenFlatBoxesOfTiles(g, |g.children|);
    TilesFlatBoxesAppend(TilesWithBoxes(g.tiles), ChildrenFlatTiles(g, |g.children|));
  }

  lemma {:induction false} ChildrenFlatBoxesOfTiles(g: Group, k: nat)
    requires k <= |g.children|
    ensures ChildrenFlatBoxes(g, k) == TilesFlatBoxes(ChildrenFlatTiles(g, k))
    ensures forall i :: 0 <= i < |ChildrenFlatTiles(g, k)| ==> ChildrenFlatTiles(g, k)[i].boxes != []
    decreases g, k
  {
    if k > 0 {
      ChildrenFlatBoxesOfTiles(g, k - 1);
      FlatBoxesOfFlatTiles(g.children[k - 1]);
      TilesFlatBoxesAppend(ChildrenFlatTiles(g, k - 1), FlatTiles(g.children[k - 1]));
    }
  }

  /** flattenTiles, appending to `out`. */
  method FlattenTiles(g: Group, out: seq<ParsedTile>) returns (res: seq<ParsedTile>)
    ensures res == out + FlatTiles(g)
    decreases g
  {
    res := out;
    for i := 0 to |g.tiles|
      invariant res == out + TilesWithBoxes(g.tiles[..i])
    {
      assert g.tiles[..i + 1][..i] == g.tiles[..i];
      if |g.tiles[i].boxes| > 0 {
        res := res + [g.tiles[i]];
      }
    }
    assert g.tiles[..|g.tiles|] == g.tiles;
    for i := 0 to |g.children|
      invariant res == out + TilesWithBoxes(g.tiles) + ChildrenFlatTiles(g, i)
    {
      res := FlattenTiles(g.children[i], res);
    }
  }

  /** flattenBoxes, appending to `out`. */
  method FlattenBoxes(g: Group, out: seq<FlatBox>) returns (res: seq<FlatBox>)
    ensures res == out + FlatBoxes(g)
    decreases g
  {
    res := out;
    for i := 0 to |g.tiles|
      invariant res == out + TilesFlatBoxes(g.tiles[..i])
    {
      assert g.tiles[..i + 1][..i] == g.tiles[..i];
      var tile := g.tiles[i];
      ghost var before := res;
      for j := 0 to |tile.boxes|
        invariant res == before + TileFlatBoxes(tile)[..j]
      {
        assert TileFlatBoxes(tile)[..j + 1] == TileFlatBoxes(tile)[..j] + [TileFlatBoxes(tile)[j]];
        res := res + [FlatBox(tile.boxes[j], tile.blockState, tile.color, tile.grid, tile.structureId)];
      }
      assert TileFlatBoxes(tile)[..|tile.boxes|] == TileFlatBoxes(tile);
    }
    assert g.tiles[..|g.tiles|] == g.tiles;
    for i := 0 to |g.children|
      invariant res == out + TilesFlatBoxes(g.tiles) + ChildrenFlatBoxes(g, i)
    {
      res := FlattenBoxes(g.children[i], res);
    }
  }

  // ---------------------------------------------------------------------
  // The whole import

  /** The legacy schema: a `tiles` list and no `t` compound. */
  predicate IsLegacy(data: Nbt)
  {
    IsList(Field(data, "tiles")) && !IsObject(Field(data, "t"))
  }

  /**
   * parseLtImportSnbt on an already-parsed value: it must be a compound;
   * the schema decides the decoder; the default grid is the `defaultGrid`
   * option when it is a positive integer, else 16; the result carries the
   * group tree and its flat tile and box lists.
   */
  function ParsedOf(data: Nbt, defaultGrid: Option<real>): Result<Parsed, ErrorKind>
  {
    if !data.NCompound? then Err(TopLevelNotObject)
    else
      var root := RootGroup(data, defaultGrid);
      if root.Err? then Err(root.error)
      else Ok(Parsed(if IsLegacy(data) then Legacy else Current, root.value, FlatTiles(root.value), FlatBoxes(root.value)))
  }

  /** The root group, by the decoder the schema picks. */
  function RootGroup(data: Nbt, defaultGrid: Option<real>): Result<Group, ErrorKind>
  {
    var grid := ResolveGrid(defaultGrid, DEFAULT_GRID);
    if IsLegacy(data) then LegacyGroup(data, ResolveGrid(NumberOf(Field(data, "grid")), grid)) else CurrentGroup(data, grid)
  }

  method ParseRoot(data: Nbt, defaultGrid: Option<real>) returns (root: Result<Group, ErrorKind>)
    ensures root == RootGroup(data, defaultGrid)
  {
    var grid := ResolveGrid(defaultGrid, DEFAULT_GRID);
    if IsList(Field(data, "tiles")) && !IsObject(Field(data, "t")) {
      root := ParseLegacyGroup(data, ResolveGrid(NumberOf(Field(data, "grid")), grid));
    } else {
      root := ParseCurrentGroup(data, grid);
    }
  }

  /** parseLtImportSnbt after the text has been parsed. */
  method ParseLtImport(data: Nbt, defaultGrid: Option<real>) returns (r: Result<Parsed, ErrorKind>)
    ensures r == ParsedOf(data, defaultGrid)
  {
    if !data.NCompound? {
      return Err(TopLevelNotObject);
    }
    var legacy := IsList(Field(data, "tiles")) && !IsObject(Field(data, "t"));
    var root := ParseRoot(data, defaultGrid);
    if root.Err? {
      return Err(root.error);
    }
    var tiles := FlattenTiles(root.value, []);
    var boxes := FlattenBoxes(root.value, []);
    assert tiles == FlatTiles(root.value);
    assert boxes == FlatBoxes(root.value);
    return Ok(Parsed(if legacy then Legacy else Current, root.value, tiles, boxes));
  }

  /**
   * A decoded import: the schema is legacy exactly for a `tiles` list
   * without a `t` compound; the root grid is the data's own positive-integer
   * grid, else the default grid; every grid is positive; the flat boxes
   * are the boxes of the flat tiles, and every flat tile has a box.
   */
  lemma ParsedShape(data: Nbt, defaultGrid: Option<real>)
    requires ParsedOf(data, defaultGrid).Ok?
    ensures var p := ParsedOf(data, defaultGrid).value;
      && data.NCompound?
      && (p.schema == Legacy <==> IsList(Field(data, "tiles")) && !IsObject(Field(data, "t")))
      && p.root.grid == ResolveGrid(NumberOf(Field(data, "grid")), ResolveGrid(defaultGrid, DEFAULT_GRID))
      && GridsPositive(p.root)
      && p.boxes == TilesFlatBoxes(p.tiles)
      && forall i :: 0 <= i < |p.tiles| ==> p.tiles[i].boxes != []
  {
    var grid := ResolveGrid(defaultGrid, DEFAULT_GRID);
    assert RootGroup(data, defaultGrid).Ok?;
    if IsLegacy(data) {
      var inherited := ResolveGrid(NumberOf(Field(data, "grid")), grid);
      LegacyGroupShape(data, inherited);
      LegacyGridsPositive(data, inherited);
    } else {
      CurrentGroupShape(data, grid);
      CurrentGridsPositive(data, grid);
    }
    FlatBoxesOfFlatTiles(ParsedOf(data, defaultGrid).value.root);
  }
}
