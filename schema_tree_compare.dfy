/**
 * The schema tree comparison of the parity tool
 * (`parity/schema-tree-compare.mjs`): the group statistics of a parsed
 * structure, the canonical trees built from the parsed structure and from
 * the debug export, the removal of null-valued keys, and `firstDiff`, the
 * first structural difference of two JSON values.
 */
module SchemaTreeCompare {
  import opened Wrappers
  import opened Json
  import opened Strings
  import P = LtImportParser

  // ---------------------------------------------------------------------------
  // Statistics
  // ---------------------------------------------------------------------------

  /** The four counters of a structure. */
  datatype Stats = Stats(groups: int, tiles: int, boxes: int, transformableBoxes: int)

  function Plus(a: Stats, b: Stats): Stats
  {
    Stats(a.groups + b.groups, a.tiles + b.tiles, a.boxes + b.boxes, a.transformableBoxes + b.transformableBoxes)
  }

  /** intOrZero: an integer is kept, anything else counts as 0. */
  function IntOrZero(v: Option<Json>): (n: int)
    ensures IsInteger(v) ==> n == AsInt(v)
    ensures !IsInteger(v) ==> n == 0
  {
    if IsInteger(v) then AsInt(v) else 0
  }

  /**
   * sanitizeStats: the four counters of the debug export's `stats`, each
   * the integer stored under its name and 0 when that is not an integer.
   */
  function SanitizeStats(stats: Option<Json>): (r: Stats)
    ensures !IsObjectLike(stats) ==> r == Stats(0, 0, 0, 0)
    ensures r.groups == IntOrZero(GetOpt(stats, "groups")) && r.tiles == IntOrZero(GetOpt(stats, "tiles"))
    ensures r.boxes == IntOrZero(GetOpt(stats, "boxes")) && r.transformableBoxes == IntOrZero(GetOpt(stats, "transformableBoxes"))
  {
    var inStats := if IsObjectLike(stats) then stats.value else JObj(map[]);
    Stats(IntOrZero(Get(inStats, "groups")), IntOrZero(Get(inStats, "tiles")),
          IntOrZero(Get(inStats, "boxes")), IntOrZero(Get(inStats, "transformableBoxes")))
  }

  /** Counters that can describe a structure: none negative, transformable boxes among the boxes. */
  predicate Plausible(s: Stats)
  {
    s.groups >= 0 && s.tiles >= 0 && 0 <= s.transformableBoxes <= s.boxes
  }

  /** What one box adds: a box, and a transformable box when it is one. */
  function BoxStats(box: P.ParsedBox): Stats
  {
    Stats(0, 0, 1, if box.TransformableBox? then 1 else 0)
  }

  /** The counters of some boxes: as many boxes as there are, no groups or tiles. */
  function BoxesStats(boxes: seq<P.ParsedBox>): (s: Stats)
    ensures Plausible(s) && s.groups == 0 && s.tiles == 0 && s.boxes == |boxes|
    decreases |boxes|
  {
    if boxes == [] then Stats(0, 0, 0, 0) else Plus(BoxesStats(boxes[..|boxes| - 1]), BoxStats(boxes[|boxes| - 1]))
  }

  /** What one tile adds: a tile and its boxes. */
  function TileStats(tile: P.ParsedTile): Stats
  {
    Plus(Stats(0, 1, 0, 0), BoxesStats(tile.boxes))
  }

  /** The counters of some tiles: as many tiles as there are, and no groups. */
  function TilesStats(tiles: seq<P.ParsedTile>): (s: Stats)
    ensures Plausible(s) && s.groups == 0 && s.tiles == |tiles|
    decreases |tiles|
  {
    if tiles == [] then Stats(0, 0, 0, 0) else Plus(TilesStats(tiles[..|tiles| - 1]), TileStats(tiles[|tiles| - 1]))
  }

  /**
   * The counters of a group and all its descendants: at least the group
   * itself, and the transformable boxes are among the boxes.
   */
  function StatsOf(g: P.Group): (s: Stats)
    ensures Plausible(s) && s.groups >= 1
    decreases g, |g.children| + 1
  {
    Plus(Plus(Stats(1, 0, 0, 0), TilesStats(g.tiles)), ChildrenStats(g, |g.children|))
  }

  /** The counters of the first k children and their descendants: at least k groups. */
  function ChildrenStats(g: P.Group, k: nat): (s: Stats)
    requires k <= |g.children|
    ensures Plausible(s) && s.groups >= k
    decreases g, k
  {
    if k == 0 then Stats(0, 0, 0, 0) else Plus(ChildrenStats(g, k - 1), StatsOf(g.children[k - 1]))
  }

  /**
   * countGroupStats: one group, then a tile and its boxes for every tile,
   * then the counters of every child added in.
   */
  method CountGroupStats(group: P.Group) returns (out: Stats)
    ensures out == StatsOf(group)
    decreases group, 1
  {
    out := Stats(1, 0, 0, 0);
    for i := 0 to |group.tiles|
      invariant out == Plus(Stats(1, 0, 0, 0), TilesStats(group.tiles[..i]))
    {
      out := CountTile(out, group.tiles[i]);
      assert group.tiles[..i + 1][..i] == group.tiles[..i];
    }
    assert group.tiles[..|group.tiles|] == group.tiles;
    out := CountChildren(group, out);
  }

  /** The loop over the children: the counters of every child added in. */
  method CountChildren(group: P.Group, acc: Stats) returns (out: Stats)
    ensures out == Plus(acc, ChildrenStats(group, |group.children|))
    decreases group, 0
  {
    out := acc;
    for i := 0 to |group.children|
      invariant out.groups == acc.groups + ChildrenStats(group, i).groups
      invariant out.tiles == acc.tiles + ChildrenStats(group, i).tiles
      invariant out.boxes == acc.boxes + ChildrenStats(group, i).boxes
      invariant out.transformableBoxes == acc.transformableBoxes + ChildrenStats(group, i).transformableBoxes
    {
      var nested := CountGroupStats(group.children[i]);
      out := Stats(out.groups + nested.groups, out.tiles + nested.tiles, out.boxes + nested.boxes,
                   out.transformableBoxes + nested.transformableBoxes);
    }
  }

  /** The loop body over one tile: the tile, then each box, and each transformable box. */
  method CountTile(acc: Stats, tile: P.ParsedTile) returns (out: Stats)
    ensures out == Plus(acc, TileStats(tile))
  {
    out := acc.(tiles := acc.tiles + 1);
    for j := 0 to |tile.boxes|
      invariant out.groups == acc.groups && out.tiles == acc.tiles + 1 && out.boxes == acc.boxes + j
      invariant out.transformableBoxes == acc.transformableBoxes + BoxesStats(tile.boxes[..j]).transformableBoxes
    {
      ghost var seen := tile.boxes[..j + 1];
      assert seen[..j] == tile.boxes[..j] && seen[j] == tile.boxes[j];
      out := out.(boxes := out.boxes + 1);
      if tile.boxes[j].TransformableBox? {
        out := out.(transformableBoxes := out.transformableBoxes + 1);
      }
    }
    assert tile.boxes[..|tile.boxes|] == tile.boxes;
  }

  lemma {:induction false} TilesStatsBoxes(tiles: seq<P.ParsedTile>)
    ensures TilesStats(tiles).boxes == |P.TilesFlatBoxes(tiles)|
    decreases |tiles|
  {
    if tiles != [] {
      TilesStatsBoxes(tiles[..|tiles| - 1]);
    }
  }

  /** The box counter agrees with the flat box list the parser builds for the same structure. */
  lemma {:induction false} StatsBoxesAreFlatBoxes(g: P.Group)
    ensures StatsOf(g).boxes == |P.FlatBoxes(g)|
    decreases g, |g.children| + 1
  {
    TilesStatsBoxes(g.tiles);
    ChildrenStatsBoxes(g, |g.children|);
  }

  lemma {:induction false} ChildrenStatsBoxes(g: P.Group, k: nat)
    requires k <= |g.children|
    ensures ChildrenStats(g, k).boxes == |P.ChildrenFlatBoxes(g, k)|
    decreases g, k
  {
    if k > 0 {
      ChildrenStatsBoxes(g, k - 1);
      StatsBoxesAreFlatBoxes(g.children[k - 1]);
    }
  }

  // ---------------------------------------------------------------------------
  // Removing null-valued keys
  // ---------------------------------------------------------------------------

  /**
   * sanitizeNullableKeys: arrays element by element, objects without their
   * null-valued keys and with every kept value sanitised, anything else
   * as it is.
   */
  function SanitizeNullableKeys(v: Json): (r: Json)
    ensures !v.JArr? && !v.JObj? ==> r == v
    ensures v.JArr? <==> r.JArr?
    ensures v.JArr? ==> |r.items| == |v.items|
    ensures v.JObj? <==> r.JObj?
    ensures v.JObj? ==> forall k :: k in r.fields <==> k in v.fields && v.fields[k] != JNull
    decreases v
  {
    match v
    case JArr(items) => JArr(seq(|items|, i requires 0 <= i < |items| => SanitizeNullableKeys(items[i])))
    case JObj(fields) => JObj(map k | k in fields && fields[k] != JNull :: SanitizeNullableKeys(fields[k]))
    case _ => v
  }

  /** No object, at any depth, has a null-valued key. */
  predicate NullFree(v: Json)
    decreases v
  {
    match v
    case JArr(items) => forall i :: 0 <= i < |items| ==> NullFree(items[i])
    case JObj(fields) => forall k :: k in fields ==> fields[k] != JNull && NullFree(fields[k])
    case _ => true
  }

  /** The sanitised value has no null-valued key at any depth. */
  lemma {:induction false} SanitizedIsNullFree(v: Json)
    ensures NullFree(SanitizeNullableKeys(v))
    decreases v
  {
    match v
    case JArr(items) =>
      forall i | 0 <= i < |items| ensures NullFree(SanitizeNullableKeys(items[i])) {
        SanitizedIsNullFree(items[i]);
      }
    case JObj(fields) =>
      var r := SanitizeNullableKeys(v);
      forall k | k in r.fields ensures r.fields[k] != JNull && NullFree(r.fields[k]) {
        SanitizedIsNullFree(fields[k]);
        assert r.fields[k] == SanitizeNullableKeys(fields[k]);
      }
    case _ =>
  }

  /** A value without null-valued keys is left exactly as it is. */
  lemma {:induction false} SanitizeKeepsNullFree(v: Json)
    requires NullFree(v)
    ensures SanitizeNullableKeys(v) == v
    decreases v
  {
    match v
    case JArr(items) =>
      var r := SanitizeNullableKeys(v);
      forall i | 0 <= i < |items| ensures r.items[i] == items[i] {
        SanitizeKeepsNullFree(items[i]);
      }
      assert r.items == items;
    case JObj(fields) =>
      var r := SanitizeNullableKeys(v);
      forall k | k in fields ensures k in r.fields && r.fields[k] == fields[k] {
        SanitizeKeepsNullFree(fields[k]);
      }
      assert r.fields == fields;
    case _ =>
  }

  /** Sanitising twice is sanitising once. */
  lemma SanitizeIdempotent(v: Json)
    ensures SanitizeNullableKeys(SanitizeNullableKeys(v)) == SanitizeNullableKeys(v)
  {
    SanitizedIsNullFree(v);
    SanitizeKeepsNullFree(SanitizeNullableKeys(v));
  }

  // ---------------------------------------------------------------------------
  // firstDiff
  // ---------------------------------------------------------------------------

  /** A reported difference: where, and the two values found there. */
  datatype DiffAt = DiffAt(path: string, a: Json, b: Json)

  /** `value !== null && typeof value === 'object'`: arrays and objects. */
  predicate IsContainer(v: Json)
  {
    v.JArr? || v.JObj?
  }

  lemma StringLessEqAntisymmetric()
    ensures forall a, b :: StringLessEq(a, b) && StringLessEq(b, a) ==> a == b
  {
    forall a, b | StringLessEq(a, b) && StringLessEq(b, a) ensures a == b {
      StringLessTrichotomy(a, b);
    }
  }

  lemma {:induction false} LeastKeyExists(keys: set<string>)
    requires keys != {}
    ensures exists m :: m in keys && forall k :: k in keys ==> StringLessEq(m, k)
    decreases |keys|
  {
    var x :| x in keys;
    if keys != {x} {
      LeastKeyExists(keys - {x});
      var m :| m in keys - {x} && forall k :: k in keys - {x} ==> StringLessEq(m, k);
      LeastKeyInsert(keys, x, m);
    } else {
      assert forall k :: k in keys ==> k == x;
    }
  }

  /** The least of the other keys, or the added key when it is below that one, is least of all. */
  lemma LeastKeyInsert(keys: set<string>, x: string, m: string)
    requires x in keys && m in keys - {x} && forall k :: k in keys - {x} ==> StringLessEq(m, k)
    ensures exists l :: l in keys && forall k :: k in keys ==> StringLessEq(l, k)
  {
    StringLessTrichotomy(m, x);
    if StringLess(x, m) {
      forall k | k in keys ensures StringLessEq(x, k) {
        if k != x {
          assert k in keys - {x};
          if StringLess(m, k) {
            StringLessTransitive(x, m, k);
          }
        }
      }
    } else {
      assert forall k :: k in keys ==> StringLessEq(m, k) by {
        forall k | k in keys ensures StringLessEq(m, k) {
          if k != x {
            assert k in keys - {x};
          }
        }
      }
    }
  }

  /** Object.keys(value).sort(): the keys, each once, in ascending order. */
  function SortedKeys(keys: set<string>): (r: seq<string>)
    ensures forall k :: k in r <==> k in keys
    ensures forall i, j :: 0 <= i < j < |r| ==> StringLess(r[i], r[j])
    decreases |keys|
  {
    if keys == {} then []
    else
      LeastKeyExists(keys);
      StringLessEqAntisymmetric();
      var m :| m in keys && forall k :: k in keys ==> StringLessEq(m, k);
      var rest := SortedKeys(keys - {m});
      assert forall j :: 0 <= j < |rest| ==> StringLess(m, rest[j]) by {
        forall j | 0 <= j < |rest| ensures StringLess(m, rest[j]) {
          assert rest[j] in keys - {m};
        }
      }
      [m] + rest
  }

  /** The sorted key list, as the items the report shows. */
  function KeysJson(keys: seq<string>): (r: seq<Json>)
    ensures |r| == |keys|
  {
    seq(|keys|, i requires 0 <= i < |keys| => JStr(keys[i]))
  }

  /**
   * firstDiff: null when the two values are the same leaf; the path itself
   * when either is a leaf or only one is an items; `.length` when two
   * arrays differ in length and ` keys` when two objects differ in their
   * sorted keys; otherwise the first difference among the elements, in
   * index order, or among the values, in sorted-key order.
   */
  function FirstDiff(a: Json, b: Json, path: string): Option<DiffAt>
    decreases a
  {
    if !IsContainer(a) || !IsContainer(b) then
      if a == b then None else Some(DiffAt(path, a, b))
    else if a.JArr? != b.JArr? then Some(DiffAt(path, a, b))
    else if a.JArr? then
      if |a.items| != |b.items| then Some(DiffAt(path + ".length", JNum(|a.items| as real), JNum(|b.items| as real)))
      else ItemsDiff(a.items, b.items, path, 0, a)
    else
      var aKeys := SortedKeys(a.fields.Keys);
      var bKeys := SortedKeys(b.fields.Keys);
      if aKeys != bKeys then Some(DiffAt(path + " keys", JArr(KeysJson(aKeys)), JArr(KeysJson(bKeys))))
      else FieldsDiff(a.fields, b.fields, aKeys, 0, path, a)
  }

  /** The path of an items element: `path[i]`. */
  function IndexPath(path: string, i: nat): string
  {
    path + "[" + NatToString(i) + "]"
  }

  /** The path of an object value: `path.key`. */
  function KeyPath(path: string, key: string): string
  {
    path + "." + key
  }

  /** The first difference among the elements from index i on. */
  function ItemsDiff(xs: seq<Json>, ys: seq<Json>, path: string, i: nat, ghost parent: Json): Option<DiffAt>
    requires |xs| == |ys| && i <= |xs|
    requires forall j :: 0 <= j < |xs| ==> xs[j] < parent
    decreases parent, |xs| - i
  {
    if i == |xs| then None
    else
      var d := FirstDiff(xs[i], ys[i], IndexPath(path, i));
      if d.Some? then d else ItemsDiff(xs, ys, path, i + 1, parent)
  }

  /** The first difference among the values of the keys from position i on. */
  function FieldsDiff(am: map<string, Json>, bm: map<string, Json>, keys: seq<string>, i: nat, path: string, ghost parent: Json): Option<DiffAt>
    requires i <= |keys|
    requires forall k :: k in keys ==> k in am && k in bm
    requires forall k :: k in am ==> am[k] < parent
    decreases parent, |keys| - i
  {
    if i == |keys| then None
    else
      var d := FirstDiff(am[keys[i]], bm[keys[i]], KeyPath(path, keys[i]));
      if d.Some? then d else FieldsDiff(am, bm, keys, i + 1, path, parent)
  }

  /** firstDiff reports nothing exactly when the two values are equal. */
  lemma {:induction false} FirstDiffNoneIff(a: Json, b: Json, path: string)
    ensures FirstDiff(a, b, path).None? <==> a == b
    decreases a
  {
    if IsContainer(a) && IsContainer(b) && a.JArr? == b.JArr? {
      if a.JArr? {
        if |a.items| == |b.items| {
          ItemsDiffNoneIff(a.items, b.items, path, 0, a);
          assert a.items[0..] == a.items && b.items[0..] == b.items;
        }
      } else {
        var aKeys := SortedKeys(a.fields.Keys);
        if aKeys == SortedKeys(b.fields.Keys) {
          assert a.fields.Keys == b.fields.Keys;
          FieldsDiffNoneIff(a.fields, b.fields, aKeys, 0, path, a);
          if FirstDiff(a, b, path).None? {
            assert forall k :: k in a.fields ==> a.fields[k] == b.fields[k] by {
              forall k | k in a.fields ensures a.fields[k] == b.fields[k] {
                var j :| 0 <= j < |aKeys| && aKeys[j] == k;
              }
            }
            assert a.fields == b.fields;
          }
        } else if a == b {
          assert false;
        }
      }
    }
  }

  lemma {:induction false} ItemsDiffNoneIff(xs: seq<Json>, ys: seq<Json>, path: string, i: nat, parent: Json)
    requires |xs| == |ys| && i <= |xs|
    requires forall j :: 0 <= j < |xs| ==> xs[j] < parent
    ensures ItemsDiff(xs, ys, path, i, parent).None? <==> xs[i..] == ys[i..]
    decreases parent, |xs| - i
  {
    if i < |xs| {
      FirstDiffNoneIff(xs[i], ys[i], IndexPath(path, i));
      ItemsDiffNoneIff(xs, ys, path, i + 1, parent);
      assert xs[i..] == [xs[i]] + xs[i + 1..] && ys[i..] == [ys[i]] + ys[i + 1..];
    }
  }

  lemma {:induction false} FieldsDiffNoneIff(am: map<string, Json>, bm: map<string, Json>, keys: seq<string>, i: nat, path: string, parent: Json)
    requires i <= |keys|
    requires forall k :: k in keys ==> k in am && k in bm
    requires forall k :: k in am ==> am[k] < parent
    ensures FieldsDiff(am, bm, keys, i, path, parent).None? <==> forall j :: i <= j < |keys| ==> am[keys[j]] == bm[keys[j]]
    decreases parent, |keys| - i
  {
    if i < |keys| {
      FirstDiffNoneIff(am[keys[i]], bm[keys[i]], KeyPath(path, keys[i]));
      FieldsDiffNoneIff(am, bm, keys, i + 1, path, parent);
    }
  }

  /** A value never differs from itself. */
  lemma FirstDiffReflexive(a: Json, path: string)
    ensures FirstDiff(a, a, path).None?
  {
    FirstDiffNoneIff(a, a, path);
  }

  /**
   * The difference reported for two arrays of the same length is the one
   * of the first element pair that differs: every earlier pair is equal.
   */
  lemma {:induction false} ItemsDiffIsFirst(xs: seq<Json>, ys: seq<Json>, path: string, i: nat, parent: Json)
    requires |xs| == |ys| && i <= |xs|
    requires forall j :: 0 <= j < |xs| ==> xs[j] < parent
    requires ItemsDiff(xs, ys, path, i, parent).Some?
    ensures exists j :: i <= j < |xs| && (forall l :: i <= l < j ==> xs[l] == ys[l]) && xs[j] != ys[j]
              && ItemsDiff(xs, ys, path, i, parent) == FirstDiff(xs[j], ys[j], IndexPath(path, j))
    decreases parent, |xs| - i
  {
    var d := FirstDiff(xs[i], ys[i], IndexPath(path, i));
    FirstDiffNoneIff(xs[i], ys[i], IndexPath(path, i));
    if d.None? {
      ItemsDiffIsFirst(xs, ys, path, i + 1, parent);
    }
  }

  /**
   * The difference reported for two objects with the same keys is the one
   * of the first key, in sorted order, whose values differ: every earlier
   * key has equal values.
   */
  lemma {:induction false} FieldsDiffIsFirst(am: map<string, Json>, bm: map<string, Json>, keys: seq<string>, i: nat, path: string, parent: Json)
    requires i <= |keys|
    requires forall k :: k in keys ==> k in am && k in bm
    requires forall k :: k in am ==> am[k] < parent
    requires FieldsDiff(am, bm, keys, i, path, parent).Some?
    ensures exists j :: i <= j < |keys| && (forall l :: i <= l < j ==> am[keys[l]] == bm[keys[l]]) && am[keys[j]] != bm[keys[j]]
              && FieldsDiff(am, bm, keys, i, path, parent) == FirstDiff(am[keys[j]], bm[keys[j]], KeyPath(path, keys[j]))
    decreases parent, |keys| - i
  {
    var d := FirstDiff(am[keys[i]], bm[keys[i]], KeyPath(path, keys[i]));
    FirstDiffNoneIff(am[keys[i]], bm[keys[i]], KeyPath(path, keys[i]));
    if d.None? {
      FieldsDiffIsFirst(am, bm, keys, i + 1, path, parent);
    }
  }

  // ---------------------------------------------------------------------------
  // Canonical order
  // ---------------------------------------------------------------------------

  /**
   * JSON.stringify, whose text orders the canonical lists
   * (compareCanonical). Json objects do not keep their key order, so the
   * text is a parameter of the canonicalisers.
   */
  type Text = Json -> string

  /** Distinct values have distinct texts. */
  ghost predicate Injective(text: Text)
  {
    forall a, b :: text(a) == text(b) ==> a == b
  }

  /** No element's text is below the text of an element before it. */
  predicate SortedByText(text: Text, xs: seq<Json>)
  {
    forall i, j :: 0 <= i < j < |xs| ==> !StringLess(text(xs[j]), text(xs[i]))
  }

  /** Inserting before the first element whose text is not below the new one's. */
  function InsertByText(text: Text, x: Json, xs: seq<Json>): (r: seq<Json>)
    ensures multiset(r) == multiset(xs) + multiset{x}
    ensures forall y :: y in r <==> y in xs || y == x
    decreases |xs|
  {
    if xs == [] then [x]
    else if StringLess(text(xs[0]), text(x)) then
      assert xs == [xs[0]] + xs[1..];
      [xs[0]] + InsertByText(text, x, xs[1..])
    else [x] + xs
  }

  /** Array.prototype.sort(compareCanonical): a stable sort by text. */
  function SortByText(text: Text, xs: seq<Json>): (r: seq<Json>)
    ensures multiset(r) == multiset(xs)
    decreases |xs|
  {
    if xs == [] then []
    else
      assert xs == [xs[0]] + xs[1..];
      InsertByText(text, xs[0], SortByText(text, xs[1..]))
  }

  lemma SortedByTextCons(text: Text, x: Json, xs: seq<Json>)
    requires forall y :: y in xs ==> !StringLess(text(y), text(x))
    requires SortedByText(text, xs)
    ensures SortedByText(text, [x] + xs)
  {
    var r := [x] + xs;
    forall i, j | 0 <= i < j < |r| ensures !StringLess(text(r[j]), text(r[i])) {
      assert r[j] == xs[j - 1];
      if i > 0 {
        assert r[i] == xs[i - 1];
      }
    }
  }

  lemma SortedByTextTail(text: Text, xs: seq<Json>)
    requires SortedByText(text, xs) && xs != []
    ensures forall y :: y in xs[1..] ==> !StringLess(text(y), text(xs[0]))
    ensures SortedByText(text, xs[1..])
  {
    forall y | y in xs[1..] ensures !StringLess(text(y), text(xs[0])) {
      var k :| 0 <= k < |xs[1..]| && xs[1..][k] == y;
      assert xs[k + 1] == y;
    }
  }

  lemma {:induction false} InsertByTextSorted(text: Text, x: Json, xs: seq<Json>)
    requires SortedByText(text, xs)
    ensures SortedByText(text, InsertByText(text, x, xs))
    decreases |xs|
  {
    if xs == [] {
    } else if StringLess(text(xs[0]), text(x)) {
      SortedByTextTail(text, xs);
      InsertByTextSorted(text, x, xs[1..]);
      StringLessTrichotomy(text(xs[0]), text(x));
      SortedByTextCons(text, xs[0], InsertByText(text, x, xs[1..]));
    } else {
      forall y | y in xs ensures !StringLess(text(y), text(x)) {
        var k :| 0 <= k < |xs| && xs[k] == y;
        StringLessTrichotomy(text(x), text(xs[0]));
        StringLessTrichotomy(text(xs[0]), text(y));
        if k > 0 && StringLess(text(y), text(x)) {
          if StringLess(text(y), text(xs[0])) {
          } else if text(y) == text(xs[0]) {
          } else {
            StringLessTransitive(text(xs[0]), text(y), text(x));
          }
        }
      }
      SortedByTextCons(text, x, xs);
    }
  }

  /** The sorted list is ordered by text and holds the same elements as often. */
  lemma {:induction false} SortByTextSpec(text: Text, xs: seq<Json>)
    ensures SortedByText(text, SortByText(text, xs))
    ensures multiset(SortByText(text, xs)) == multiset(xs)
    decreases |xs|
  {
    if xs != [] {
      SortByTextSpec(text, xs[1..]);
      InsertByTextSorted(text, xs[0], SortByText(text, xs[1..]));
    }
  }

  /** Two lists sorted by an injective text that hold the same elements are the same list. */
  lemma {:induction false} SortedByTextUnique(text: Text, a: seq<Json>, b: seq<Json>)
    requires Injective(text)
    requires SortedByText(text, a) && SortedByText(text, b) && multiset(a) == multiset(b)
    ensures a == b
    decreases |a|
  {
    assert |a| == |multiset(a)| == |multiset(b)| == |b|;
    if a != [] {
      SortedHeadsEqual(text, a, b);
      TailsPermutation(a, b);
      SortedByTextTail(text, a);
      SortedByTextTail(text, b);
      SortedByTextUnique(text, a[1..], b[1..]);
      assert a == [a[0]] + a[1..] && b == [b[0]] + b[1..];
    }
  }

  lemma SortedHeadsEqual(text: Text, a: seq<Json>, b: seq<Json>)
    requires Injective(text)
    requires SortedByText(text, a) && SortedByText(text, b) && multiset(a) == multiset(b)
    requires a != [] && b != []
    ensures a[0] == b[0]
  {
    HeadNotAbove(text, a, b[0]);
    HeadNotAbove(text, b, a[0]);
    StringLessTrichotomy(text(a[0]), text(b[0]));
  }

  lemma TailsPermutation<A>(a: seq<A>, b: seq<A>)
    requires multiset(a) == multiset(b) && a != [] && b != [] && a[0] == b[0]
    ensures multiset(a[1..]) == multiset(b[1..])
  {
    assert a == [a[0]] + a[1..];
    assert b == [b[0]] + b[1..];
    forall z ensures multiset(a[1..])[z] == multiset(b[1..])[z] {
      assert multiset(a)[z] == multiset([a[0]])[z] + multiset(a[1..])[z];
      assert multiset(b)[z] == multiset([a[0]])[z] + multiset(b[1..])[z];
    }
  }

  /** No element of a sorted list has a text below the text of its head. */
  lemma HeadNotAbove(text: Text, xs: seq<Json>, y: Json)
    requires SortedByText(text, xs) && y in multiset(xs)
    ensures !StringLess(text(y), text(xs[0]))
  {
    assert y in xs;
    var k :| 0 <= k < |xs| && xs[k] == y;
    StringLessTrichotomy(text(y), text(y));
    if k > 0 {
      assert !StringLess(text(xs[k]), text(xs[0]));
    }
  }

  /** With an injective text, the sorted list does not depend on the order of its input. */
  lemma SortByTextOrderFree(text: Text, xs: seq<Json>, ys: seq<Json>)
    requires Injective(text) && multiset(xs) == multiset(ys)
    ensures SortByText(text, xs) == SortByText(text, ys)
  {
    SortByTextSpec(text, xs);
    SortByTextSpec(text, ys);
    SortedByTextUnique(text, SortByText(text, xs), SortByText(text, ys));
  }

  /** Array.prototype.map. */
  function MapSeq<A, B>(f: A -> B, xs: seq<A>): (r: seq<B>)
    ensures |r| == |xs| && forall i :: 0 <= i < |xs| ==> r[i] == f(xs[i])
  {
    seq(|xs|, i requires 0 <= i < |xs| => f(xs[i]))
  }

  /** Mapping two orderings of the same elements gives two orderings of the same results. */
  lemma {:induction false} MapSeqPermutation<A, B>(f: A -> B, xs: seq<A>, ys: seq<A>)
    requires multiset(xs) == multiset(ys)
    ensures multiset(MapSeq(f, xs)) == multiset(MapSeq(f, ys))
    decreases |xs|
  {
    assert |xs| == |multiset(xs)| == |multiset(ys)| == |ys|;
    if xs != [] {
      assert xs[0] in multiset(ys);
      var k :| 0 <= k < |ys| && ys[k] == xs[0];
      PermRemove(xs, ys, k);
      MapSeqPermutation(f, xs[1..], ys[..k] + ys[k + 1..]);
      MapSeqStep(f, xs, ys, k);
    }
  }

  lemma MapSeqStep<A, B>(f: A -> B, xs: seq<A>, ys: seq<A>, k: nat)
    requires xs != [] && k < |ys| && ys[k] == xs[0]
    requires multiset(MapSeq(f, xs[1..])) == multiset(MapSeq(f, ys[..k] + ys[k + 1..]))
    ensures multiset(MapSeq(f, xs)) == multiset(MapSeq(f, ys))
  {
    MapSeqSplitAt(f, ys, k);
    MapSeqHead(f, xs);
  }

  lemma MapSeqHead<A, B>(f: A -> B, xs: seq<A>)
    requires xs != []
    ensures multiset(MapSeq(f, xs)) == multiset(MapSeq(f, xs[1..])) + multiset{f(xs[0])}
  {
    var m := MapSeq(f, xs);
    assert m == [m[0]] + MapSeq(f, xs[1..]);
  }

  lemma MapSeqSplitAt<A, B>(f: A -> B, ys: seq<A>, k: nat)
    requires k < |ys|
    ensures multiset(MapSeq(f, ys)) == multiset(MapSeq(f, ys[..k] + ys[k + 1..])) + multiset{f(ys[k])}
  {
    var m := MapSeq(f, ys);
    SplitAt(m, k);
    assert m[..k] + m[k + 1..] == MapSeq(f, ys[..k] + ys[k + 1..]);
  }

  /** Removing the same element from two orderings of the same elements leaves two orderings of the rest. */
  lemma PermRemove<A>(xs: seq<A>, ys: seq<A>, k: nat)
    requires multiset(xs) == multiset(ys) && xs != [] && k < |ys| && ys[k] == xs[0]
    ensures multiset(xs[1..]) == multiset(ys[..k] + ys[k + 1..])
  {
    SplitAt(ys, k);
    SplitAt(xs, 0);
    assert xs[..0] + xs[1..] == xs[1..];
    Cancel(multiset(xs[1..]), multiset(ys[..k] + ys[k + 1..]), xs[0]);
  }

  lemma Cancel<A>(p: multiset<A>, q: multiset<A>, x: A)
    requires p + multiset{x} == q + multiset{x}
    ensures p == q
  {
    forall z ensures p[z] == q[z] {
      assert (p + multiset{x})[z] == (q + multiset{x})[z];
    }
  }

  lemma SplitAt<A>(ys: seq<A>, k: nat)
    requires k < |ys|
    ensures multiset(ys) == multiset(ys[..k] + ys[k + 1..]) + multiset{ys[k]}
  {
    assert ys == ys[..k] + [ys[k]] + ys[k + 1..];
  }

  // ---------------------------------------------------------------------------
  // Canonical trees of a parsed structure
  // ---------------------------------------------------------------------------

  function Num(n: int): Json
  {
    JNum(n as real)
  }

  function Ints(xs: seq<int>): (r: seq<Json>)
    ensures |r| == |xs|
  {
    seq(|xs|, i requires 0 <= i < |xs| => Num(xs[i]))
  }

  function BoundsItems(b: P.Bounds): (r: seq<Json>)
    ensures |r| == 6
  {
    [Num(b.minX), Num(b.minY), Num(b.minZ), Num(b.maxX), Num(b.maxY), Num(b.maxZ)]
  }

  /** The canonical record of a parsed box: kind, the six bounds and its items. */
  function CanonicalParsedBox(box: P.ParsedBox): (r: Json)
    ensures r.JObj? && "array" in r.fields && r.fields["array"].JArr?
    ensures var items := r.fields["array"].items;
            && |items| >= 6 && items[..6] == BoundsItems(box.bounds)
            && (box.TransformableBox? ==> items[6..] == Ints(box.transformData))
            && (box.AabbBox? ==> |items| == 6)
    ensures NullFree(r)
  {
    var b := box.bounds;
    var items := if box.TransformableBox? then BoundsItems(b) + Ints(box.transformData) else BoundsItems(b);
    assert items[..6] == BoundsItems(b);
    JObj(map["kind" := JStr(if box.TransformableBox? then "transformable" else "aabb"),
             "minX" := Num(b.minX), "minY" := Num(b.minY), "minZ" := Num(b.minZ),
             "maxX" := Num(b.maxX), "maxY" := Num(b.maxY), "maxZ" := Num(b.maxZ),
             "array" := JArr(items)])
  }

  /** The canonical record of a parsed tile: block state, colour, and its boxes sorted by text. */
  function CanonicalParsedTile(text: Text, tile: P.ParsedTile): Json
  {
    JObj(map["blockState" := JStr(tile.blockState), "color" := Num(tile.color),
             "boxes" := JArr(SortByText(text, MapSeq(CanonicalParsedBox, tile.boxes)))])
  }

  function StructureIdJson(sid: Option<string>): (r: Json)
    ensures r == JNull <==> sid.None?
  {
    if sid.Some? then JStr(sid.value) else JNull
  }

  /**
   * canonicalGroupFromParsed: the grid, the structure id (absent when
   * there is none), the canonical tiles and the canonical children, each
   * list sorted by text.
   */
  function CanonicalGroupFromParsed(text: Text, g: P.Group): (r: Json)
    ensures r.JObj?
    ensures "structureId" in r.fields <==> g.structureId.Some?
    ensures "grid" in r.fields && "tiles" in r.fields && "children" in r.fields
    decreases g, 1
  {
    var tiles := SortByText(text, CanonicalTiles(text, g.tiles));
    var children := SortByText(text, CanonicalGroups(text, g.children, g));
    GroupRecord(Num(g.grid), StructureIdJson(g.structureId), tiles, children)
  }

  /** The canonical records of some tiles, in their order. */
  function CanonicalTiles(text: Text, tiles: seq<P.ParsedTile>): (r: seq<Json>)
    ensures |r| == |tiles| && forall i :: 0 <= i < |tiles| ==> r[i] == CanonicalParsedTile(text, tiles[i])
  {
    seq(|tiles|, i requires 0 <= i < |tiles| => CanonicalParsedTile(text, tiles[i]))
  }

  /** The canonical trees of some child groups of parent, in their order. */
  function CanonicalGroups(text: Text, gs: seq<P.Group>, ghost parent: P.Group): (r: seq<Json>)
    requires forall j :: 0 <= j < |gs| ==> gs[j] < parent
    ensures |r| == |gs| && forall i :: 0 <= i < |gs| ==> r[i] == CanonicalGroupFromParsed(text, gs[i])
    decreases parent, 0
  {
    seq(|gs|, i requires 0 <= i < |gs| => CanonicalGroupFromParsed(text, gs[i]))
  }

  /** The sanitized group record: a null structure id drops its key. */
  function GroupRecord(grid: Json, sid: Json, tiles: seq<Json>, children: seq<Json>): (r: Json)
    requires grid != JNull
    ensures r.JObj? && "grid" in r.fields && "tiles" in r.fields && "children" in r.fields
    ensures "structureId" in r.fields <==> sid != JNull
  {
    var fields := map["grid" := grid, "structureId" := sid, "tiles" := JArr(tiles), "children" := JArr(children)];
    assert fields["grid"] != JNull && fields["tiles"] != JNull && fields["children"] != JNull;
    SanitizeNullableKeys(JObj(fields))
  }

  /** The canonical tile does not depend on the order of the tile's boxes. */
  lemma CanonicalTileBoxOrderFree(text: Text, tile: P.ParsedTile, boxes: seq<P.ParsedBox>)
    requires Injective(text) && multiset(boxes) == multiset(tile.boxes)
    ensures CanonicalParsedTile(text, tile.(boxes := boxes)) == CanonicalParsedTile(text, tile)
  {
    MapSeqPermutation(CanonicalParsedBox, boxes, tile.boxes);
    SortByTextOrderFree(text, MapSeq(CanonicalParsedBox, boxes), MapSeq(CanonicalParsedBox, tile.boxes));
  }

  /**
   * The canonical group does not depend on the order of the group's tiles
   * or of its children: lists that hold the same elements give the same tree.
   */
  lemma CanonicalGroupOrderFree(text: Text, g: P.Group, tiles: seq<P.ParsedTile>, children: seq<P.Group>)
    requires Injective(text) && multiset(tiles) == multiset(g.tiles) && multiset(children) == multiset(g.children)
    ensures CanonicalGroupFromParsed(text, g.(tiles := tiles, children := children)) == CanonicalGroupFromParsed(text, g)
  {
    var h := g.(tiles := tiles, children := children);
    CanonicalTilesOrderFree(text, tiles, g.tiles);
    CanonicalGroupsOrderFree(text, children, h, g.children, g);
  }

  lemma CanonicalTilesOrderFree(text: Text, a: seq<P.ParsedTile>, b: seq<P.ParsedTile>)
    requires Injective(text) && multiset(a) == multiset(b)
    ensures SortByText(text, CanonicalTiles(text, a)) == SortByText(text, CanonicalTiles(text, b))
  {
    var tileOf := (t: P.ParsedTile) => CanonicalParsedTile(text, t);
    assert CanonicalTiles(text, a) == MapSeq(tileOf, a);
    assert CanonicalTiles(text, b) == MapSeq(tileOf, b);
    MapSeqPermutation(tileOf, a, b);
    SortByTextOrderFree(text, CanonicalTiles(text, a), CanonicalTiles(text, b));
  }

  lemma CanonicalGroupsOrderFree(text: Text, a: seq<P.Group>, pa: P.Group, b: seq<P.Group>, pb: P.Group)
    requires forall j :: 0 <= j < |a| ==> a[j] < pa
    requires forall j :: 0 <= j < |b| ==> b[j] < pb
    requires Injective(text) && multiset(a) == multiset(b)
    ensures SortByText(text, CanonicalGroups(text, a, pa)) == SortByText(text, CanonicalGroups(text, b, pb))
  {
    var groupOf := (c: P.Group) => CanonicalGroupFromParsed(text, c);
    assert CanonicalGroups(text, a, pa) == MapSeq(groupOf, a);
    assert CanonicalGroups(text, b, pb) == MapSeq(groupOf, b);
    MapSeqPermutation(groupOf, a, b);
    SortByTextOrderFree(text, CanonicalGroups(text, a, pa), CanonicalGroups(text, b, pb));
  }

  // ---------------------------------------------------------------------------
  // Canonical trees of a debug export
  // ---------------------------------------------------------------------------

  /** The failure of the JavaScript code: a TypeError from reading a field of null or mapping a non-items. */
  datatype CanonError = TypeError

  /** (value ?? []) as the receiver of .map: an items's elements, nothing for a missing or null value, a TypeError otherwise. */
  function MapItems(v: Option<Json>): (r: Result<seq<Json>, CanonError>)
    ensures IsNullish(v) ==> r == Ok([])
    ensures r.Ok? && !IsNullish(v) <==> v.Some? && v.value.JArr?
  {
    if IsNullish(v) then Ok([]) else if v.value.JArr? then Ok(v.value.items) else Err(TypeError)
  }

  /** An object literal field: a missing value leaves the key out, as JSON.stringify and Object.entries do. */
  function Put(m: map<string, Json>, key: string, v: Option<Json>): map<string, Json>
  {
    if v.Some? then m[key := v.value] else m
  }

  /**
   * An object literal copying some fields: a missing value leaves its key
   * out, as JSON.stringify and Object.entries do.
   */
  function CopiedFields(v: Json, keys: set<string>): (m: map<string, Json>)
    ensures m.Keys == set key | key in keys && Get(v, key).Some?
    ensures forall key :: key in m ==> m[key] == Get(v, key).value
  {
    map key | key in keys && Get(v, key).Some? :: Get(v, key).value
  }

  /** The fields a debug box record copies besides its array. */
  const DEBUG_BOX_KEYS: set<string> := {"kind", "minX", "minY", "minZ", "maxX", "maxY", "maxZ"}

  /**
   * The canonical record of a debug box: its kind and six bounds copied as
   * they are (a missing one left out), and a copy of its exported array, or
   * an empty array when it has none. Reading a field of a null box throws.
   */
  function CanonicalDebugBox(box: Json): (r: Result<Json, CanonError>)
    ensures r.Ok? <==> box != JNull
    ensures r.Ok? ==> r.value.JObj? && "array" in r.value.fields && r.value.fields["array"].JArr?
    ensures r.Ok? ==> r.value.fields.Keys == {"array"} + set key | key in DEBUG_BOX_KEYS && Get(box, key).Some?
    ensures r.Ok? ==> forall key :: key in DEBUG_BOX_KEYS && Get(box, key).Some? ==> r.value.fields[key] == Get(box, key).value
    ensures r.Ok? ==> r.value.fields["array"] == (if Get(box, "array").Some? && Get(box, "array").value.JArr? then Get(box, "array").value else JArr([]))
  {
    if box == JNull then Err(TypeError)
    else
      var items := Get(box, "array");
      Ok(JObj(CopiedFields(box, DEBUG_BOX_KEYS)["array" := if items.Some? && items.value.JArr? then items.value else JArr([])]))
  }

  /** .map over the boxes: the canonical boxes, or the TypeError of a null box. */
  function CanonicalDebugBoxes(boxes: seq<Json>): (r: Result<seq<Json>, CanonError>)
    ensures r.Ok? <==> JNull !in boxes
    ensures r.Ok? ==> |r.value| == |boxes|
    ensures r.Ok? ==> forall i :: 0 <= i < |boxes| ==> r.value[i] == CanonicalDebugBox(boxes[i]).value
    decreases |boxes|
  {
    if boxes == [] then Ok([])
    else
      var init := CanonicalDebugBoxes(boxes[..|boxes| - 1]);
      var last := CanonicalDebugBox(boxes[|boxes| - 1]);
      assert boxes == boxes[..|boxes| - 1] + [boxes[|boxes| - 1]];
      if init.Err? || last.Err? then Err(TypeError) else Ok(init.value + [last.value])
  }

  /**
   * The canonical record of a debug tile: block state and colour copied (a
   * missing one left out) and its boxes' records sorted by text. A null
   * tile, a `boxes` that is neither missing, null nor an array, or a null
   * box throws.
   */
  function CanonicalDebugTile(text: Text, tile: Json): (r: Result<Json, CanonError>)
    ensures tile == JNull ==> r.Err?
    ensures r.Ok? <==> tile != JNull && MapItems(Get(tile, "boxes")).Ok? && JNull !in MapItems(Get(tile, "boxes")).value
    ensures r.Ok? ==> r.value.JObj? && r.value.fields.Keys <= {"blockState", "color", "boxes"}
    ensures r.Ok? ==> "boxes" in r.value.fields && r.value.fields["boxes"] == JArr(SortByText(text, CanonicalDebugBoxes(MapItems(Get(tile, "boxes")).value).value))
    ensures r.Ok? ==> forall key :: key in {"blockState", "color"} ==>
      (key in r.value.fields <==> Get(tile, key).Some?) && (Get(tile, key).Some? ==> r.value.fields[key] == Get(tile, key).value)
  {
    if tile == JNull then Err(TypeError)
    else
      var items := MapItems(Get(tile, "boxes"));
      if items.Err? then Err(TypeError)
      else
        var boxes := CanonicalDebugBoxes(items.value);
        if boxes.Err? then Err(TypeError)
        else Ok(JObj(CopiedFields(tile, {"blockState", "color"})["boxes" := JArr(SortByText(text, boxes.value))]))
  }

  /** .map over the tiles: each tile's canonical record in order, or the TypeError of any tile. */
  function CanonicalDebugTiles(text: Text, tiles: seq<Json>): (r: Result<seq<Json>, CanonError>)
    ensures r.Ok? ==> |r.value| == |tiles|
    ensures JNull in tiles ==> r.Err?
    ensures r.Ok? <==> forall i :: 0 <= i < |tiles| ==> CanonicalDebugTile(text, tiles[i]).Ok?
    ensures r.Ok? ==> forall i :: 0 <= i < |tiles| ==> r.value[i] == CanonicalDebugTile(text, tiles[i]).value
    decreases |tiles|
  {
    if tiles == [] then Ok([])
    else
      var init := CanonicalDebugTiles(text, tiles[..|tiles| - 1]);
      var last := CanonicalDebugTile(text, tiles[|tiles| - 1]);
      assert tiles == tiles[..|tiles| - 1] + [tiles[|tiles| - 1]];
      if init.Err? || last.Err? then Err(TypeError) else Ok(init.value + [last.value])
  }

  /**
   * canonicalGroupFromDebug: the same record as for a parsed group, read
   * from the debug export with optional chaining, so that a missing or null
   * group gives an empty one; null-valued keys are removed at every depth.
   */
  function CanonicalGroupFromDebug(text: Text, group: Json): (r: Result<Json, CanonError>)
    ensures r.Ok? ==> r.value.JObj? && NullFree(r.value)
    ensures MapItems(Get(group, "tiles")).Err? || MapItems(Get(group, "children")).Err? ==> r.Err?
    ensures r.Ok? ==> "tiles" in r.value.fields && "children" in r.value.fields
    ensures r.Ok? ==> r.value.fields.Keys <= {"grid", "structureId", "tiles", "children"}
    ensures r.Ok? ==> ("grid" in r.value.fields <==> Get(group, "grid").Some? && Get(group, "grid").value != JNull)
    ensures r.Ok? ==> ("structureId" in r.value.fields <==> !IsNullish(Get(group, "structureId")))
    decreases group, 1
  {
    var tileItems := MapItems(Get(group, "tiles"));
    var childItems := MapItems(Get(group, "children"));
    if tileItems.Err? || childItems.Err? then Err(TypeError)
    else
      var tiles := CanonicalDebugTiles(text, tileItems.value);
      ItemsBelow(group, "children");
      var children := CanonicalDebugChildren(text, childItems.value, group);
      if tiles.Err? || children.Err? then Err(TypeError)
      else
        var sid := Get(group, "structureId");
        Ok(DebugGroupRecord(if IsNullish(sid) then JNull else sid.value, tiles.value, children.value,
                            Get(group, "grid"), text))
  }

  /** The items read from a field of a group are smaller than the group. */
  lemma ItemsBelow(group: Json, key: string)
    ensures MapItems(Get(group, key)).Ok? ==>
              forall j :: 0 <= j < |MapItems(Get(group, key)).value| ==> MapItems(Get(group, key)).value[j] < group
  {
  }

  /** The sanitized debug group record, with both lists sorted by text. */
  function DebugGroupRecord(sid: Json, tiles: seq<Json>, children: seq<Json>, grid: Option<Json>, text: Text): (r: Json)
    ensures r.JObj? && NullFree(r) && "tiles" in r.fields && "children" in r.fields
    ensures r.fields.Keys <= {"grid", "structureId", "tiles", "children"}
    ensures "grid" in r.fields <==> grid.Some? && grid.value != JNull
    ensures "structureId" in r.fields <==> sid != JNull
  {
    var fields := DebugGroupLiteral(sid, tiles, children, grid, text);
    SanitizedIsNullFree(JObj(fields));
    SanitizeNullableKeys(JObj(fields))
  }

  /** The object literal of canonicalGroupFromDebug before sanitising. */
  function DebugGroupLiteral(sid: Json, tiles: seq<Json>, children: seq<Json>, grid: Option<Json>, text: Text): (m: map<string, Json>)
    ensures m.Keys == {"structureId", "tiles", "children"} + (if grid.Some? then {"grid"} else {})
    ensures m["tiles"] == JArr(SortByText(text, tiles)) && m["children"] == JArr(SortByText(text, children))
    ensures m["structureId"] == sid && (grid.Some? ==> m["grid"] == grid.value)
  {
    Put(map["structureId" := sid, "tiles" := JArr(SortByText(text, tiles)),
             "children" := JArr(SortByText(text, children))], "grid", grid)
  }

  /** The values of the sanitised group record: each kept field sanitised in turn. */
  lemma DebugGroupRecordValues(sid: Json, tiles: seq<Json>, children: seq<Json>, grid: Option<Json>, text: Text)
    ensures var r := DebugGroupRecord(sid, tiles, children, grid, text);
            && r.fields["tiles"] == SanitizeNullableKeys(JArr(SortByText(text, tiles)))
            && r.fields["children"] == SanitizeNullableKeys(JArr(SortByText(text, children)))
            && ("grid" in r.fields ==> r.fields["grid"] == SanitizeNullableKeys(grid.value))
            && ("structureId" in r.fields ==> r.fields["structureId"] == SanitizeNullableKeys(sid))
  {
    var fields := DebugGroupLiteral(sid, tiles, children, grid, text);
    assert DebugGroupRecord(sid, tiles, children, grid, text)
        == JObj(map k | k in fields && fields[k] != JNull :: SanitizeNullableKeys(fields[k]));
  }

  /** The canonical groups of the children, in their order, or the first TypeError. */
  function CanonicalDebugChildren(text: Text, children: seq<Json>, ghost parent: Json): (r: Result<seq<Json>, CanonError>)
    requires forall j :: 0 <= j < |children| ==> children[j] < parent
    ensures r.Ok? ==> |r.value| == |children|
    decreases parent, 0, |children|
  {
    if children == [] then Ok([])
    else
      var k := |children| - 1;
      var init := CanonicalDebugChildren(text, children[..k], parent);
      var last := CanonicalGroupFromDebug(text, children[k]);
      if init.Err? || last.Err? then Err(TypeError) else Ok(init.value + [last.value])
  }

  /** The children's list is Ok exactly when every child's group is, and holds each child's group in order. */
  lemma DebugChildrenEach(text: Text, children: seq<Json>, parent: Json)
    requires forall j :: 0 <= j < |children| ==> children[j] < parent
    ensures CanonicalDebugChildren(text, children, parent).Ok? <==>
              forall i :: 0 <= i < |children| ==> CanonicalGroupFromDebug(text, children[i]).Ok?
  {
    DebugChildrenValues(text, children, parent);
    if forall i :: 0 <= i < |children| ==> CanonicalGroupFromDebug(text, children[i]).Ok? {
      DebugChildrenOkWhenAll(text, children, parent);
    }
  }

  /** Every child having a canonical tree makes the children's list Ok. */
  lemma {:induction false} DebugChildrenOkWhenAll(text: Text, children: seq<Json>, parent: Json)
    requires forall j :: 0 <= j < |children| ==> children[j] < parent
    requires forall i :: 0 <= i < |children| ==> CanonicalGroupFromDebug(text, children[i]).Ok?
    ensures CanonicalDebugChildren(text, children, parent).Ok?
    decreases |children|
  {
    if children != [] {
      var k := |children| - 1;
      forall i | 0 <= i < k ensures CanonicalGroupFromDebug(text, children[..k][i]).Ok? {
        assert children[..k][i] == children[i];
      }
      DebugChildrenOkWhenAll(text, children[..k], parent);
      assert CanonicalGroupFromDebug(text, children[k]).Ok?;
    }
  }

  /** An Ok children's list holds each child's canonical group at the child's index. */
  lemma {:induction false} DebugChildrenValues(text: Text, children: seq<Json>, parent: Json)
    requires forall j :: 0 <= j < |children| ==> children[j] < parent
    ensures CanonicalDebugChildren(text, children, parent).Ok? ==>
              forall i :: 0 <= i < |children| ==>
                CanonicalGroupFromDebug(text, children[i]) == Ok(CanonicalDebugChildren(text, children, parent).value[i])
    decreases |children|
  {
    var r := CanonicalDebugChildren(text, children, parent);
    if children != [] && r.Ok? {
      var k := |children| - 1;
      var init := CanonicalDebugChildren(text, children[..k], parent);
      var last := CanonicalGroupFromDebug(text, children[k]);
      DebugChildrenValues(text, children[..k], parent);
      assert init.Ok? && last.Ok? && r.value == init.value + [last.value];
      forall i | 0 <= i < |children| ensures CanonicalGroupFromDebug(text, children[i]) == Ok(r.value[i]) {
        if i < k {
          assert children[..k][i] == children[i];
          assert r.value[i] == init.value[i];
          assert CanonicalGroupFromDebug(text, children[..k][i]) == Ok(init.value[i]);
        } else {
          assert i == k;
        }
      }
    }
  }

  /**
   * A debug group has a canonical tree exactly when its tiles and children
   * are missing, null or arrays, every tile has a canonical record and
   * every child a canonical tree.
   */
  lemma DebugGroupOk(text: Text, group: Json)
    ensures var tileItems := MapItems(Get(group, "tiles"));
            var childItems := MapItems(Get(group, "children"));
            CanonicalGroupFromDebug(text, group).Ok? <==>
              && tileItems.Ok? && childItems.Ok?
              && (forall i :: 0 <= i < |tileItems.value| ==> CanonicalDebugTile(text, tileItems.value[i]).Ok?)
              && (forall i :: 0 <= i < |childItems.value| ==> CanonicalGroupFromDebug(text, childItems.value[i]).Ok?)
  {
    var tileItems := MapItems(Get(group, "tiles"));
    var childItems := MapItems(Get(group, "children"));
    if tileItems.Ok? && childItems.Ok? {
      ItemsBelow(group, "children");
      DebugChildrenEach(text, childItems.value, group);
    }
  }

  /**
   * The fields of a debug group's canonical tree: its tiles' records and
   * its children's trees, each list sorted by text; the grid when it is
   * neither missing nor null; the structure id when it is neither.
   */
  lemma DebugGroupFields(text: Text, group: Json)
    requires CanonicalGroupFromDebug(text, group).Ok?
    ensures MapItems(Get(group, "tiles")).Ok? && MapItems(Get(group, "children")).Ok?
    ensures var tiles := CanonicalDebugTiles(text, MapItems(Get(group, "tiles")).value);
            var fields := CanonicalGroupFromDebug(text, group).value.fields;
            tiles.Ok? && fields["tiles"] == SanitizeNullableKeys(JArr(SortByText(text, tiles.value)))
    ensures var children := CanonicalDebugChildren(text, MapItems(Get(group, "children")).value, group);
            var fields := CanonicalGroupFromDebug(text, group).value.fields;
            children.Ok? && fields["children"] == SanitizeNullableKeys(JArr(SortByText(text, children.value)))
    ensures var fields := CanonicalGroupFromDebug(text, group).value.fields;
            "grid" in fields ==> fields["grid"] == SanitizeNullableKeys(Get(group, "grid").value)
    ensures var fields := CanonicalGroupFromDebug(text, group).value.fields;
            "structureId" in fields ==> fields["structureId"] == SanitizeNullableKeys(Get(group, "structureId").value)
  {
    ItemsBelow(group, "children");
    var sid := Get(group, "structureId");
    var tiles := CanonicalDebugTiles(text, MapItems(Get(group, "tiles")).value);
    var children := CanonicalDebugChildren(text, MapItems(Get(group, "children")).value, group);
    DebugGroupRecordValues(if IsNullish(sid) then JNull else sid.value, tiles.value, children.value, Get(group, "grid"), text);
  }

  /** Two orderings of the same elements: one has a property at every index exactly when the other has. */
  lemma PermutationAll<A>(p: A -> bool, a: seq<A>, b: seq<A>)
    requires multiset(a) == multiset(b)
    ensures (forall i :: 0 <= i < |a| ==> p(a[i])) <==> (forall j :: 0 <= j < |b| ==> p(b[j]))
  {
    if forall i :: 0 <= i < |a| ==> p(a[i]) {
      forall j | 0 <= j < |b| ensures p(b[j]) {
        assert b[j] in multiset(a);
      }
    }
    if forall j :: 0 <= j < |b| ==> p(b[j]) {
      forall i | 0 <= i < |a| ensures p(a[i]) {
        assert a[i] in multiset(b);
      }
    }
  }

  /** The sorted tile records do not depend on the order of the tiles, and neither does a TypeError. */
  lemma DebugTilesOrderFree(text: Text, a: seq<Json>, b: seq<Json>)
    requires Injective(text) && multiset(a) == multiset(b)
    ensures CanonicalDebugTiles(text, a).Ok? <==> CanonicalDebugTiles(text, b).Ok?
    ensures CanonicalDebugTiles(text, a).Ok? ==>
              SortByText(text, CanonicalDebugTiles(text, a).value) == SortByText(text, CanonicalDebugTiles(text, b).value)
  {
    PermutationAll((t: Json) => CanonicalDebugTile(text, t).Ok?, a, b);
    var ra, rb := CanonicalDebugTiles(text, a), CanonicalDebugTiles(text, b);
    if ra.Ok? {
      var tileOf := (t: Json) => var r := CanonicalDebugTile(text, t); if r.Ok? then r.value else JNull;
      assert ra.value == MapSeq(tileOf, a);
      assert rb.value == MapSeq(tileOf, b);
      MapSeqPermutation(tileOf, a, b);
      SortByTextOrderFree(text, ra.value, rb.value);
    }
  }

  /** The sorted child trees do not depend on the order of the children, and neither does a TypeError. */
  lemma DebugChildrenOrderFree(text: Text, a: seq<Json>, pa: Json, b: seq<Json>, pb: Json)
    requires forall j :: 0 <= j < |a| ==> a[j] < pa
    requires forall j :: 0 <= j < |b| ==> b[j] < pb
    requires Injective(text) && multiset(a) == multiset(b)
    ensures CanonicalDebugChildren(text, a, pa).Ok? <==> CanonicalDebugChildren(text, b, pb).Ok?
    ensures CanonicalDebugChildren(text, a, pa).Ok? ==>
              SortByText(text, CanonicalDebugChildren(text, a, pa).value) == SortByText(text, CanonicalDebugChildren(text, b, pb).value)
  {
    DebugChildrenEach(text, a, pa);
    DebugChildrenEach(text, b, pb);
    PermutationAll((c: Json) => CanonicalGroupFromDebug(text, c).Ok?, a, b);
    var ra, rb := CanonicalDebugChildren(text, a, pa), CanonicalDebugChildren(text, b, pb);
    if ra.Ok? {
      DebugChildrenValues(text, a, pa);
      DebugChildrenValues(text, b, pb);
      var groupOf := (c: Json) => var r := CanonicalGroupFromDebug(text, c); if r.Ok? then r.value else JNull;
      assert ra.value == MapSeq(groupOf, a);
      assert rb.value == MapSeq(groupOf, b);
      MapSeqPermutation(groupOf, a, b);
      SortByTextOrderFree(text, ra.value, rb.value);
    }
  }

  /**
   * The canonical tree of a debug group does not depend on the order of
   * the group's tiles or of its children: lists that hold the same
   * elements give the same tree, or the same TypeError.
   */
  lemma DebugGroupOrderFree(text: Text, group: Json, tiles: seq<Json>, children: seq<Json>)
    requires Injective(text) && group.JObj?
    requires "tiles" in group.fields && group.fields["tiles"].JArr? && multiset(tiles) == multiset(group.fields["tiles"].items)
    requires "children" in group.fields && group.fields["children"].JArr?
    requires multiset(children) == multiset(group.fields["children"].items)
    ensures CanonicalGroupFromDebug(text, JObj(group.fields["tiles" := JArr(tiles)]["children" := JArr(children)]))
              == CanonicalGroupFromDebug(text, group)
  {
    var h := JObj(group.fields["tiles" := JArr(tiles)]["children" := JArr(children)]);
    var tb, cb := group.fields["tiles"].items, group.fields["children"].items;
    assert Get(h, "structureId") == Get(group, "structureId") && Get(h, "grid") == Get(group, "grid");
    DebugGroupUnfold(text, h, tiles, children);
    DebugGroupUnfold(text, group, tb, cb);
    DebugTilesOrderFree(text, tiles, tb);
    DebugChildrenOrderFree(text, children, h, cb, group);
    var ta, ca := CanonicalDebugTiles(text, tiles), CanonicalDebugChildren(text, children, h);
    if ta.Ok? && ca.Ok? {
      var sid := Get(group, "structureId");
      DebugGroupRecordSorted(if IsNullish(sid) then JNull else sid.value, ta.value, CanonicalDebugTiles(text, tb).value,
                             ca.value, CanonicalDebugChildren(text, cb, group).value, Get(group, "grid"), text);
    }
  }

  /** canonicalGroupFromDebug once unfolded, for a group whose tiles and children lists are given. */
  lemma DebugGroupUnfold(text: Text, group: Json, tiles: seq<Json>, children: seq<Json>)
    requires group.JObj? && "tiles" in group.fields && group.fields["tiles"] == JArr(tiles)
    requires "children" in group.fields && group.fields["children"] == JArr(children)
    ensures forall j :: 0 <= j < |children| ==> children[j] < group
    ensures var ta := CanonicalDebugTiles(text, tiles);
            var ca := CanonicalDebugChildren(text, children, group);
            var sid := Get(group, "structureId");
            CanonicalGroupFromDebug(text, group)
              == if ta.Err? || ca.Err? then Err(TypeError)
                 else Ok(DebugGroupRecord(if IsNullish(sid) then JNull else sid.value, ta.value, ca.value, Get(group, "grid"), text))
  {
    assert MapItems(Get(group, "tiles")) == Ok(tiles) && MapItems(Get(group, "children")) == Ok(children);
    ItemsBelow(group, "children");
  }

  /** The group record depends on its lists only through their sorted forms. */
  lemma DebugGroupRecordSorted(sid: Json, ta: seq<Json>, tb: seq<Json>, ca: seq<Json>, cb: seq<Json>, grid: Option<Json>, text: Text)
    requires SortByText(text, ta) == SortByText(text, tb) && SortByText(text, ca) == SortByText(text, cb)
    ensures DebugGroupRecord(sid, ta, ca, grid, text) == DebugGroupRecord(sid, tb, cb, grid, text)
  {
  }

  /** The canonical tree of the debug export's root: `debug.root` may be missing, which reads like null. */
  function CanonicalRootFromDebug(text: Text, root: Option<Json>): Result<Json, CanonError>
  {
    CanonicalGroupFromDebug(text, if root.Some? then root.value else JNull)
  }

  /** A missing root gives the empty tree: no tiles, no children, nothing else. */
  lemma EmptyDebugRoot(text: Text)
    ensures CanonicalRootFromDebug(text, None) == Ok(JObj(map["tiles" := JArr([]), "children" := JArr([])]))
  {
    assert MapItems(Get(JNull, "tiles")) == Ok([]) && MapItems(Get(JNull, "children")) == Ok([]);
    assert CanonicalDebugTiles(text, []) == Ok([]);
    assert SortByText(text, []) == [];
    var fields := map["structureId" := JNull, "tiles" := JArr([]), "children" := JArr([])];
    assert Put(fields, "grid", None) == fields;
    var r := SanitizeNullableKeys(JObj(fields));
    assert r == DebugGroupRecord(JNull, [], [], None, text);
    assert r.fields.Keys == {"tiles", "children"};
    assert r.fields["tiles"] == SanitizeNullableKeys(JArr([])) == JArr([]);
    assert r.fields["children"] == SanitizeNullableKeys(JArr([])) == JArr([]);
    assert r.fields == map["tiles" := JArr([]), "children" := JArr([])];
  }
}
