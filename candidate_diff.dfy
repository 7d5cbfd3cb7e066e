/**
 * The candidate diff of the parity tool (`parity/candidate-diff.mjs`): the
 * renderable face candidates of the debug export and of the standalone
 * pipeline are counted into two multisets keyed by a candidate signature,
 * and the diff lists the keys one side has more of, largest difference
 * first.
 */
module CandidateDiff {
  import opened Wrappers
  import opened Json
  import opened Strings

  // ---------------------------------------------------------------------------
  // Small readers
  // ---------------------------------------------------------------------------

  /** boolOrNull: true and false are kept, anything else is null. */
  function BoolOrNull(v: Option<Json>): (r: Option<bool>)
    ensures r.Some? <==> v.Some? && v.value.JBool?
    ensures r.Some? ==> v == Some(JBool(r.value))
  {
    if v == Some(JBool(true)) then Some(true)
    else if v == Some(JBool(false)) then Some(false)
    else None
  }

  /** The five snapshot fields a transformable cache diagnostic compares. */
  const MismatchFields: seq<string> := ["axisStripCount", "tiltedRenderCount", "hasAxisStrip", "hasTiltedStrip", "isCompletelyFilled"]

  /** Some field of the mismatch record is exactly the boolean `b`. */
  predicate AnyField(v: Json, b: bool)
  {
    exists i :: 0 <= i < |MismatchFields| && Get(v, MismatchFields[i]) == Some(JBool(b))
  }

  /**
   * deriveCurrentVsFreshMismatch: null unless the record is an object;
   * true when some field is true, otherwise false when some field is
   * false, otherwise null.
   */
  method DeriveCurrentVsFreshMismatch(fieldMismatches: Option<Json>) returns (r: Option<bool>)
    ensures !IsObjectLike(fieldMismatches) ==> r.None?
    ensures IsObjectLike(fieldMismatches) ==> (r == Some(true) <==> AnyField(fieldMismatches.value, true))
    ensures IsObjectLike(fieldMismatches) ==>
              (r == Some(false) <==> !AnyField(fieldMismatches.value, true) && AnyField(fieldMismatches.value, false))
  {
    if !IsObjectLike(fieldMismatches) {
      return None;
    }
    var v := fieldMismatches.value;
    for i := 0 to |MismatchFields|
      invariant forall j :: 0 <= j < i ==> Get(v, MismatchFields[j]) != Some(JBool(true))
    {
      if Get(v, MismatchFields[i]) == Some(JBool(true)) {
        return Some(true);
      }
    }
    for i := 0 to |MismatchFields|
      invariant forall j :: 0 <= j < i ==> Get(v, MismatchFields[j]) != Some(JBool(false))
    {
      if Get(v, MismatchFields[i]) == Some(JBool(false)) {
        return Some(false);
      }
    }
    return None;
  }

  // ---------------------------------------------------------------------------
  // Signatures
  // ---------------------------------------------------------------------------

  /** An element JSON.stringify writes for a field: a missing field is written as null. */
  function OrNull(v: Option<Json>): Json
  {
    if v.Some? then v.value else JNull
  }

  /** value ?? '' */
  function OrEmpty(v: Option<Json>): (r: Json)
    ensures IsNullish(v) <==> r == JStr("") && v != Some(JStr(""))
  {
    if IsNullish(v) then JStr("") else v.value
  }

  /**
   * signatureArray: the empty text for anything but a non-empty array,
   * otherwise its elements joined by commas. An array holding a number
   * whose text is not plain digits is kept as it is.
   */
  function SignatureArray(v: Option<Json>): (r: Json)
    ensures (v.Some? && v.value.JArr? && v.value.items != []) || r == JStr("")
  {
    if v.Some? && v.value.JArr? && v.value.items != [] then
      var text := ItemsText(v.value.items);
      if text.Some? then JStr(text.value) else v.value
    else JStr("")
  }

  /** The colour element: the colour when it is an integer, '' otherwise. */
  function ColorPart(sample: Json): Json
  {
    var color := Get(sample, "color");
    if IsInteger(color) then color.value else JStr("")
  }

  /** The outside element: 1 for an outside face, 0 otherwise. */
  function OutsideFlag(sample: Json): Json
  {
    if Get(sample, "outside") == Some(JBool(true)) then JNum(1.0) else JNum(0.0)
  }

  /** The six bounds, in min-then-max, x-y-z order. */
  function BoundsPart(sample: Json): (r: seq<Json>)
    ensures |r| == 6
  {
    [OrNull(Get(sample, "minX")), OrNull(Get(sample, "minY")), OrNull(Get(sample, "minZ")),
     OrNull(Get(sample, "maxX")), OrNull(Get(sample, "maxY")), OrNull(Get(sample, "maxZ"))]
  }

  /** buildCandidateSignature: the array whose JSON text keys a candidate. */
  function CandidateSignature(sample: Json): (r: seq<Json>)
    ensures |r| == 12
  {
    [OrEmpty(Get(sample, "blockState")), ColorPart(sample), OrEmpty(Get(sample, "kind")), OrEmpty(Get(sample, "facing")),
     OutsideFlag(sample)]
    + BoundsPart(sample) + [SignatureArray(Get(sample, "transformData"))]
  }

  /** buildCandidateSignatureIgnoringOutside: the same array without the outside element. */
  function CandidateSignatureIgnoringOutside(sample: Json): (r: seq<Json>)
    ensures |r| == 11
  {
    [OrEmpty(Get(sample, "blockState")), ColorPart(sample), OrEmpty(Get(sample, "kind")), OrEmpty(Get(sample, "facing"))]
    + BoundsPart(sample) + [SignatureArray(Get(sample, "transformData"))]
  }

  /** buildBoxSignature: the signature of the box a candidate comes from, without facing and outside. */
  function BoxSignature(sample: Json): (r: seq<Json>)
    ensures |r| == 10
  {
    [OrEmpty(Get(sample, "blockState")), ColorPart(sample), OrEmpty(Get(sample, "kind"))]
    + BoundsPart(sample) + [SignatureArray(Get(sample, "transformData"))]
  }

  /** The two candidate signatures differ only in the outside element, which is the fifth. */
  lemma SignaturesDifferInOutsideOnly(sample: Json)
    ensures CandidateSignature(sample)[..4] + CandidateSignature(sample)[5..] == CandidateSignatureIgnoringOutside(sample)
    ensures CandidateSignature(sample)[4] == OutsideFlag(sample)
  {
  }

  /** Two candidates share a signature exactly when they share it ignoring outside and agree on being outside. */
  lemma CandidateSignatureEquality(a: Json, b: Json)
    ensures CandidateSignature(a) == CandidateSignature(b) <==>
              CandidateSignatureIgnoringOutside(a) == CandidateSignatureIgnoringOutside(b)
              && (Get(a, "outside") == Some(JBool(true)) <==> Get(b, "outside") == Some(JBool(true)))
  {
    SignaturesDifferInOutsideOnly(a);
    SignaturesDifferInOutsideOnly(b);
    if CandidateSignatureIgnoringOutside(a) == CandidateSignatureIgnoringOutside(b) && OutsideFlag(a) == OutsideFlag(b) {
      var sa, sb := CandidateSignature(a), CandidateSignature(b);
      assert forall i :: 0 <= i < 12 ==> sa[i] == sb[i] by {
        forall i | 0 <= i < 12 ensures sa[i] == sb[i] {
          if i < 4 {
            assert sa[i] == (sa[..4] + sa[5..])[i];
            assert sb[i] == (sb[..4] + sb[5..])[i];
          } else if i > 4 {
            assert sa[i] == (sa[..4] + sa[5..])[i - 1];
            assert sb[i] == (sb[..4] + sb[5..])[i - 1];
          }
        }
      }
    }
  }

  /** The box signature is the candidate signature ignoring outside with the facing element dropped. */
  lemma BoxSignatureDropsFacing(sample: Json)
    ensures BoxSignature(sample) == CandidateSignatureIgnoringOutside(sample)[..3] + CandidateSignatureIgnoringOutside(sample)[4..]
  {
  }

  // ---------------------------------------------------------------------------
  // Candidate multisets
  // ---------------------------------------------------------------------------

  /** One key of a candidate multiset: how often it was seen and the first sample seen. */
  datatype CountEntry = CountEntry(count: nat, sample: Json)

  /** How often a key was counted: 0 when it is absent. */
  function CountIn(entries: map<string, CountEntry>, key: string): nat
  {
    if key in entries then entries[key].count else 0
  }

  /** The entries after counting one more candidate with this key and sample. */
  function Added(entries: map<string, CountEntry>, key: string, sample: Json): (r: map<string, CountEntry>)
    ensures r.Keys == entries.Keys + {key}
    ensures CountIn(r, key) == CountIn(entries, key) + 1
    ensures forall k :: k != key ==> CountIn(r, k) == CountIn(entries, k)
    ensures r[key].sample == if key in entries then entries[key].sample else sample
    ensures forall k :: k in entries && k != key ==> r[k] == entries[k]
  {
    if key in entries then entries[key := CountEntry(entries[key].count + 1, entries[key].sample)]
    else entries[key := CountEntry(1, sample)]
  }

  /** The keys of a sequence of counted candidates. */
  function KeysOf(adds: seq<(string, Json)>): (r: seq<string>)
    ensures |r| == |adds| && forall i :: 0 <= i < |adds| ==> r[i] == adds[i].0
  {
    seq(|adds|, i requires 0 <= i < |adds| => adds[i].0)
  }

  /** Counting a sequence of candidates one by one. */
  function AddedAll(adds: seq<(string, Json)>): map<string, CountEntry>
    decreases |adds|
  {
    if adds == [] then map[] else Added(AddedAll(adds[..|adds| - 1]), adds[|adds| - 1].0, adds[|adds| - 1].1)
  }

  /** The first sample counted under a key. */
  function FirstSample(adds: seq<(string, Json)>, key: string): Option<Json>
    decreases |adds|
  {
    if adds == [] then None
    else if adds[0].0 == key then Some(adds[0].1)
    else FirstSample(adds[1..], key)
  }

  lemma FirstSampleSnoc(adds: seq<(string, Json)>, add: (string, Json), key: string)
    ensures FirstSample(adds + [add], key) == if FirstSample(adds, key).Some? then FirstSample(adds, key) else if add.0 == key then Some(add.1) else None
    decreases |adds|
  {
    if adds != [] {
      assert (adds + [add])[1..] == adds[1..] + [add];
      FirstSampleSnoc(adds[1..], add, key);
    }
  }

  lemma {:induction false} FirstSampleIn(adds: seq<(string, Json)>, key: string)
    ensures FirstSample(adds, key).Some? <==> key in KeysOf(adds)
    decreases |adds|
  {
    if adds != [] {
      FirstSampleIn(adds[1..], key);
      assert KeysOf(adds) == [adds[0].0] + KeysOf(adds[1..]);
    }
  }

  /**
   * The counts form the multiset of the counted keys: a key's count is the
   * number of times it was counted, and its sample is the first one
   * counted under it.
   */
  lemma {:induction false} AddedAllCounts(adds: seq<(string, Json)>, key: string)
    ensures CountIn(AddedAll(adds), key) == multiset(KeysOf(adds))[key]
    ensures key in AddedAll(adds) <==> key in KeysOf(adds)
    ensures key in AddedAll(adds) ==> Some(AddedAll(adds)[key].sample) == FirstSample(adds, key)
    decreases |adds|
  {
    if adds == [] {
      FirstSampleIn(adds, key);
    } else {
      var before := adds[..|adds| - 1];
      var add := adds[|adds| - 1];
      AddedAllCounts(before, key);
      assert KeysOf(adds) == KeysOf(before) + [add.0];
      assert adds == before + [add];
      FirstSampleSnoc(before, add, key);
      FirstSampleIn(before, key);
    }
  }

  /** A candidate multiset: a Map from signature key to count entry, in insertion order. */
  class CandidateCounts {
    var order: seq<string>
    var entries: map<string, CountEntry>

    /** The keys are listed once each, in insertion order, and each was counted at least once. */
    ghost predicate Valid()
      reads this
    {
      && (forall k :: k in entries <==> k in order)
      && (forall i, j :: 0 <= i < j < |order| ==> order[i] != order[j])
      && (forall k :: k in entries ==> entries[k].count > 0)
    }

    /** new Map() */
    constructor ()
      ensures Valid() && order == [] && entries == map[]
    {
      order := [];
      entries := map[];
    }

    /** The count of a key (`map.get(key)?.count ?? 0`). */
    function CountOf(key: string): (n: nat)
      reads this
      ensures n == CountIn(entries, key)
    {
      if key in entries then entries[key].count else 0
    }

    /**
     * addCandidateCount: an existing key's count goes up by one and keeps
     * its first sample; a new key is inserted at the end with count 1 and
     * this sample.
     */
    method AddCandidateCount(key: string, sample: Json)
      requires Valid()
      modifies this
      ensures Valid()
      ensures entries == Added(old(entries), key, sample)
      ensures order == if key in old(entries) then old(order) else old(order) + [key]
    {
      if key in entries {
        entries := entries[key := CountEntry(entries[key].count + 1, entries[key].sample)];
        return;
      }
      entries := entries[key := CountEntry(1, sample)];
      order := order + [key];
    }
  }

  // ---------------------------------------------------------------------------
  // The diff
  // ---------------------------------------------------------------------------

  /** One key of the diff: by how much one side exceeds the other, both counts and a sample. */
  datatype DiffEntry = DiffEntry(key: string, delta: nat, expectedCount: nat, actualCount: nat, sample: Json)

  datatype Diff = Diff(missingTotal: nat, extraTotal: nat, missingEntries: seq<DiffEntry>, extraEntries: seq<DiffEntry>)

  function Lookup(entries: map<string, CountEntry>, key: string): Option<CountEntry>
  {
    if key in entries then Some(entries[key]) else None
  }

  /** first?.sample ?? second?.sample ?? null */
  function SampleOf(first: Option<CountEntry>, second: Option<CountEntry>): Json
  {
    if first.Some? && first.value.sample != JNull then first.value.sample
    else if second.Some? then second.value.sample
    else JNull
  }

  /** new Set([...a, ...b]): every key once, at its first occurrence. */
  function Dedup(keys: seq<string>): (r: seq<string>)
    ensures forall k :: k in r <==> k in keys
    ensures forall i, j :: 0 <= i < j < |r| ==> r[i] != r[j]
    decreases |keys|
  {
    if keys == [] then []
    else
      var d := Dedup(keys[..|keys| - 1]);
      assert keys == keys[..|keys| - 1] + [keys[|keys| - 1]];
      if keys[|keys| - 1] in d then d else d + [keys[|keys| - 1]]
  }

  /** The missing entry of a key: present when the expected side counted it more often. */
  function MissingEntry(expected: map<string, CountEntry>, actual: map<string, CountEntry>, key: string): DiffEntry
    requires CountIn(expected, key) > CountIn(actual, key)
  {
    var ec, ac := CountIn(expected, key), CountIn(actual, key);
    DiffEntry(key, ec - ac, ec, ac, SampleOf(Lookup(expected, key), Lookup(actual, key)))
  }

  /** The extra entry of a key: present when the actual side counted it more often. */
  function ExtraEntry(expected: map<string, CountEntry>, actual: map<string, CountEntry>, key: string): DiffEntry
    requires CountIn(actual, key) > CountIn(expected, key)
  {
    var ec, ac := CountIn(expected, key), CountIn(actual, key);
    DiffEntry(key, ac - ec, ec, ac, SampleOf(Lookup(actual, key), Lookup(expected, key)))
  }

  /** The missing entries of the keys, in key order. */
  function MissingOf(expected: map<string, CountEntry>, actual: map<string, CountEntry>, keys: seq<string>): seq<DiffEntry>
    decreases |keys|
  {
    if keys == [] then []
    else
      var before := MissingOf(expected, actual, keys[..|keys| - 1]);
      var key := keys[|keys| - 1];
      if CountIn(expected, key) > CountIn(actual, key) then before + [MissingEntry(expected, actual, key)] else before
  }

  /** The extra entries of the keys, in key order. */
  function ExtraOf(expected: map<string, CountEntry>, actual: map<string, CountEntry>, keys: seq<string>): seq<DiffEntry>
    decreases |keys|
  {
    if keys == [] then []
    else
      var before := ExtraOf(expected, actual, keys[..|keys| - 1]);
      var key := keys[|keys| - 1];
      if CountIn(actual, key) > CountIn(expected, key) then before + [ExtraEntry(expected, actual, key)] else before
  }

  /** The sum of the deltas of some entries. */
  function SumDeltas(entries: seq<DiffEntry>): nat
    decreases |entries|
  {
    if entries == [] then 0 else entries[0].delta + SumDeltas(entries[1..])
  }

  lemma {:induction false} SumDeltasSnoc(entries: seq<DiffEntry>, e: DiffEntry)
    ensures SumDeltas(entries + [e]) == SumDeltas(entries) + e.delta
    decreases |entries|
  {
    if entries != [] {
      assert (entries + [e])[1..] == entries[1..] + [e];
      SumDeltasSnoc(entries[1..], e);
    }
  }

  /** The sort order: larger delta first, then the smaller key (`sortFn(a, b) < 0`). */
  predicate Before(a: DiffEntry, b: DiffEntry)
  {
    a.delta > b.delta || (a.delta == b.delta && StringLess(a.key, b.key))
  }

  /** No entry comes after one it should precede. */
  predicate SortedEntries(entries: seq<DiffEntry>)
  {
    forall i, j :: 0 <= i < j < |entries| ==> !Before(entries[j], entries[i])
  }

  lemma BeforeAsymmetric(a: DiffEntry, b: DiffEntry)
    ensures !(Before(a, b) && Before(b, a))
  {
    StringLessTrichotomy(a.key, b.key);
  }

  /** `a` may come before `b` and `b` before `c`: then `a` may come before `c`. */
  lemma NotBeforeTransitive(a: DiffEntry, b: DiffEntry, c: DiffEntry)
    requires !Before(b, a) && !Before(c, b)
    ensures !Before(c, a)
  {
    StringLessTrichotomy(a.key, b.key);
    StringLessTrichotomy(b.key, c.key);
    StringLessTrichotomy(a.key, c.key);
    if a.delta == b.delta == c.delta && StringLess(c.key, a.key) {
      if StringLess(a.key, b.key) {
        StringLessTransitive(c.key, a.key, b.key);
      } else if StringLess(b.key, c.key) {
        StringLessTransitive(b.key, c.key, a.key);
      }
    }
  }

  /** Inserting one entry before the first entry it does not follow. */
  function Insert(e: DiffEntry, entries: seq<DiffEntry>): (r: seq<DiffEntry>)
    ensures multiset(r) == multiset(entries) + multiset{e}
    ensures forall x :: x in r <==> x in entries || x == e
    ensures |r| == |entries| + 1
    decreases |entries|
  {
    if entries == [] then [e]
    else if Before(entries[0], e) then
      assert entries == [entries[0]] + entries[1..];
      [entries[0]] + Insert(e, entries[1..])
    else [e] + entries
  }

  /** No entry of `entries` should precede `x`. */
  predicate HeadFirst(x: DiffEntry, entries: seq<DiffEntry>)
  {
    forall y :: y in entries ==> !Before(y, x)
  }

  lemma SortedTail(entries: seq<DiffEntry>)
    requires SortedEntries(entries) && entries != []
    ensures HeadFirst(entries[0], entries[1..]) && SortedEntries(entries[1..])
  {
    forall y | y in entries[1..] ensures !Before(y, entries[0]) {
      var k :| 0 <= k < |entries[1..]| && entries[1..][k] == y;
      assert entries[k + 1] == y;
    }
  }

  lemma SortedCons(x: DiffEntry, entries: seq<DiffEntry>)
    requires HeadFirst(x, entries) && SortedEntries(entries)
    ensures SortedEntries([x] + entries)
  {
    var r := [x] + entries;
    forall i, j | 0 <= i < j < |r| ensures !Before(r[j], r[i]) {
      assert r[j] == entries[j - 1];
      if i > 0 {
        assert r[i] == entries[i - 1];
      }
    }
  }

  lemma {:induction false} InsertSorted(e: DiffEntry, entries: seq<DiffEntry>)
    requires SortedEntries(entries)
    ensures SortedEntries(Insert(e, entries))
    ensures SumDeltas(Insert(e, entries)) == e.delta + SumDeltas(entries)
    decreases |entries|
  {
    if entries == [] {
    } else if Before(entries[0], e) {
      var head := entries[0];
      var rest := Insert(e, entries[1..]);
      SortedTail(entries);
      InsertSorted(e, entries[1..]);
      BeforeAsymmetric(head, e);
      assert HeadFirst(head, rest);
      SortedCons(head, rest);
      assert ([head] + rest)[1..] == rest;
    } else {
      forall y | y in entries ensures !Before(y, e) {
        var k :| 0 <= k < |entries| && entries[k] == y;
        if k > 0 {
          NotBeforeTransitive(e, entries[0], y);
        }
      }
      SortedCons(e, entries);
      assert ([e] + entries)[1..] == entries;
    }
  }

  /** Array.prototype.sort with sortFn: an insertion sort on the comparator. */
  function SortEntries(entries: seq<DiffEntry>): (r: seq<DiffEntry>)
    ensures multiset(r) == multiset(entries)
    ensures |r| == |entries|
    decreases |entries|
  {
    if entries == [] then []
    else
      assert entries == [entries[0]] + entries[1..];
      Insert(entries[0], SortEntries(entries[1..]))
  }

  /** The sorted entries are sorted, hold the same entries and have the same deltas in total. */
  lemma {:induction false} SortEntriesSpec(entries: seq<DiffEntry>)
    ensures SortedEntries(SortEntries(entries))
    ensures forall e :: e in SortEntries(entries) <==> e in entries
    ensures SumDeltas(SortEntries(entries)) == SumDeltas(entries)
    decreases |entries|
  {
    var r := SortEntries(entries);
    assert forall e :: e in r <==> e in multiset(r);
    assert forall e :: e in entries <==> e in multiset(entries);
    if entries != [] {
      SortEntriesSpec(entries[1..]);
      InsertSorted(entries[0], SortEntries(entries[1..]));
    }
  }

  /**
   * Every missing entry is the entry of one of the keys whose expected
   * count is larger, and every such key has one.
   */
  lemma {:induction false} MissingOfSpec(expected: map<string, CountEntry>, actual: map<string, CountEntry>, keys: seq<string>)
    ensures forall e :: e in MissingOf(expected, actual, keys) ==>
              e.key in keys && CountIn(expected, e.key) > CountIn(actual, e.key) && e == MissingEntry(expected, actual, e.key)
    ensures forall k :: k in keys && CountIn(expected, k) > CountIn(actual, k) ==> MissingEntry(expected, actual, k) in MissingOf(expected, actual, keys)
    decreases |keys|
  {
    if keys != [] {
      MissingOfSpec(expected, actual, keys[..|keys| - 1]);
      assert keys == keys[..|keys| - 1] + [keys[|keys| - 1]];
    }
  }

  /** The same for the extra entries. */
  lemma {:induction false} ExtraOfSpec(expected: map<string, CountEntry>, actual: map<string, CountEntry>, keys: seq<string>)
    ensures forall e :: e in ExtraOf(expected, actual, keys) ==>
              e.key in keys && CountIn(actual, e.key) > CountIn(expected, e.key) && e == ExtraEntry(expected, actual, e.key)
    ensures forall k :: k in keys && CountIn(actual, k) > CountIn(expected, k) ==> ExtraEntry(expected, actual, k) in ExtraOf(expected, actual, keys)
    decreases |keys|
  {
    if keys != [] {
      ExtraOfSpec(expected, actual, keys[..|keys| - 1]);
      assert keys == keys[..|keys| - 1] + [keys[|keys| - 1]];
    }
  }

  /** The diff of two multisets over the given key order. */
  function DiffOf(expected: map<string, CountEntry>, actual: map<string, CountEntry>, keys: seq<string>): Diff
  {
    var missing := MissingOf(expected, actual, keys);
    var extra := ExtraOf(expected, actual, keys);
    Diff(SumDeltas(missing), SumDeltas(extra), SortEntries(missing), SortEntries(extra))
  }

  /**
   * A key is missing exactly when the expected side counted it more often,
   * and extra exactly when the actual side did, with the difference as
   * delta; both lists are sorted by descending delta then key, and each
   * total is the sum of its list's deltas.
   */
  lemma DiffOfSpec(expected: map<string, CountEntry>, actual: map<string, CountEntry>, keys: seq<string>)
    requires forall k :: k in expected || k in actual ==> k in keys
    ensures var d := DiffOf(expected, actual, keys);
            && (forall e :: e in d.missingEntries ==>
                  && e.expectedCount == CountIn(expected, e.key) && e.actualCount == CountIn(actual, e.key)
                  && e.expectedCount > e.actualCount && e.delta == e.expectedCount - e.actualCount)
            && (forall k :: CountIn(expected, k) > CountIn(actual, k) ==> exists e :: e in d.missingEntries && e.key == k)
            && (forall e :: e in d.extraEntries ==>
                  && e.expectedCount == CountIn(expected, e.key) && e.actualCount == CountIn(actual, e.key)
                  && e.actualCount > e.expectedCount && e.delta == e.actualCount - e.expectedCount)
            && (forall k :: CountIn(actual, k) > CountIn(expected, k) ==> exists e :: e in d.extraEntries && e.key == k)
            && SortedEntries(d.missingEntries) && SortedEntries(d.extraEntries)
            && d.missingTotal == SumDeltas(d.missingEntries) && d.extraTotal == SumDeltas(d.extraEntries)
  {
    var missing := MissingOf(expected, actual, keys);
    var extra := ExtraOf(expected, actual, keys);
    MissingOfSpec(expected, actual, keys);
    ExtraOfSpec(expected, actual, keys);
    SortEntriesSpec(missing);
    SortEntriesSpec(extra);
    forall k | CountIn(expected, k) > CountIn(actual, k)
      ensures exists e :: e in SortEntries(missing) && e.key == k
    {
      assert MissingEntry(expected, actual, k) in SortEntries(missing);
    }
    forall k | CountIn(actual, k) > CountIn(expected, k)
      ensures exists e :: e in SortEntries(extra) && e.key == k
    {
      assert ExtraEntry(expected, actual, k) in SortEntries(extra);
    }
  }

  /**
   * diffCandidateMultisets: walks the keys of both multisets once, expected
   * keys first, and files each key whose counts differ as missing or extra,
   * then sorts both lists.
   */
  method DiffCandidateMultisets(expected: CandidateCounts, actual: CandidateCounts) returns (d: Diff)
    requires expected.Valid() && actual.Valid()
    ensures d == DiffOf(expected.entries, actual.entries, Dedup(expected.order + actual.order))
  {
    var keys := Dedup(expected.order + actual.order);
    var missing: seq<DiffEntry> := [];
    var extra: seq<DiffEntry> := [];
    var missingTotal, extraTotal := 0, 0;
    for i := 0 to |keys|
      invariant missing == MissingOf(expected.entries, actual.entries, keys[..i]) && missingTotal == SumDeltas(missing)
      invariant extra == ExtraOf(expected.entries, actual.entries, keys[..i]) && extraTotal == SumDeltas(extra)
    {
      var key := keys[i];
      var expectedCount := expected.CountOf(key);
      var actualCount := actual.CountOf(key);
      assert keys[..i + 1][..i] == keys[..i];
      if expectedCount > actualCount {
        var delta := expectedCount - actualCount;
        var entry := DiffEntry(key, delta, expectedCount, actualCount, SampleOf(Lookup(expected.entries, key), Lookup(actual.entries, key)));
        SumDeltasSnoc(missing, entry);
        missingTotal := missingTotal + delta;
        missing := missing + [entry];
        continue;
      }
      if actualCount > expectedCount {
        var delta := actualCount - expectedCount;
        var entry := DiffEntry(key, delta, expectedCount, actualCount, SampleOf(Lookup(actual.entries, key), Lookup(expected.entries, key)));
        SumDeltasSnoc(extra, entry);
        extraTotal := extraTotal + delta;
        extra := extra + [entry];
      }
    }
    assert keys[..|keys|] == keys;
    d := Diff(missingTotal, extraTotal, SortEntries(missing), SortEntries(extra));
  }

  // ---------------------------------------------------------------------------
  // Summaries
  // ---------------------------------------------------------------------------

  /** The entry limit: options.limit when it is a positive integer, 12 otherwise. */
  function ResolveLimit(limit: Option<Json>): (n: nat)
    ensures n > 0
    ensures IsInteger(limit) && AsInt(limit) > 0 ==> n == AsInt(limit)
    ensures !(IsInteger(limit) && AsInt(limit) > 0) ==> n == 12
  {
    if IsInteger(limit) && AsInt(limit) > 0 then AsInt(limit) else 12
  }

  /** summarizeDiffEntries: the first `limit` entries, each with its five fields. */
  function SummarizeDiffEntries(entries: seq<DiffEntry>, limit: nat): (r: seq<DiffEntry>)
    ensures |r| == if |entries| < limit then |entries| else limit
    ensures r == entries[..|r|]
  {
    if |entries| < limit then entries else entries[..limit]
  }

  /** The focus of the view: outside DOWN faces of transformable boxes. */
  predicate InFocus(e: DiffEntry)
  {
    && Get(e.sample, "outside") == Some(JBool(true))
    && Get(e.sample, "facing") == Some(JStr("DOWN"))
    && Get(e.sample, "kind") == Some(JStr("transformable"))
  }

  /** entries.filter(focusPredicate) */
  function FocusEntries(entries: seq<DiffEntry>): (r: seq<DiffEntry>)
    ensures forall e :: e in r <==> e in entries && InFocus(e)
    ensures |r| <= |entries|
    decreases |entries|
  {
    if entries == [] then []
    else
      assert entries == [entries[0]] + entries[1..];
      if InFocus(entries[0]) then [entries[0]] + FocusEntries(entries[1..]) else FocusEntries(entries[1..])
  }

  /** Filtering keeps the order: the focused entries of a sorted list are sorted. */
  lemma {:induction false} FocusEntriesSorted(entries: seq<DiffEntry>)
    requires SortedEntries(entries)
    ensures SortedEntries(FocusEntries(entries))
    decreases |entries|
  {
    if entries != [] {
      var rest := FocusEntries(entries[1..]);
      FocusEntriesSorted(entries[1..]);
      if InFocus(entries[0]) {
        var r := [entries[0]] + rest;
        forall i, j | 0 <= i < j < |r| ensures !Before(r[j], r[i]) {
          if i == 0 {
            assert r[j] in rest;
            var k :| 1 <= k < |entries| && entries[k] == r[j];
          } else {
            assert r[i] == rest[i - 1] && r[j] == rest[j - 1];
          }
        }
      }
    }
  }

  /** The focus view of a diff. */
  datatype FocusView = FocusView(missingTotal: nat, extraTotal: nat, missingEntries: seq<DiffEntry>, extraEntries: seq<DiffEntry>)

  /**
   * summarizeFocusedCandidateDiff: the diff restricted to outside DOWN
   * transformable faces, with totals over the whole restriction and at
   * most `limit` entries per list.
   */
  function SummarizeFocusedCandidateDiff(d: Diff, limit: nat): (f: FocusView)
    ensures f.missingTotal == SumDeltas(FocusEntries(d.missingEntries))
    ensures f.extraTotal == SumDeltas(FocusEntries(d.extraEntries))
    ensures forall e :: e in f.missingEntries ==> e in d.missingEntries && InFocus(e)
    ensures forall e :: e in f.extraEntries ==> e in d.extraEntries && InFocus(e)
    ensures |f.missingEntries| <= limit && |f.extraEntries| <= limit
  {
    var missing := FocusEntries(d.missingEntries);
    var extra := FocusEntries(d.extraEntries);
    var fm := SummarizeDiffEntries(missing, limit);
    var fe := SummarizeDiffEntries(extra, limit);
    assert forall e :: e in fm ==> e in missing;
    assert forall e :: e in fe ==> e in extra;
    FocusView(SumDeltas(missing), SumDeltas(extra), fm, fe)
  }

  /** The focused lists of a sorted diff are themselves sorted. */
  lemma FocusViewSorted(d: Diff, limit: nat)
    requires SortedEntries(d.missingEntries) && SortedEntries(d.extraEntries)
    ensures SortedEntries(SummarizeFocusedCandidateDiff(d, limit).missingEntries)
    ensures SortedEntries(SummarizeFocusedCandidateDiff(d, limit).extraEntries)
  {
    FocusEntriesSorted(d.missingEntries);
    FocusEntriesSorted(d.extraEntries);
  }

  /** The report buildCandidateDiffReport returns for a diff. */
  datatype DiffReport = DiffReport(missingTotal: nat, extraTotal: nat, missingEntries: seq<DiffEntry>, extraEntries: seq<DiffEntry>, focus: FocusView)

  /** The report: both totals, the first `limit` entries of each list and the focus view. */
  function ReportOf(d: Diff, limitOption: Option<Json>): (r: DiffReport)
    ensures r.missingTotal == d.missingTotal && r.extraTotal == d.extraTotal
    ensures |r.missingEntries| == if |d.missingEntries| < ResolveLimit(limitOption) then |d.missingEntries| else ResolveLimit(limitOption)
    ensures |r.extraEntries| == if |d.extraEntries| < ResolveLimit(limitOption) then |d.extraEntries| else ResolveLimit(limitOption)
    ensures r.missingEntries == d.missingEntries[..|r.missingEntries|] && r.extraEntries == d.extraEntries[..|r.extraEntries|]
  {
    var limit := ResolveLimit(limitOption);
    DiffReport(d.missingTotal, d.extraTotal, SummarizeDiffEntries(d.missingEntries, limit), SummarizeDiffEntries(d.extraEntries, limit),
               SummarizeFocusedCandidateDiff(d, limit))
  }
}
