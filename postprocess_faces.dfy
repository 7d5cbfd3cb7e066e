/**
 * Post-processing of the emitted faces in client geometry mode: exact
 * duplicates are dropped (first one wins) and opposite translucent axis
 * faces lying on the same polygon are removed in pairs. In server mode, or
 * without the optimise switch, the faces pass through untouched.
 */
module PostprocessFaces {
  import opened Wrappers
  import opened Facings
  import opened Json
  import opened Strings
  import opened PolygonOps
  import opened Scene
  import OccluderOps

  // ---------------------------------------------------------------------
  // Options

  datatype GeometryMode = Client | Server

  /**
   * resolveGeometryMode: a string option, trimmed and lower-cased, naming
   * one of the two modes; anything else (missing, not a string, unknown
   * name) is the default, client.
   */
  function ResolveGeometryMode(options: Json): (mode: GeometryMode)
    ensures Get(options, "geometryMode").None? ==> mode == Client
  {
    var g := Get(options, "geometryMode");
    var raw := if g.Some? && g.value.JStr? then ToLower(Trim(JsTrim, g.value.s)) else "client";
    if raw == "client" then Client
    else if raw == "server" then Server
    else Client
  }

  /** The mode is server exactly when the option is a string reading "server" once trimmed and lower-cased. */
  lemma ServerModeIff(options: Json)
    ensures ResolveGeometryMode(options) == Server <==>
      exists s :: Get(options, "geometryMode") == Some(JStr(s)) && ToLower(Trim(JsTrim, s)) == "server"
  {
    if ResolveGeometryMode(options) == Server {
      var s := Get(options, "geometryMode").value.s;
      assert Get(options, "geometryMode") == Some(JStr(s));
    }
  }

  /** resolveOptimizeFaces: only the boolean true switches optimisation on. */
  function ResolveOptimizeFaces(options: Json): (on: bool)
    ensures on ==> Get(options, "optimize") == Some(JBool(true))
    ensures Get(options, "optimize") == Some(JBool(true)) ==> on
  {
    IsBool(Get(options, "optimize"), true)
  }

  // ---------------------------------------------------------------------
  // Polygon keys

  /** A vertex quantised to the micro-unit grid: Math.round(coordinate * 1e6) on each axis. */
  datatype QPoint = QPoint(x: int, y: int, z: int)

  /** quantizeCoord: the nearest multiple of 1e-6, halves rounded up, kept as its integer multiple. */
  function QuantizeCoord(v: real): int
  {
    (v * 1000000.0 + 0.5).Floor
  }

  /** Rounding is to the nearest micro-unit: the quantised value is within half a unit of the scaled coordinate. */
  lemma QuantizeCoordNearest(v: real)
    ensures -0.5 < QuantizeCoord(v) as real - v * 1000000.0 <= 0.5
  {
  }

  function QuantizePoint(p: Vec3): QPoint
  {
    QPoint(QuantizeCoord(p.x), QuantizeCoord(p.y), QuantizeCoord(p.z))
  }

  function QuantizedPoints(vertices: Polygon): seq<QPoint>
  {
    seq(|vertices|, i requires 0 <= i < |vertices| => QuantizePoint(vertices[i]))
  }

  /** The order the quantised points are sorted in: lexicographic on (x, y, z). */
  predicate PointLessEq(a: QPoint, b: QPoint)
  {
    a.x < b.x || (a.x == b.x && (a.y < b.y || (a.y == b.y && a.z <= b.z)))
  }

  predicate SortedPoints(ps: seq<QPoint>)
  {
    forall i, j :: 0 <= i < j < |ps| ==> PointLessEq(ps[i], ps[j])
  }

  function InsertPoint(p: QPoint, ps: seq<QPoint>): seq<QPoint>
  {
    if ps == [] || PointLessEq(p, ps[0]) then [p] + ps
    else [ps[0]] + InsertPoint(p, ps[1..])
  }

  /** points.sort(): the quantised points in ascending order. */
  function SortPoints(ps: seq<QPoint>): seq<QPoint>
  {
    if ps == [] then []
    else InsertPoint(ps[0], SortPoints(ps[1..]))
  }

  /** Inserting adds the point, and keeps a sorted sequence sorted. */
  lemma {:induction false} InsertPointSpec(p: QPoint, ps: seq<QPoint>)
    ensures multiset(InsertPoint(p, ps)) == multiset(ps) + multiset{p}
    ensures SortedPoints(ps) ==> SortedPoints(InsertPoint(p, ps))
    decreases |ps|
  {
    if ps != [] && !PointLessEq(p, ps[0]) {
      assert ps == [ps[0]] + ps[1..];
      InsertPointSpec(p, ps[1..]);
      var r := InsertPoint(p, ps[1..]);
      if SortedPoints(ps) {
        forall k | 0 <= k < |r|
          ensures PointLessEq(ps[0], r[k])
        {
          assert r[k] in multiset(r);
          if r[k] != p {
            assert r[k] in multiset(ps[1..]);
            var j :| 0 <= j < |ps[1..]| && ps[1..][j] == r[k];
            assert ps[j + 1] == r[k];
          }
        }
      }
    }
  }

  /** Sorting keeps the points and puts them in order. */
  lemma {:induction false} SortPointsSpec(ps: seq<QPoint>)
    ensures multiset(SortPoints(ps)) == multiset(ps)
    ensures SortedPoints(SortPoints(ps))
    decreases |ps|
  {
    if ps != [] {
      assert ps == [ps[0]] + ps[1..];
      SortPointsSpec(ps[1..]);
      InsertPointSpec(ps[0], SortPoints(ps[1..]));
    }
  }

  /** The head of a sorted sequence is below every element of it. */
  lemma SortedHeadLeast(a: seq<QPoint>, x: QPoint)
    requires SortedPoints(a) && x in a
    ensures PointLessEq(a[0], x)
  {
    var j :| 0 <= j < |a| && a[j] == x;
    if j > 0 {
      assert PointLessEq(a[0], a[j]);
    }
  }

  lemma SortedTail(a: seq<QPoint>)
    requires SortedPoints(a) && a != []
    ensures SortedPoints(a[1..])
  {
    forall i, j | 0 <= i < j < |a| - 1
      ensures PointLessEq(a[1..][i], a[1..][j])
    {
      assert a[1..][i] == a[i + 1] && a[1..][j] == a[j + 1];
    }
  }

  lemma MultisetTail(a: seq<QPoint>)
    requires a != []
    ensures multiset(a[1..]) == multiset(a) - multiset{a[0]}
  {
    assert a == [a[0]] + a[1..];
  }

  /** Two sorted sequences holding the same points are the same sequence. */
  lemma {:induction false} SortedUnique(a: seq<QPoint>, b: seq<QPoint>)
    requires SortedPoints(a) && SortedPoints(b) && multiset(a) == multiset(b)
    ensures a == b
    decreases |a|
  {
    if a != [] {
      assert |b| == |a| by {
        assert |multiset(a)| == |a| && |multiset(b)| == |b|;
      }
      assert a[0] in multiset(b) && b[0] in multiset(a);
      SortedHeadLeast(b, a[0]);
      SortedHeadLeast(a, b[0]);
      assert a[0] == b[0];
      MultisetTail(a);
      MultisetTail(b);
      SortedTail(a);
      SortedTail(b);
      SortedUnique(a[1..], b[1..]);
    }
  }

  /** A polygon key: "empty" for no vertices, otherwise the sorted quantised vertices. */
  datatype PolygonKey = EmptyKey | PointsKey(points: seq<QPoint>)

  /** normalizedPolygonKey */
  function NormalizedPolygonKey(vertices: Polygon): PolygonKey
  {
    if |vertices| == 0 then EmptyKey else PointsKey(SortPoints(QuantizedPoints(vertices)))
  }

  /**
   * Two polygons share a key exactly when they have the same quantised
   * vertices, counted with multiplicity, whatever their order.
   */
  lemma PolygonKeyIff(a: Polygon, b: Polygon)
    ensures NormalizedPolygonKey(a) == NormalizedPolygonKey(b) <==>
      multiset(QuantizedPoints(a)) == multiset(QuantizedPoints(b))
  {
    if multiset(QuantizedPoints(a)) == multiset(QuantizedPoints(b)) {
      assert |QuantizedPoints(a)| == |QuantizedPoints(b)| by {
        assert |multiset(QuantizedPoints(a))| == |QuantizedPoints(a)|;
        assert |multiset(QuantizedPoints(b))| == |QuantizedPoints(b)|;
      }
      if |a| > 0 {
        SortPointsSpec(QuantizedPoints(a));
        SortPointsSpec(QuantizedPoints(b));
        SortedUnique(SortPoints(QuantizedPoints(a)), SortPoints(QuantizedPoints(b)));
      }
    }
    if NormalizedPolygonKey(a) == NormalizedPolygonKey(b) {
      if |a| == 0 {
        assert |b| == 0;
        assert QuantizedPoints(a) == [] && QuantizedPoints(b) == [];
      } else {
        SortPointsSpec(QuantizedPoints(a));
        SortPointsSpec(QuantizedPoints(b));
      }
    }
  }

  /** Starting the polygon at another vertex does not change its key. */
  lemma PolygonKeyRotation(vertices: Polygon, k: nat)
    requires k <= |vertices|
    ensures NormalizedPolygonKey(vertices[k..] + vertices[..k]) == NormalizedPolygonKey(vertices)
  {
    var r := vertices[k..] + vertices[..k];
    var q := QuantizedPoints(vertices);
    assert QuantizedPoints(r) == q[k..] + q[..k];
    assert q == q[..k] + q[k..];
    assert multiset(QuantizedPoints(r)) == multiset(q);
    PolygonKeyIff(r, vertices);
  }

  // ---------------------------------------------------------------------
  // Face keys

  /** faceRenderKey: block id, colour and solidity. */
  datatype RenderKey = RenderKey(blockId: string, color: int, solid: bool)

  /** The key of dedupeExactFaces: render key, facing, face type, inside/outside and polygon key. */
  datatype DedupeKey = DedupeKey(render: RenderKey, facing: Facing, faceType: FaceType, outside: bool, polygon: PolygonKey)

  /** The bucket key of seam removal: render key, inside/outside and polygon key. */
  datatype SeamKey = SeamKey(render: RenderKey, outside: bool, polygon: PolygonKey)

  function RenderKeyOf(face: VisibleFace): RenderKey
  {
    RenderKey(face.blockId, face.color, face.providesSolidFace)
  }

  function DedupeKeyOf(face: VisibleFace): DedupeKey
  {
    DedupeKey(RenderKeyOf(face), face.facing, face.faceType, face.outside, NormalizedPolygonKey(face.vertices))
  }

  function SeamKeyOf(face: VisibleFace): SeamKey
  {
    SeamKey(RenderKeyOf(face), face.outside, NormalizedPolygonKey(face.vertices))
  }

  // ---------------------------------------------------------------------
  // Order-preserving selections

  /** `a` is obtained from `b` by deleting elements: survivors keep their order. */
  ghost predicate IsSubsequence<T>(a: seq<T>, b: seq<T>)
    decreases |b|
  {
    if a == [] then true
    else if b == [] then false
    else (a[|a| - 1] == b[|b| - 1] && IsSubsequence(a[..|a| - 1], b[..|b| - 1])) || IsSubsequence(a, b[..|b| - 1])
  }

  lemma SubsequenceSkip<T>(a: seq<T>, b: seq<T>, x: T)
    requires IsSubsequence(a, b)
    ensures IsSubsequence(a, b + [x])
  {
    assert (b + [x])[..|b|] == b;
  }

  lemma SubsequenceKeep<T>(a: seq<T>, b: seq<T>, x: T)
    requires IsSubsequence(a, b)
    ensures IsSubsequence(a + [x], b + [x])
  {
    assert (b + [x])[..|b|] == b;
    assert (a + [x])[..|a|] == a;
  }

  /** Extending the source by one element, and the selection by that element or by nothing. */
  lemma SubsequenceStep<T>(a: seq<T>, b: seq<T>, x: T, keep: bool)
    requires IsSubsequence(a, b)
    ensures IsSubsequence(a + (if keep then [x] else []), b + [x])
  {
    if keep {
      SubsequenceKeep(a, b, x);
    } else {
      assert a + [] == a;
      SubsequenceSkip(a, b, x);
    }
  }

  // ---------------------------------------------------------------------
  // Exact duplicates

  function KeysOf(faces: seq<VisibleFace>): set<DedupeKey>
  {
    set f | f in faces :: DedupeKeyOf(f)
  }

  /** The faces of the list whose key no earlier face has, in order. */
  function Deduped(faces: seq<VisibleFace>): seq<VisibleFace>
    decreases |faces|
  {
    if faces == [] then []
    else
      var init := faces[..|faces| - 1];
      var last := faces[|faces| - 1];
      if DedupeKeyOf(last) in KeysOf(init) then Deduped(init) else Deduped(init) + [last]
  }

  lemma KeysOfSnoc(faces: seq<VisibleFace>, f: VisibleFace)
    ensures KeysOf(faces + [f]) == KeysOf(faces) + {DedupeKeyOf(f)}
  {
    assert forall g :: g in faces + [f] <==> g in faces || g == f;
  }

  /**
   * dedupeExactFaces: walks the faces once with a set of the keys seen so
   * far, keeping a face only when its key is new.
   */
  method DedupeExactFaces(faces: seq<VisibleFace>) returns (out: seq<VisibleFace>)
    ensures out == Deduped(faces)
  {
    var seen: set<DedupeKey> := {};
    out := [];
    for i := 0 to |faces|
      invariant seen == KeysOf(faces[..i])
      invariant out == Deduped(faces[..i])
    {
      assert faces[..i + 1] == faces[..i] + [faces[i]];
      KeysOfSnoc(faces[..i], faces[i]);
      var key := DedupeKeyOf(faces[i]);
      if key in seen {
        continue;
      }
      seen := seen + {key};
      out := out + [faces[i]];
    }
    assert faces[..|faces|] == faces;
  }

  /** The survivors keep their order. */
  lemma {:induction false} DedupedSubsequence(faces: seq<VisibleFace>)
    ensures IsSubsequence(Deduped(faces), faces)
    decreases |faces|
  {
    if faces != [] {
      var init := faces[..|faces| - 1];
      var last := faces[|faces| - 1];
      assert faces == init + [last];
      DedupedSubsequence(init);
      SubsequenceStep(Deduped(init), init, last, DedupeKeyOf(last) !in KeysOf(init));
    }
  }

  /** Every key of the input is still present. */
  lemma {:induction false} DedupedKeys(faces: seq<VisibleFace>)
    ensures KeysOf(Deduped(faces)) == KeysOf(faces)
    decreases |faces|
  {
    if faces != [] {
      var init := faces[..|faces| - 1];
      var last := faces[|faces| - 1];
      assert faces == init + [last];
      DedupedKeys(init);
      KeysOfSnoc(init, last);
      KeysOfSnoc(Deduped(init), last);
    }
  }

  /** No two survivors share a key. */
  lemma {:induction false} DedupedDistinct(faces: seq<VisibleFace>)
    ensures forall i, j :: 0 <= i < j < |Deduped(faces)| ==> DedupeKeyOf(Deduped(faces)[i]) != DedupeKeyOf(Deduped(faces)[j])
    decreases |faces|
  {
    if faces != [] {
      var init := faces[..|faces| - 1];
      var last := faces[|faces| - 1];
      DedupedDistinct(init);
      if DedupeKeyOf(last) !in KeysOf(init) {
        DedupedKeys(init);
        var d := Deduped(faces);
        forall i, j | 0 <= i < j < |d|
          ensures DedupeKeyOf(d[i]) != DedupeKeyOf(d[j])
        {
          if j == |d| - 1 {
            assert d[i] in Deduped(init);
          }
        }
      }
    }
  }

  /** The first face carrying a key is the one kept. */
  lemma {:induction false} DedupedKeepsFirst(faces: seq<VisibleFace>, i: nat)
    requires i < |faces| && DedupeKeyOf(faces[i]) !in KeysOf(faces[..i])
    ensures faces[i] in Deduped(faces)
    decreases |faces|
  {
    var init := faces[..|faces| - 1];
    if i == |faces| - 1 {
      assert init == faces[..i];
    } else {
      assert init[..i] == faces[..i];
      DedupedKeepsFirst(init, i);
    }
  }

  /** A list whose keys are already distinct passes through unchanged; so deduplication is idempotent. */
  lemma {:induction false} DedupedDistinctUnchanged(faces: seq<VisibleFace>)
    requires forall i, j :: 0 <= i < j < |faces| ==> DedupeKeyOf(faces[i]) != DedupeKeyOf(faces[j])
    ensures Deduped(faces) == faces
    decreases |faces|
  {
    if faces != [] {
      var init := faces[..|faces| - 1];
      DedupedDistinctUnchanged(init);
      var last := faces[|faces| - 1];
      forall g | g in init
        ensures DedupeKeyOf(g) != DedupeKeyOf(last)
      {
        var k :| 0 <= k < |init| && init[k] == g;
        assert faces[k] == g;
      }
    }
  }

  lemma DedupedIdempotent(faces: seq<VisibleFace>)
    ensures Deduped(Deduped(faces)) == Deduped(faces)
  {
    DedupedDistinct(faces);
    DedupedDistinctUnchanged(Deduped(faces));
  }

  // ---------------------------------------------------------------------
  // Transparent coplanar seams

  /** Only translucent axis faces take part in seam removal. */
  predicate SeamEligible(face: VisibleFace)
  {
    !face.providesSolidFace && face.faceType == AxisFace
  }

  /** The face falls into the given facing list of the given bucket. */
  predicate InSlot(face: VisibleFace, key: SeamKey, facing: Facing)
  {
    SeamEligible(face) && SeamKeyOf(face) == key && face.facing == facing
  }

  /** The indices of the faces in one facing list of one bucket, ascending. */
  function SlotIndices(faces: seq<VisibleFace>, key: SeamKey, facing: Facing): seq<nat>
    decreases |faces|
  {
    if faces == [] then []
    else
      var rest := SlotIndices(faces[..|faces| - 1], key, facing);
      if InSlot(faces[|faces| - 1], key, facing) then rest + [|faces| - 1] else rest
  }

  /** A facing list holds, in ascending order, indices of faces in that list. */
  lemma {:induction false} SlotIndicesSpec(faces: seq<VisibleFace>, key: SeamKey, facing: Facing)
    ensures forall k :: 0 <= k < |SlotIndices(faces, key, facing)| ==>
      SlotIndices(faces, key, facing)[k] < |faces| && InSlot(faces[SlotIndices(faces, key, facing)[k]], key, facing)
    ensures forall k, l :: 0 <= k < l < |SlotIndices(faces, key, facing)| ==>
      SlotIndices(faces, key, facing)[k] < SlotIndices(faces, key, facing)[l]
    decreases |faces|
  {
    if faces != [] {
      SlotIndicesSpec(faces[..|faces| - 1], key, facing);
    }
  }

  /** How many faces of the same bucket and facing come before face i. */
  function Rank(faces: seq<VisibleFace>, i: nat): nat
    requires i < |faces|
  {
    |SlotIndices(faces[..i], SeamKeyOf(faces[i]), faces[i].facing)|
  }

  /**
   * A face is removed as a seam when it is eligible and fewer faces of its
   * own bucket and facing precede it than there are faces of its bucket
   * with the opposite facing: the first min(|a|, |b|) of each side go.
   */
  predicate SeamRemoved(faces: seq<VisibleFace>, i: nat)
    requires i < |faces|
  {
    SeamEligible(faces[i]) &&
    Rank(faces, i) < |SlotIndices(faces, SeamKeyOf(faces[i]), OccluderOps.OppositeFacing(faces[i].facing))|
  }

  /** The first n faces without the removed ones, in order. */
  function SeamFiltered(faces: seq<VisibleFace>, n: nat): seq<VisibleFace>
    requires n <= |faces|
  {
    if n == 0 then []
    else SeamFiltered(faces, n - 1) + (if SeamRemoved(faces, n - 1) then [] else [faces[n - 1]])
  }

  function WithoutSeams(faces: seq<VisibleFace>): seq<VisibleFace>
  {
    SeamFiltered(faces, |faces|)
  }

  /** The indices of a shorter prefix are a prefix of the indices. */
  lemma {:induction false} SlotIndicesPrefix(faces: seq<VisibleFace>, m: nat, key: SeamKey, facing: Facing)
    requires m <= |faces|
    ensures SlotIndices(faces[..m], key, facing) <= SlotIndices(faces, key, facing)
    decreases |faces|
  {
    if m < |faces| {
      var init := faces[..|faces| - 1];
      assert init[..m] == faces[..m];
      SlotIndicesPrefix(init, m, key, facing);
    } else {
      assert faces[..m] == faces;
    }
  }

  /** An eligible face sits at position Rank in its facing list. */
  lemma RankIsPosition(faces: seq<VisibleFace>, i: nat)
    requires i < |faces| && SeamEligible(faces[i])
    ensures Rank(faces, i) < |SlotIndices(faces, SeamKeyOf(faces[i]), faces[i].facing)|
    ensures SlotIndices(faces, SeamKeyOf(faces[i]), faces[i].facing)[Rank(faces, i)] == i
  {
    var key := SeamKeyOf(faces[i]);
    var f := faces[i].facing;
    assert faces[..i + 1][..i] == faces[..i];
    assert SlotIndices(faces[..i + 1], key, f) == SlotIndices(faces[..i], key, f) + [i];
    SlotIndicesPrefix(faces, i + 1, key, f);
  }

  /** The face at position r of a facing list has rank r. */
  lemma PositionIsRank(faces: seq<VisibleFace>, key: SeamKey, facing: Facing, r: nat)
    requires r < |SlotIndices(faces, key, facing)|
    ensures SlotIndices(faces, key, facing)[r] < |faces|
    ensures Rank(faces, SlotIndices(faces, key, facing)[r]) == r
  {
    SlotIndicesSpec(faces, key, facing);
    var s := SlotIndices(faces, key, facing);
    var i := s[r];
    RankIsPosition(faces, i);
  }

  /**
   * Pairing off in a bucket: the face at position r of one facing list is
   * removed exactly when the opposite list has more than r faces. The
   * first min(|a|, |b|) faces of each side go and the surplus stays.
   */
  lemma PairOffRemovesFirstMin(faces: seq<VisibleFace>, key: SeamKey, facing: Facing, r: nat)
    requires r < |SlotIndices(faces, key, facing)|
    ensures SlotIndices(faces, key, facing)[r] < |faces|
    ensures SeamRemoved(faces, SlotIndices(faces, key, facing)[r]) <==>
      r < |SlotIndices(faces, key, OccluderOps.OppositeFacing(facing))|
  {
    SlotIndicesSpec(faces, key, facing);
    PositionIsRank(faces, key, facing, r);
  }

  /** The removed faces of one facing list of a bucket, by index. */
  ghost function RemovedIn(faces: seq<VisibleFace>, key: SeamKey, facing: Facing): set<nat>
  {
    set i: nat | i < |faces| && InSlot(faces[i], key, facing) && SeamRemoved(faces, i)
  }

  /** The first min(|list|, |other|) entries of a facing list: those pairOffFacing removes. */
  ghost function Paired(list: seq<nat>, other: seq<nat>): set<nat>
  {
    set r | 0 <= r < Min(|list|, |other|) :: list[r]
  }

  /** pairOffFacing removes from one list exactly the faces the rank rule removes. */
  lemma PairOffSlot(faces: seq<VisibleFace>, key: SeamKey, facing: Facing)
    ensures Paired(SlotIndices(faces, key, facing), SlotIndices(faces, key, OccluderOps.OppositeFacing(facing)))
      == RemovedIn(faces, key, facing)
  {
    SlotIndicesSpec(faces, key, facing);
    var s := SlotIndices(faces, key, facing);
    var m := Min(|s|, |SlotIndices(faces, key, OccluderOps.OppositeFacing(facing))|);
    forall r | 0 <= r < m
      ensures s[r] in RemovedIn(faces, key, facing)
    {
      PositionIsRank(faces, key, facing, r);
    }
    forall i | i in RemovedIn(faces, key, facing)
      ensures i in Paired(s, SlotIndices(faces, key, OccluderOps.OppositeFacing(facing)))
    {
      RankIsPosition(faces, i);
      assert s[Rank(faces, i)] == i;
    }
  }

  function Min(a: nat, b: nat): nat
  {
    if a <= b then a else b
  }

  /** The removed indices whose face has a bucket key among `keys`. */
  ghost function RemovedWithKeys(faces: seq<VisibleFace>, keys: set<SeamKey>): set<nat>
  {
    set i: nat | i < |faces| && SeamRemoved(faces, i) && SeamKeyOf(faces[i]) in keys
  }

  /** One bucket: six facing lists of indices. */
  type Bucket = map<Facing, seq<nat>>

  /** The bucket of a key holds, for every facing, that facing list of the faces. */
  ghost predicate BucketHolds(bucket: Bucket, faces: seq<VisibleFace>, key: SeamKey)
  {
    forall f: Facing :: f in bucket && bucket[f] == SlotIndices(faces, key, f)
  }

  /** Every eligible face has its bucket, and every bucket holds its facing lists. */
  ghost predicate BucketsHold(buckets: map<SeamKey, Bucket>, faces: seq<VisibleFace>)
  {
    (forall j :: 0 <= j < |faces| && SeamEligible(faces[j]) ==> SeamKeyOf(faces[j]) in buckets) &&
    (forall key :: key in buckets ==> BucketHolds(buckets[key], faces, key))
  }

  const EmptyBucket: Bucket := map f: Facing | true :: []

  /** A key no eligible face has gets empty facing lists. */
  lemma {:induction false} SlotIndicesOfUnusedKey(faces: seq<VisibleFace>, key: SeamKey, facing: Facing)
    requires forall j :: 0 <= j < |faces| && SeamEligible(faces[j]) ==> SeamKeyOf(faces[j]) != key
    ensures SlotIndices(faces, key, facing) == []
    decreases |faces|
  {
    if faces != [] {
      SlotIndicesOfUnusedKey(faces[..|faces| - 1], key, facing);
    }
  }

  /** Adding one face to the buckets. */
  lemma BucketStep(buckets: map<SeamKey, Bucket>, faces: seq<VisibleFace>, face: VisibleFace, key: SeamKey)
    requires BucketsHold(buckets, faces) && SeamEligible(face) && key == SeamKeyOf(face)
    ensures var bucket := if key in buckets then buckets[key] else EmptyBucket;
      BucketsHold(buckets[key := bucket[face.facing := bucket[face.facing] + [|faces|]]], faces + [face])
  {
    var next := faces + [face];
    assert next[..|faces|] == faces;
    var bucket := if key in buckets then buckets[key] else EmptyBucket;
    if key !in buckets {
      forall f: Facing
        ensures SlotIndices(faces, key, f) == []
      {
        SlotIndicesOfUnusedKey(faces, key, f);
      }
    }
    var nb := buckets[key := bucket[face.facing := bucket[face.facing] + [|faces|]]];
    forall k, f: Facing | k in nb
      ensures f in nb[k] && nb[k][f] == SlotIndices(next, k, f)
    {
      assert SlotIndices(next, k, f) == SlotIndices(faces, k, f) + (if InSlot(face, k, f) then [|faces|] else []);
    }
    assert forall j :: 0 <= j < |next| && SeamEligible(next[j]) ==> SeamKeyOf(next[j]) in nb by {
      forall j | 0 <= j < |next| && SeamEligible(next[j])
        ensures SeamKeyOf(next[j]) in nb
      {
        if j < |faces| {
          assert next[j] == faces[j];
        }
      }
    }
  }

  /** A face outside seam removal leaves the buckets as they are. */
  lemma BucketSkip(buckets: map<SeamKey, Bucket>, faces: seq<VisibleFace>, face: VisibleFace)
    requires BucketsHold(buckets, faces) && !SeamEligible(face)
    ensures BucketsHold(buckets, faces + [face])
  {
    var next := faces + [face];
    assert next[..|faces|] == faces;
  }

  /** The bucketing loop of removeTransparentCoplanarSeams. */
  method CollectSeamBuckets(faces: seq<VisibleFace>) returns (buckets: map<SeamKey, Bucket>)
    ensures BucketsHold(buckets, faces)
  {
    buckets := map[];
    for index := 0 to |faces|
      invariant BucketsHold(buckets, faces[..index])
    {
      var face := faces[index];
      assert faces[..index + 1] == faces[..index] + [face];
      if !SeamEligible(face) {
        BucketSkip(buckets, faces[..index], face);
        continue;
      }
      var key := SeamKeyOf(face);
      BucketStep(buckets, faces[..index], face, key);
      var bucket := if key in buckets then buckets[key] else EmptyBucket;
      buckets := buckets[key := bucket[face.facing := bucket[face.facing] + [index]]];
    }
    assert faces[..|faces|] == faces;
  }

  /** pairOffFacing: the first min(|first|, |second|) entries of both lists join the removed set. */
  method PairOffFacing(first: seq<nat>, second: seq<nat>, removed: set<nat>) returns (r: set<nat>)
    ensures r == removed + Paired(first, second) + Paired(second, first)
  {
    var pairCount := Min(|first|, |second|);
    r := removed;
    for i := 0 to pairCount
      invariant r == removed + (set k | 0 <= k < i :: first[k]) + (set k | 0 <= k < i :: second[k])
    {
      r := r + {first[i]} + {second[i]};
    }
  }

  /** The removed faces of one facing list are removed faces of that bucket. */
  lemma RemovedInWithKey(faces: seq<VisibleFace>, key: SeamKey, facing: Facing)
    ensures RemovedIn(faces, key, facing) <= RemovedWithKeys(faces, {key})
  {
  }

  /** A bucket's removed faces are those of its six facing lists. */
  lemma RemovedWithKeySplit(faces: seq<VisibleFace>, key: SeamKey)
    ensures RemovedWithKeys(faces, {key}) ==
      RemovedIn(faces, key, UP) + RemovedIn(faces, key, DOWN) + RemovedIn(faces, key, NORTH) +
      RemovedIn(faces, key, SOUTH) + RemovedIn(faces, key, WEST) + RemovedIn(faces, key, EAST)
  {
    var rhs := RemovedIn(faces, key, UP) + RemovedIn(faces, key, DOWN) + RemovedIn(faces, key, NORTH) +
      RemovedIn(faces, key, SOUTH) + RemovedIn(faces, key, WEST) + RemovedIn(faces, key, EAST);
    var lhs := RemovedWithKeys(faces, {key});
    forall i | i in lhs
      ensures i in rhs
    {
      assert i in RemovedIn(faces, key, faces[i].facing);
    }
    RemovedInWithKey(faces, key, UP);
    RemovedInWithKey(faces, key, DOWN);
    RemovedInWithKey(faces, key, NORTH);
    RemovedInWithKey(faces, key, SOUTH);
    RemovedInWithKey(faces, key, WEST);
    RemovedInWithKey(faces, key, EAST);
    assert lhs == rhs;
  }

  /** The three opposite pairs of one bucket remove exactly that bucket's seam faces. */
  method PairOffBucket(faces: seq<VisibleFace>, key: SeamKey, bucket: Bucket, removed: set<nat>) returns (r: set<nat>)
    requires BucketHolds(bucket, faces, key)
    ensures r == removed + RemovedWithKeys(faces, {key})
  {
    r := PairOffFacing(bucket[UP], bucket[DOWN], removed);
    r := PairOffFacing(bucket[NORTH], bucket[SOUTH], r);
    r := PairOffFacing(bucket[WEST], bucket[EAST], r);
    PairOffSlot(faces, key, UP);
    PairOffSlot(faces, key, DOWN);
    PairOffSlot(faces, key, NORTH);
    PairOffSlot(faces, key, SOUTH);
    PairOffSlot(faces, key, WEST);
    PairOffSlot(faces, key, EAST);
    RemovedWithKeySplit(faces, key);
  }

  /** The removed-index set: every bucket paired off. */
  method RemovedIndices(faces: seq<VisibleFace>, buckets: map<SeamKey, Bucket>) returns (removed: set<nat>)
    requires BucketsHold(buckets, faces)
    ensures removed == RemovedWithKeys(faces, buckets.Keys)
    ensures forall i :: 0 <= i < |faces| ==> (i in removed <==> SeamRemoved(faces, i))
  {
    removed := {};
    var todo := buckets.Keys;
    while todo != {}
      invariant todo <= buckets.Keys
      invariant removed == RemovedWithKeys(faces, buckets.Keys - todo)
      decreases todo
    {
      var key :| key in todo;
      removed := PairOffBucket(faces, key, buckets[key], removed);
      assert buckets.Keys - (todo - {key}) == (buckets.Keys - todo) + {key};
      todo := todo - {key};
    }
    assert buckets.Keys - todo == buckets.Keys;
  }

  lemma SeamFilteredNoneRemoved(faces: seq<VisibleFace>, n: nat)
    requires n <= |faces|
    requires forall i :: 0 <= i < |faces| ==> !SeamRemoved(faces, i)
    ensures SeamFiltered(faces, n) == faces[..n]
  {
    if n > 0 {
      SeamFilteredNoneRemoved(faces, n - 1);
      assert faces[..n] == faces[..n - 1] + [faces[n - 1]];
    }
  }

  /**
   * removeTransparentCoplanarSeams: buckets the translucent axis faces by
   * render key, side and polygon key, pairs off UP/DOWN, NORTH/SOUTH and
   * WEST/EAST in each bucket, and drops the paired faces; the result is the
   * input itself when nothing pairs.
   */
  method RemoveTransparentCoplanarSeams(faces: seq<VisibleFace>) returns (out: seq<VisibleFace>)
    ensures out == WithoutSeams(faces)
  {
    var buckets := CollectSeamBuckets(faces);
    var removed := RemovedIndices(faces, buckets);
    if |removed| == 0 {
      SeamFilteredNoneRemoved(faces, |faces|);
      assert faces[..|faces|] == faces;
      return faces;
    }
    out := [];
    for index := 0 to |faces|
      invariant out == SeamFiltered(faces, index)
    {
      if index !in removed {
        out := out + [faces[index]];
      }
    }
  }

  /** Seam removal keeps the order of the survivors. */
  lemma {:induction false} SeamFilteredSubsequence(faces: seq<VisibleFace>, n: nat)
    requires n <= |faces|
    ensures IsSubsequence(SeamFiltered(faces, n), faces[..n])
  {
    if n > 0 {
      SeamFilteredSubsequence(faces, n - 1);
      assert faces[..n] == faces[..n - 1] + [faces[n - 1]];
      SubsequenceStep(SeamFiltered(faces, n - 1), faces[..n - 1], faces[n - 1], !SeamRemoved(faces, n - 1));
    }
  }

  /** Seam removal never removes a solid face or a tilted face. */
  lemma {:induction false} SeamFilteredKeepsIneligible(faces: seq<VisibleFace>, n: nat, i: nat)
    requires i < n <= |faces| && !SeamEligible(faces[i])
    ensures faces[i] in SeamFiltered(faces, n)
  {
    if i < n - 1 {
      SeamFilteredKeepsIneligible(faces, n - 1, i);
    }
  }

  /** The survivors of seam removal keep their order, and solid or tilted faces all survive. */
  lemma WithoutSeamsSpec(faces: seq<VisibleFace>)
    ensures IsSubsequence(WithoutSeams(faces), faces)
    ensures forall i :: 0 <= i < |faces| && !SeamEligible(faces[i]) ==> faces[i] in WithoutSeams(faces)
  {
    SeamFilteredSubsequence(faces, |faces|);
    assert faces[..|faces|] == faces;
    forall i | 0 <= i < |faces| && !SeamEligible(faces[i])
      ensures faces[i] in WithoutSeams(faces)
    {
      SeamFilteredKeepsIneligible(faces, |faces|, i);
    }
  }

  // ---------------------------------------------------------------------
  // The pipeline

  datatype PassStats = PassStats(passId: string, before: nat, after: nat, removed: int)

  datatype PipelineStats = PipelineStats(mode: GeometryMode, optimize: bool, inputFaceCount: nat,
                                         outputFaceCount: nat, removedFaceCount: int, passes: seq<PassStats>)

  lemma SubsequenceShorter<T>(a: seq<T>, b: seq<T>)
    requires IsSubsequence(a, b)
    ensures |a| <= |b|
    decreases |b|
  {
    if a != [] && b != [] {
      if a[|a| - 1] == b[|b| - 1] && IsSubsequence(a[..|a| - 1], b[..|b| - 1]) {
        SubsequenceShorter(a[..|a| - 1], b[..|b| - 1]);
      } else {
        SubsequenceShorter(a, b[..|b| - 1]);
      }
    }
  }

  /**
   * applyGeometryModePipeline: in client mode with optimise on, dedupe
   * then seam removal, each recorded as a pass with its before, after and
   * removed counts; otherwise the faces unchanged and no pass. The removed
   * count is always input minus output, and never negative.
   */
  method ApplyGeometryModePipeline(faces: seq<VisibleFace>, options: Json)
    returns (out: seq<VisibleFace>, stats: PipelineStats)
    ensures stats.mode == ResolveGeometryMode(options) && stats.optimize == ResolveOptimizeFaces(options)
    ensures !(stats.optimize && stats.mode == Client) ==> out == faces && stats.passes == []
    ensures stats.optimize && stats.mode == Client ==> out == WithoutSeams(Deduped(faces)) && |stats.passes| == 2
    ensures stats.inputFaceCount == |faces| && stats.outputFaceCount == |out|
    ensures stats.removedFaceCount == |faces| - |out| >= 0
    ensures forall p :: p in stats.passes ==> p.removed == p.before - p.after >= 0
    ensures IsSubsequence(out, faces)
  {
    var mode := ResolveGeometryMode(options);
    var optimize := ResolveOptimizeFaces(options);
    var working := faces;
    var passes: seq<PassStats> := [];
    SubsequenceReflexive(faces);
    if optimize && mode == Client {
      var deduped := DedupeExactFaces(working);
      DedupedSubsequence(working);
      SubsequenceShorter(deduped, working);
      passes := passes + [PassStats("dedupe_exact_faces", |working|, |deduped|, |working| - |deduped|)];
      working := deduped;
      var seamRemoved := RemoveTransparentCoplanarSeams(working);
      WithoutSeamsSpec(working);
      SubsequenceShorter(seamRemoved, working);
      SubsequenceTransitive(seamRemoved, working, faces);
      passes := passes + [PassStats("remove_transparent_coplanar_seams", |working|, |seamRemoved|, |working| - |seamRemoved|)];
      working := seamRemoved;
    }
    SubsequenceShorter(working, faces);
    out := working;
    stats := PipelineStats(mode, optimize, |faces|, |working|, |faces| - |working|, passes);
  }

  lemma {:induction false} SubsequenceReflexive<T>(a: seq<T>)
    ensures IsSubsequence(a, a)
    decreases |a|
  {
    if a != [] {
      SubsequenceReflexive(a[..|a| - 1]);
    }
  }

  lemma {:induction false} SubsequenceTransitive<T>(a: seq<T>, b: seq<T>, c: seq<T>)
    requires IsSubsequence(a, b) && IsSubsequence(b, c)
    ensures IsSubsequence(a, c)
    decreases |c|, |b|
  {
    if a != [] {
      assert b != [] && c != [];
      var a0, b0, c0 := a[..|a| - 1], b[..|b| - 1], c[..|c| - 1];
      if b[|b| - 1] == c[|c| - 1] && IsSubsequence(b0, c0) {
        if a[|a| - 1] == b[|b| - 1] && IsSubsequence(a0, b0) {
          SubsequenceTransitive(a0, b0, c0);
        } else {
          SubsequenceTransitive(a, b0, c0);
        }
      } else {
        SubsequenceTransitive(a, b, c0);
      }
    }
  }
}
