/**
 * The polygon kernel of the face pipeline: vectors, degeneracy, polygon
 * equality, dedupe, simplification, plane clipping (a Sutherland-Hodgman
 * style cut), 2-D cuts by rays and the axis-aligned face rectangle.
 *
 * Coordinates are reals; the float32 rounding of the source is not modelled
 * and the epsilons are kept as named constants.
 */
module PolygonOps {
  import opened Wrappers
  import opened Facings

  const EPSILON: real := 0.0005
  const CUT_EPSILON: real := 0.0005
  /** Tolerance for world-space plane and bound comparisons. */
  const BOUNDARY_EPSILON: real := 0.000000001
  /** Tolerance for raw grid coordinates. */
  const RAW_COORD_EPSILON: real := 0.000001
  /** Squared length of the summed fan normal below which a polygon is degenerate. */
  const DEGENERATE_LIMIT: real := 0.000000000001

  datatype Vec3 = Vec3(x: real, y: real, z: real)
  {
    function At(i: nat): real
      requires i < 3
    {
      if i == 0 then x else if i == 1 then y else z
    }
  }

  type Polygon = seq<Vec3>

  const Zero: Vec3 := Vec3(0.0, 0.0, 0.0)

  function Abs(r: real): real { if r < 0.0 then -r else r }

  function Add(a: Vec3, b: Vec3): Vec3 { Vec3(a.x + b.x, a.y + b.y, a.z + b.z) }

  function Sub(a: Vec3, b: Vec3): Vec3 { Vec3(a.x - b.x, a.y - b.y, a.z - b.z) }

  function Scale(a: Vec3, k: real): Vec3 { Vec3(a.x * k, a.y * k, a.z * k) }

  function Cross(a: Vec3, b: Vec3): Vec3
  {
    Vec3(a.y * b.z - a.z * b.y, a.z * b.x - a.x * b.z, a.x * b.y - a.y * b.x)
  }

  function Dot(a: Vec3, b: Vec3): real { a.x * b.x + a.y * b.y + a.z * b.z }

  function SqLen(a: Vec3): real { Dot(a, a) }

  /** pointsEqual: every coordinate differs by at most eps. */
  predicate PointsEqual(a: Vec3, b: Vec3, eps: real)
  {
    Abs(a.x - b.x) <= eps && Abs(a.y - b.y) <= eps && Abs(a.z - b.z) <= eps
  }

  // ---------------------------------------------------------------------
  // Degeneracy

  /**
   * Sum of the fan cross products (poly[i] - poly[0]) x (poly[i+1] - poly[0])
   * for 1 <= i < k: the running normal of isDegeneratePolygon after the
   * iterations before index k.
   */
  function FanNormal(poly: Polygon, k: nat): Vec3
    requires 1 <= k < |poly|
    decreases k
  {
    if k == 1 then Zero
    else
      var o := poly[0];
      Add(FanNormal(poly, k - 1), Cross(Sub(poly[k - 1], o), Sub(poly[k], o)))
  }

  /** A polygon is degenerate when it has fewer than 3 vertices or a (near) zero fan normal. */
  predicate Degenerate(poly: Polygon)
  {
    |poly| < 3 || SqLen(FanNormal(poly, |poly| - 1)) < DEGENERATE_LIMIT
  }

  predicate Renderable(poly: Polygon)
  {
    |poly| >= 3 && !Degenerate(poly)
  }

  /** isDegeneratePolygon */
  method IsDegeneratePolygon(poly: Polygon) returns (b: bool)
    ensures b == Degenerate(poly)
  {
    if |poly| < 3 {
      return true;
    }
    var origin := poly[0];
    var n := Zero;
    var i := 1;
    while i + 1 < |poly|
      invariant 1 <= i <= |poly| - 1
      invariant n == FanNormal(poly, i)
    {
      var c := Cross(Sub(poly[i], origin), Sub(poly[i + 1], origin));
      n := Add(n, c);
      i := i + 1;
    }
    b := SqLen(n) < DEGENERATE_LIMIT;
  }

  /** Every vertex moved by t; the translation lemmas below are stated with it. */
  function Translate(poly: Polygon, t: Vec3): (r: Polygon)
    ensures |r| == |poly|
    ensures forall i :: 0 <= i < |poly| ==> r[i] == Add(poly[i], t)
  {
    if poly == [] then [] else [Add(poly[0], t)] + Translate(poly[1..], t)
  }

  lemma {:induction false} FanNormalTranslate(poly: Polygon, t: Vec3, k: nat)
    requires 1 <= k < |poly|
    ensures FanNormal(Translate(poly, t), k) == FanNormal(poly, k)
    decreases k
  {
    if k > 1 {
      FanNormalTranslate(poly, t, k - 1);
      var q := Translate(poly, t);
      assert Sub(q[k - 1], q[0]) == Sub(poly[k - 1], poly[0]);
      assert Sub(q[k], q[0]) == Sub(poly[k], poly[0]);
    }
  }

  /** Degeneracy is a property of the shape: moving a polygon does not change it. */
  lemma DegenerateTranslationInvariant(poly: Polygon, t: Vec3)
    ensures Degenerate(Translate(poly, t)) == Degenerate(poly)
  {
    if |poly| >= 3 {
      FanNormalTranslate(poly, t, |poly| - 1);
    }
  }

  /** A polygon all of whose vertices coincide is degenerate. */
  lemma {:induction false} CoincidentFanNormal(poly: Polygon, k: nat)
    requires 1 <= k < |poly|
    requires forall i :: 0 <= i < |poly| ==> poly[i] == poly[0]
    ensures FanNormal(poly, k) == Zero
    decreases k
  {
    if k > 1 {
      CoincidentFanNormal(poly, k - 1);
    }
  }

  lemma CoincidentIsDegenerate(poly: Polygon)
    requires forall i :: 0 <= i < |poly| ==> poly[i] == poly[0]
    ensures Degenerate(poly)
  {
    if |poly| >= 3 {
      CoincidentFanNormal(poly, |poly| - 1);
    }
  }

  /** hasRenderablePolygon: some entry has at least 3 vertices and is not degenerate. */
  method HasRenderablePolygon(polys: seq<Polygon>) returns (b: bool)
    ensures b <==> exists i :: 0 <= i < |polys| && Renderable(polys[i])
  {
    var i := 0;
    while i < |polys|
      invariant 0 <= i <= |polys|
      invariant forall j :: 0 <= j < i ==> !Renderable(polys[j])
    {
      if |polys[i]| >= 3 {
        var d := IsDegeneratePolygon(polys[i]);
        if !d {
          return true;
        }
      }
      i := i + 1;
    }
    return false;
  }

  // ---------------------------------------------------------------------
  // Polygon equality and dedupe

  predicate HasClosePoint(p: Vec3, b: Polygon, eps: real)
  {
    exists j :: 0 <= j < |b| && PointsEqual(p, b[j], eps)
  }

  /**
   * The relation polygonsEqual computes: equal lengths and every vertex of
   * `a` has an eps-close vertex somewhere in `b` (order is ignored).
   */
  predicate EqualWithin(a: Polygon, b: Polygon, eps: real)
  {
    |a| == |b| && forall i :: 0 <= i < |a| ==> HasClosePoint(a[i], b, eps)
  }

  /** The inner search of polygonsEqual and createStrip: is some vertex of b within eps of p? */
  method FindClosePoint(p: Vec3, b: Polygon, eps: real) returns (found: bool)
    ensures found == HasClosePoint(p, b, eps)
  {
    for j := 0 to |b|
      invariant forall m :: 0 <= m < j ==> !PointsEqual(p, b[m], eps)
    {
      if PointsEqual(p, b[j], eps) {
        return true;
      }
    }
    return false;
  }

  /** polygonsEqual */
  method PolygonsEqual(a: Polygon, b: Polygon, eps: real) returns (r: bool)
    ensures r == EqualWithin(a, b, eps)
  {
    if |a| != |b| {
      return false;
    }
    for i := 0 to |a|
      invariant forall k :: 0 <= k < i ==> HasClosePoint(a[k], b, eps)
    {
      var found := FindClosePoint(a[i], b, eps);
      if !found {
        return false;
      }
    }
    return true;
  }

  /** Every polygon equals itself for a non-negative tolerance. */
  lemma EqualWithinReflexive(a: Polygon, eps: real)
    requires eps >= 0.0
    ensures EqualWithin(a, a, eps)
  {
    forall i | 0 <= i < |a|
      ensures HasClosePoint(a[i], a, eps)
    {
      assert PointsEqual(a[i], a[i], eps);
    }
  }

  /** The relation is not symmetric: a repeated vertex can hide a missing one. */
  lemma EqualWithinIsNotSymmetric()
    ensures var p, q, s := Vec3(0.0, 0.0, 0.0), Vec3(1.0, 0.0, 0.0), Vec3(0.0, 1.0, 0.0);
      EqualWithin([p, p, q], [p, q, s], EPSILON) && !EqualWithin([p, q, s], [p, p, q], EPSILON)
  {
    var p, q, s := Vec3(0.0, 0.0, 0.0), Vec3(1.0, 0.0, 0.0), Vec3(0.0, 1.0, 0.0);
    assert PointsEqual(p, [p, q, s][0], EPSILON);
    assert PointsEqual(q, [p, q, s][1], EPSILON);
    assert [p, q, s][2] == s;
    assert !HasClosePoint(s, [p, p, q], EPSILON);
  }

  predicate HasEqual(kept: seq<Polygon>, p: Polygon, eps: real)
  {
    exists k :: 0 <= k < |kept| && EqualWithin(kept[k], p, eps)
  }

  /** The polygons dedupePolygons keeps from a list, processed front to back. */
  function Dedupe(polys: seq<Polygon>, eps: real): seq<Polygon>
    decreases |polys|
  {
    if polys == [] then []
    else
      var prev := Dedupe(polys[..|polys| - 1], eps);
      var p := polys[|polys| - 1];
      if HasEqual(prev, p, eps) then prev else prev + [p]
  }

  /** dedupePolygons */
  method DedupePolygons(polys: seq<Polygon>, eps: real) returns (out: seq<Polygon>)
    ensures out == Dedupe(polys, eps)
  {
    out := [];
    var i := 0;
    while i < |polys|
      invariant 0 <= i <= |polys|
      invariant out == Dedupe(polys[..i], eps)
    {
      var poly := polys[i];
      var duplicate := false;
      var k := 0;
      while k < |out|
        invariant 0 <= k <= |out|
        invariant !duplicate ==> forall m :: 0 <= m < k ==> !EqualWithin(out[m], poly, eps)
        invariant duplicate ==> HasEqual(out, poly, eps)
      {
        var same := PolygonsEqual(out[k], poly, eps);
        if same {
          duplicate := true;
          break;
        }
        k := k + 1;
      }
      assert polys[..i + 1][..i] == polys[..i];
      if !duplicate {
        out := out + [poly];
      }
      i := i + 1;
    }
    assert polys[..|polys|] == polys;
  }

  /** Indices of the polygons Dedupe keeps. */
  function DedupeIndices(polys: seq<Polygon>, eps: real): seq<nat>
    decreases |polys|
  {
    if polys == [] then []
    else
      var prev := DedupeIndices(polys[..|polys| - 1], eps);
      if HasEqual(Dedupe(polys[..|polys| - 1], eps), polys[|polys| - 1], eps) then prev
      else prev + [|polys| - 1]
  }

  /**
   * dedupePolygons keeps an order-preserving subsequence of its input: the
   * kept polygons are the input at strictly increasing indices.
   */
  lemma {:induction false} DedupeIsSubsequence(polys: seq<Polygon>, eps: real)
    ensures var d, ix := Dedupe(polys, eps), DedupeIndices(polys, eps);
      |ix| == |d| <= |polys| &&
      (forall k :: 0 <= k < |ix| ==> ix[k] < |polys| && d[k] == polys[ix[k]]) &&
      (forall k, l :: 0 <= k < l < |ix| ==> ix[k] < ix[l])
    decreases |polys|
  {
    if polys != [] {
      var init := polys[..|polys| - 1];
      DedupeIsSubsequence(init, eps);
      forall k | 0 <= k < |DedupeIndices(init, eps)|
        ensures polys[DedupeIndices(init, eps)[k]] == init[DedupeIndices(init, eps)[k]]
      {
      }
    }
  }

  /** The first polygon always survives. */
  lemma DedupeKeepsFirst(polys: seq<Polygon>, eps: real)
    requires polys != []
    ensures Dedupe(polys, eps) != [] && Dedupe(polys, eps)[0] == polys[0]
  {
    DedupeNonEmpty(polys, eps);
  }

  lemma {:induction false} DedupeNonEmpty(polys: seq<Polygon>, eps: real)
    requires polys != []
    ensures Dedupe(polys, eps) != [] && Dedupe(polys, eps)[0] == polys[0]
    decreases |polys|
  {
    var init := polys[..|polys| - 1];
    if init != [] {
      DedupeNonEmpty(init, eps);
      assert init[0] == polys[0];
    } else {
      assert Dedupe(init, eps) == [];
      assert !HasEqual([], polys[0], eps);
    }
  }

  /**
   * No kept polygon equals an earlier kept one, and every input polygon is
   * matched by some kept polygon.
   */
  lemma {:induction false} DedupeDistinctAndComplete(polys: seq<Polygon>, eps: real)
    ensures var d := Dedupe(polys, eps);
      (forall k, l :: 0 <= k < l < |d| ==> !EqualWithin(d[k], d[l], eps)) &&
      (forall i :: 0 <= i < |polys| ==> HasEqual(d, polys[i], eps) || polys[i] in d)
    decreases |polys|
  {
    if polys != [] {
      var init := polys[..|polys| - 1];
      DedupeDistinctAndComplete(init, eps);
      var prev := Dedupe(init, eps);
      var d := Dedupe(polys, eps);
      forall i | 0 <= i < |polys|
        ensures HasEqual(d, polys[i], eps) || polys[i] in d
      {
        if i < |polys| - 1 {
          assert polys[i] == init[i];
          if HasEqual(prev, polys[i], eps) {
            var k :| 0 <= k < |prev| && EqualWithin(prev[k], polys[i], eps);
            assert d[k] == prev[k];
          } else {
            assert polys[i] in prev;
          }
        }
      }
    }
  }

  // ---------------------------------------------------------------------
  // Simplification

  predicate ConsecutiveDistinct(s: Polygon)
  {
    forall i :: 0 <= i < |s| - 1 ==> !PointsEqual(s[i], s[i + 1], EPSILON)
  }

  /** The first pass of simplifyPolygon: push a point unless it equals the last pushed one. */
  function PushDistinct(poly: Polygon): (r: Polygon)
    ensures |r| <= |poly|
    ensures poly != [] ==> r != [] && r[0] == poly[0]
    ensures ConsecutiveDistinct(r)
    ensures forall v :: v in r ==> v in poly
    decreases |poly|
  {
    if poly == [] then []
    else
      var out := PushDistinct(poly[..|poly| - 1]);
      var p := poly[|poly| - 1];
      if out == [] || !PointsEqual(out[|out| - 1], p, EPSILON) then out + [p] else out
  }

  /**
   * isPointBetween: the cross product of (end - start) and (between - start)
   * has an L1 norm below eps, i.e. the three points are (nearly) collinear.
   */
  predicate PointBetween(start: Vec3, end: Vec3, between: Vec3, eps: real)
  {
    var c := Cross(Sub(end, start), Sub(between, start));
    Abs(c.x) + Abs(c.y) + Abs(c.z) < eps
  }

  /** The closing trims shared by simplifyPolygon and clipPolygonByPlane. */
  function TrimCollinearEnds(s: Polygon): (r: Polygon)
    ensures |r| <= |s|
    ensures forall v :: v in r ==> v in s
    ensures ConsecutiveDistinct(s) ==> ConsecutiveDistinct(r)
  {
    var s2 := if |s| >= 3 && PointBetween(s[|s| - 2], s[0], s[|s| - 1], EPSILON) then s[..|s| - 1] else s;
    var s3 := if |s2| >= 3 && PointBetween(s2[|s2| - 1], s2[1], s2[0], EPSILON) then s2[1..] else s2;
    assert forall v :: v in s2 ==> v in s;
    s3
  }

  /** The result simplifyPolygon computes. */
  function Simplify(poly: Polygon): (r: Option<Polygon>)
    ensures r.Some? ==> Renderable(r.value) && ConsecutiveDistinct(r.value)
    ensures r.Some? ==> forall v :: v in r.value ==> v in poly
  {
    if |poly| < 3 then None
    else
      var s0 := PushDistinct(poly);
      var s1 := if |s0| > 1 && PointsEqual(s0[0], s0[|s0| - 1], EPSILON) then s0[..|s0| - 1] else s0;
      var s3 := TrimCollinearEnds(s1);
      if |s3| < 3 || Degenerate(s3) then None else Some(s3)
  }

  /** The first loop of simplifyPolygon. */
  method PushDistinctPoints(poly: Polygon) returns (out: Polygon)
    ensures out == PushDistinct(poly)
  {
    out := [];
    var i := 0;
    while i < |poly|
      invariant 0 <= i <= |poly|
      invariant out == PushDistinct(poly[..i])
    {
      assert poly[..i + 1][..i] == poly[..i];
      if |out| == 0 || !PointsEqual(out[|out| - 1], poly[i], EPSILON) {
        out := out + [poly[i]];
      }
      i := i + 1;
    }
    assert poly[..|poly|] == poly;
  }

  /** simplifyPolygon */
  method SimplifyPolygon(poly: Polygon) returns (r: Option<Polygon>)
    ensures r == Simplify(poly)
  {
    if |poly| < 3 {
      return None;
    }
    var out := PushDistinctPoints(poly);
    if |out| > 1 && PointsEqual(out[0], out[|out| - 1], EPSILON) {
      out := out[..|out| - 1];
    }
    ghost var closed := out;
    if |out| >= 3 && PointBetween(out[|out| - 2], out[0], out[|out| - 1], EPSILON) {
      out := out[..|out| - 1];
    }
    if |out| >= 3 && PointBetween(out[|out| - 1], out[1], out[0], EPSILON) {
      out := out[1..];
    }
    assert out == TrimCollinearEnds(closed);
    if |out| < 3 {
      return None;
    }
    var d := IsDegeneratePolygon(out);
    if d {
      return None;
    }
    return Some(out);
  }

  // ---------------------------------------------------------------------
  // Planes and clipping

  /**
   * A cutting plane. The source normalises the normal with Math.hypot and
   * marks the plane invalid when that yields NaN; the model takes the
   * normal as given and keeps the invalid flag.
   */
  datatype Plane = Plane(origin: Vec3, normal: Vec3, invalid: bool)

  function PlaneValue(plane: Plane, p: Vec3): real
  {
    Dot(plane.normal, Sub(p, plane.origin))
  }

  /** isInFront: None when the signed distance is within eps of the plane, else whether it is positive. */
  function InFront(plane: Plane, p: Vec3, eps: real): (r: Option<bool>)
    ensures eps > 0.0 ==> (r.None? <==> -eps < PlaneValue(plane, p) < eps)
    ensures eps > 0.0 ==> (r == Some(true) <==> PlaneValue(plane, p) >= eps)
    ensures eps > 0.0 ==> (r == Some(false) <==> PlaneValue(plane, p) <= -eps)
  {
    var value := PlaneValue(plane, p);
    if (if value < 0.0 then value > -eps else value < eps) then None
    else Some(value > 0.0)
  }

  /** The per-vertex flag of clipPolygonByPlane: true when the vertex is behind the plane (kept). */
  function Behind(plane: Plane, p: Vec3, eps: real): Option<bool>
  {
    match InFront(plane, p, eps)
    case None => None
    case Some(b) => Some(!b)
  }

  predicate OnPlane(plane: Plane, p: Vec3)
  {
    PlaneValue(plane, p) == 0.0
  }

  /**
   * planeIntersectSegment over the reals: with the unit direction written
   * out, the two Math.hypot guards become comparisons of squares and the
   * point is start + dir * (n.(origin - start)) / (n.dir).
   */
  function PlaneIntersectSegment(plane: Plane, start: Vec3, end: Vec3): (r: Option<Vec3>)
    ensures r.Some? ==> OnPlane(plane, r.value)
  {
    var dir := Sub(end, start);
    var nd := Dot(plane.normal, dir);
    if SqLen(dir) <= EPSILON * EPSILON then None
    else if nd * nd <= EPSILON * EPSILON * SqLen(dir) then None
    else
      var t := Dot(plane.normal, Sub(plane.origin, start)) / nd;
      assert t * nd == Dot(plane.normal, Sub(plane.origin, start));
      SegmentPointOnPlane(plane, start, dir, t);
      Some(Add(start, Scale(dir, t)))
  }

  /** The point start + dir * t lies on the plane when t * (n.dir) equals n.(origin - start). */
  lemma SegmentPointOnPlane(plane: Plane, start: Vec3, dir: Vec3, t: real)
    requires t * Dot(plane.normal, dir) == Dot(plane.normal, Sub(plane.origin, start))
    ensures OnPlane(plane, Add(start, Scale(dir, t)))
  {
    var p := Add(start, Scale(dir, t));
    assert Sub(p, plane.origin) == Add(Sub(start, plane.origin), Scale(dir, t));
    DotLinear(plane.normal, Sub(start, plane.origin), dir, t);
    DotSubSwap(plane.normal, start, plane.origin);
  }

  lemma DotSubSwap(n: Vec3, a: Vec3, b: Vec3)
    ensures Dot(n, Sub(a, b)) == -Dot(n, Sub(b, a))
  {
  }

  lemma DotLinear(n: Vec3, a: Vec3, d: Vec3, t: real)
    ensures Dot(n, Add(a, Scale(d, t))) == Dot(n, a) + t * Dot(n, d)
  {
  }

  /** The kept/cut classification of a polygon is mixed: some vertex behind and some in front. */
  predicate Mixed(cut: seq<Option<bool>>)
  {
    (exists i :: 0 <= i < |cut| && cut[i] == Some(true)) &&
    (exists j :: 0 <= j < |cut| && cut[j] == Some(false))
  }

  /**
   * The agreement scan shared by clipPolygonByPlane and polygonCutByRay2d:
   * whether all decided vertices fall on one side, and which side (None when
   * every vertex lies on the cut).
   */
  method ScanAgreement(cut: seq<Option<bool>>) returns (allSame: bool, allValue: Option<bool>)
    ensures allSame <==> !Mixed(cut)
    ensures allSame ==> (allValue.None? <==> forall k :: 0 <= k < |cut| ==> cut[k].None?)
    ensures allSame && allValue.Some? ==> forall k :: 0 <= k < |cut| && cut[k].Some? ==> cut[k] == allValue
    ensures allSame && allValue.Some? ==> exists k :: 0 <= k < |cut| && cut[k] == allValue
  {
    allSame := true;
    allValue := None;
    var i := 0;
    while i < |cut|
      invariant 0 <= i <= |cut|
      invariant allSame <==> !Mixed(cut[..i])
      invariant allSame ==> (allValue.None? <==> forall k :: 0 <= k < i ==> cut[k].None?)
      invariant allSame && allValue.Some? ==> forall k :: 0 <= k < i && cut[k].Some? ==> cut[k] == allValue
      invariant allSame && allValue.Some? ==> exists k :: 0 <= k < i && cut[k] == allValue
    {
      var c := cut[i];
      assert cut[..i + 1] == cut[..i] + [c];
      MixedExtend(cut[..i], c);
      if allSame {
        if i == 0 {
          allValue := c;
        } else if allValue.None? {
          allValue := c;
        } else if allValue != c && c.Some? {
          allSame := false;
          ghost var k :| 0 <= k < i && cut[k] == allValue;
          assert allValue == Some(allValue.value) && c == Some(c.value);
          assert allValue.value == !c.value;
          assert cut[..i][k] == Some(!c.value);
        }
      }
      i := i + 1;
    }
    assert cut[..|cut|] == cut;
  }

  /** Appending one side result makes a scan mixed exactly when it contradicts an earlier one. */
  lemma MixedExtend(s: seq<Option<bool>>, c: Option<bool>)
    ensures Mixed(s + [c]) <==> Mixed(s) || (c.Some? && exists k :: 0 <= k < |s| && s[k] == Some(!c.value))
  {
    var t := s + [c];
    assert forall k :: 0 <= k < |s| ==> t[k] == s[k];
    assert t[|s|] == c;
    if Mixed(t) {
      var i :| 0 <= i < |t| && t[i] == Some(true);
      var j :| 0 <= j < |t| && t[j] == Some(false);
      if i < |s| && j < |s| {
        assert Mixed(s);
      }
    }
  }

  /** A vertex the clip may emit: a kept or on-plane input vertex, or a point on the plane. */
  predicate ClipVertex(poly: Polygon, plane: Plane, eps: real, v: Vec3)
  {
    (exists i :: 0 <= i < |poly| && poly[i] == v && Behind(plane, poly[i], eps) != Some(false)) ||
    OnPlane(plane, v)
  }

  /** What clipPolygonByPlane promises of its result r for one polygon and plane (its contract, as one predicate). */
  predicate ClipOutcome(poly: Polygon, plane: Plane, eps: real, r: Option<Polygon>)
  {
    && (|poly| < 3 || plane.invalid ==> r.None?)
    && (r.Some? ==> |r.value| >= 3)
    && var cut := seq(|poly|, i requires 0 <= i < |poly| => Behind(plane, poly[i], eps));
      |poly| >= 3 && !plane.invalid ==>
        (!Mixed(cut) && (exists i :: 0 <= i < |poly| && cut[i] == Some(true)) ==> r == Some(poly)) &&
        ((forall i :: 0 <= i < |poly| ==> cut[i] != Some(true)) ==> r.None?) &&
        (Mixed(cut) && r.Some? ==> |r.value| >= 3 && forall v :: v in r.value ==> ClipVertex(poly, plane, eps, v))
  }

  /**
   * clipPolygonByPlane keeps the part of the polygon behind the plane:
   * nothing for a short polygon or invalid plane, an identical copy when no
   * vertex is in front and one is behind, nothing when none is behind, and
   * otherwise either nothing or a polygon of kept vertices and points on the
   * plane.
   */
  method ClipPolygonByPlane(poly: Polygon, plane: Plane, eps: real) returns (r: Option<Polygon>)
    ensures |poly| < 3 || plane.invalid ==> r.None?
    ensures r.Some? ==> |r.value| >= 3
    ensures var cut := seq(|poly|, i requires 0 <= i < |poly| => Behind(plane, poly[i], eps));
      |poly| >= 3 && !plane.invalid ==>
        (!Mixed(cut) && (exists i :: 0 <= i < |poly| && cut[i] == Some(true)) ==> r == Some(poly)) &&
        ((forall i :: 0 <= i < |poly| ==> cut[i] != Some(true)) ==> r.None?) &&
        (Mixed(cut) && r.Some? ==> |r.value| >= 3 && forall v :: v in r.value ==> ClipVertex(poly, plane, eps, v))
    ensures ClipOutcome(poly, plane, eps, r)
  {
    if |poly| < 3 || plane.invalid {
      return None;
    }
    var cutted := seq(|poly|, i requires 0 <= i < |poly| => Behind(plane, poly[i], eps));
    var allTheSame, allValue := ScanAgreement(cutted);
    if allTheSame {
      if allValue == Some(true) {
        return Some(poly);
      }
      return None;
    }
    var right: Polygon := [];
    var beforeCutted := cutted[|cutted| - 1];
    var beforeVec := poly[|poly| - 1];
    var i := 0;
    while i < |poly|
      invariant 0 <= i <= |poly|
      invariant forall v :: v in right ==> ClipVertex(poly, plane, eps, v)
    {
      var vec := poly[i];
      if beforeCutted == Some(false) && cutted[i] == Some(true) {
        var inter := PlaneIntersectSegment(plane, vec, beforeVec);
        if inter.Some? {
          right := right + [inter.value];
        }
        right := right + [vec];
      } else if beforeCutted == Some(true) && cutted[i] == Some(false) {
        var inter := PlaneIntersectSegment(plane, vec, beforeVec);
        if inter.Some? {
          right := right + [inter.value];
        }
      } else if cutted[i].None? {
        right := right + [vec];
      } else if cutted[i] == Some(true) {
        right := right + [vec];
      }
      beforeCutted := cutted[i];
      beforeVec := vec;
      i := i + 1;
    }
    if |right| >= 3 && PointBetween(right[|right| - 2], right[0], right[|right| - 1], EPSILON) {
      right := right[..|right| - 1];
    }
    if |right| >= 3 && PointBetween(right[|right| - 1], right[1], right[0], EPSILON) {
      right := right[1..];
    }
    if |right| < 3 {
      return None;
    }
    return Some(right);
  }

  // ---------------------------------------------------------------------
  // Axis helpers and the face rectangle

  /** thirdAxisIndex: the coordinate index that is neither `one` nor `two`. */
  function ThirdAxisIndex(one: nat, two: nat): (r: nat)
    ensures r < 3
    ensures one < 3 && two < 3 && one != two ==> r != one && r != two
  {
    if (one == 0 && two == 1) || (one == 1 && two == 0) then 2
    else if (one == 0 && two == 2) || (one == 2 && two == 0) then 1
    else 0
  }

  /** An axis-aligned face rectangle: the face axis, its sign, the plane coordinate and the in-plane span. */
  datatype PlaneRect = PlaneRect(axis: Axis, sign: int, c: real, a0: real, a1: real, b0: real, b1: real)

  /** faceVerticesFromPlaneRect: the four corners in the winding order used for each facing. */
  function FaceVerticesFromPlaneRect(f: PlaneRect): (r: Polygon)
    ensures |r| == 4
  {
    var PlaneRect(axis, sign, c, a0, a1, b0, b1) := f;
    if axis == X && sign > 0 then [Vec3(c, a0, b0), Vec3(c, a1, b0), Vec3(c, a1, b1), Vec3(c, a0, b1)]
    else if axis == X && sign < 0 then [Vec3(c, a0, b1), Vec3(c, a1, b1), Vec3(c, a1, b0), Vec3(c, a0, b0)]
    else if axis == Y && sign > 0 then [Vec3(a0, c, b1), Vec3(a1, c, b1), Vec3(a1, c, b0), Vec3(a0, c, b0)]
    else if axis == Y && sign < 0 then [Vec3(a0, c, b0), Vec3(a1, c, b0), Vec3(a1, c, b1), Vec3(a0, c, b1)]
    else if axis == Z && sign > 0 then [Vec3(a0, b0, c), Vec3(a1, b0, c), Vec3(a1, b1, c), Vec3(a0, b1, c)]
    else [Vec3(a1, b0, c), Vec3(a0, b0, c), Vec3(a0, b1, c), Vec3(a1, b1, c)]
  }

  /** The in-plane coordinates of each vertex of a four-vertex polygon on a face of the given axis. */
  function InPlanePairs(r: Polygon, axis: Axis): seq<(real, real)>
    requires |r| == 4
  {
    var (one, two) := PlaneAxes(axis);
    [(r[0].At(one), r[0].At(two)), (r[1].At(one), r[1].At(two)),
     (r[2].At(one), r[2].At(two)), (r[3].At(one), r[3].At(two))]
  }

  /** The rectangle lies in the plane `axis = c`. */
  lemma FaceRectInPlane(f: PlaneRect)
    ensures var r := FaceVerticesFromPlaneRect(f);
      var k := AxisIndex(f.axis);
      f.axis == Z || f.sign != 0 ==> forall i :: 0 <= i < 4 ==> r[i].At(k) == f.c
  {
  }

  /** The four corners of the rectangle's span, in the order the source lists the Z-positive layout. */
  function Corners(f: PlaneRect): seq<(real, real)>
  {
    [(f.a0, f.b0), (f.a1, f.b0), (f.a1, f.b1), (f.a0, f.b1)]
  }

  /**
   * Each layout visits every corner of [a0,a1] x [b0,b1] once, walking
   * round the rectangle: in the listed order, reversed, or starting from the
   * second corner and turning the other way. (A sign of 0 on the X or Y axis
   * falls through to the Z layout, as in the source.)
   */
  lemma FaceRectSpansBounds(f: PlaneRect)
    requires f.axis == Z || f.sign != 0
    ensures var ps := InPlanePairs(FaceVerticesFromPlaneRect(f), f.axis);
      var cs := Corners(f);
      ps == cs || ps == [cs[3], cs[2], cs[1], cs[0]] || ps == [cs[1], cs[0], cs[3], cs[2]]
  {
  }

  /**
   * Front faces wind counter-clockwise seen from outside: for a proper
   * rectangle the normal of the first triangle points along the face's sign.
   */
  lemma FaceRectWindsOutward(f: PlaneRect)
    requires f.axis == Z || f.sign != 0
    requires f.a0 < f.a1 && f.b0 < f.b1
    ensures var r := FaceVerticesFromPlaneRect(f);
      var n := Cross(Sub(r[1], r[0]), Sub(r[2], r[0]));
      var k := AxisIndex(f.axis);
      (if f.sign > 0 then n.At(k) > 0.0 else n.At(k) < 0.0) &&
      forall j :: 0 <= j < 3 && j != k ==> n.At(j) == 0.0
  {
    var da, db := f.a1 - f.a0, f.b1 - f.b0;
    PositiveProduct(da, db);
    var r := FaceVerticesFromPlaneRect(f);
    var n := Cross(Sub(r[1], r[0]), Sub(r[2], r[0]));
    if f.axis == X && f.sign > 0 {
      assert n == Vec3(da * db, 0.0, 0.0);
    } else if f.axis == X {
      assert n == Vec3(-(da * db), 0.0, 0.0);
    } else if f.axis == Y && f.sign > 0 {
      assert n == Vec3(0.0, da * db, 0.0);
    } else if f.axis == Y {
      assert n == Vec3(0.0, -(da * db), 0.0);
    } else if f.sign > 0 {
      assert n == Vec3(0.0, 0.0, da * db);
    } else {
      assert n == Vec3(0.0, 0.0, -(da * db));
    }
  }

  lemma PositiveProduct(a: real, b: real)
    requires a > 0.0 && b > 0.0
    ensures a * b > 0.0
  {
  }
}
