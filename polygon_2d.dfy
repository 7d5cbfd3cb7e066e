/**
 * The 2-D half of the polygon kernel: a ray in the plane of two coordinate
 * axes, the cut of a polygon by one ray and by every edge of a convex
 * cutter, the triangle-fan containment test, cyclic equality and the
 * intersection test used by occluder cutting.
 *
 * A division the source performs by a possibly zero denominator yields
 * Infinity or NaN there; every comparison the source then makes with that
 * value is false, which the model writes out as an explicit `None`.
 */
module Polygon2d {
  import opened Wrappers
  import opened PolygonOps

  /** A line through (originOne, originTwo) along (directionOne, directionTwo), in the plane of two axes. */
  datatype Line2d = Line2d(originOne: real, originTwo: real, directionOne: real, directionTwo: real)

  /** The line from a start point towards an end point (createRay2d / ray2dSet). */
  function LineThrough(startOne: real, startTwo: real, endOne: real, endTwo: real): Line2d
  {
    Line2d(startOne, startTwo, endOne - startOne, endTwo - startTwo)
  }

  /** The point reached after t steps along the direction. */
  function PointAt(l: Line2d, t: real): (real, real)
  {
    (l.originOne + t * l.directionOne, l.originTwo + t * l.directionTwo)
  }

  /** The same line run backwards from its end point. */
  function Reversed(l: Line2d): Line2d
  {
    Line2d(l.originOne + l.directionOne, l.originTwo + l.directionTwo, -l.directionOne, -l.directionTwo)
  }

  /**
   * The cross product of the direction with (point - origin): zero on the
   * line, negative to the right of the direction, positive to its left.
   */
  function Side(l: Line2d, a: real, b: real): real
  {
    l.directionOne * (b - l.originTwo) - l.directionTwo * (a - l.originOne)
  }

  /** ray2dIsCoordinateToTheRight: None within EPSILON of the line, otherwise whether the point is on the right. */
  function ToTheRight(l: Line2d, a: real, b: real): (r: Option<bool>)
    ensures r.None? <==> -EPSILON < Side(l, a, b) < EPSILON
    ensures r == Some(true) <==> Side(l, a, b) <= -EPSILON
    ensures r == Some(false) <==> Side(l, a, b) >= EPSILON
  {
    var result := Side(l, a, b);
    if result > -EPSILON && result < EPSILON then None else Some(result < 0.0)
  }

  /** Every point of the line, the origin included, is on neither side. */
  lemma PointsOfLineAreOnIt(l: Line2d, t: real)
    ensures Side(l, PointAt(l, t).0, PointAt(l, t).1) == 0.0
    ensures ToTheRight(l, PointAt(l, t).0, PointAt(l, t).1).None?
  {
    var (a, b) := PointAt(l, t);
    calc {
      Side(l, a, b);
      l.directionOne * (t * l.directionTwo) - l.directionTwo * (t * l.directionOne);
      { MulCommutes3(l.directionOne, t, l.directionTwo); }
      0.0;
    }
  }

  lemma MulCommutes3(x: real, t: real, y: real)
    ensures x * (t * y) == y * (t * x)
  {
  }

  /** Running a line backwards swaps its right and left sides. */
  lemma ReversedLineSwapsSides(l: Line2d, a: real, b: real)
    ensures Side(Reversed(l), a, b) == -Side(l, a, b)
    ensures ToTheRight(Reversed(l), a, b) ==
      (if ToTheRight(l, a, b).None? then None else Some(!ToTheRight(l, a, b).value))
  {
    var d1, d2 := l.directionOne, l.directionTwo;
    var u, v := a - l.originOne, b - l.originTwo;
    calc {
      Side(Reversed(l), a, b);
      -d1 * (v - d2) - -d2 * (u - d1);
      -d1 * v + d1 * d2 + d2 * u - d2 * d1;
      -(d1 * v - d2 * u);
    }
  }

  /** A ray set through two points has both of them on its line. */
  lemma EndpointsOnLine(startOne: real, startTwo: real, endOne: real, endTwo: real)
    ensures var l := LineThrough(startOne, startTwo, endOne, endTwo);
      ToTheRight(l, startOne, startTwo).None? && ToTheRight(l, endOne, endTwo).None?
  {
    var l := LineThrough(startOne, startTwo, endOne, endTwo);
    PointsOfLineAreOnIt(l, 0.0);
    PointsOfLineAreOnIt(l, 1.0);
    assert PointAt(l, 0.0) == (startOne, startTwo);
    assert PointAt(l, 1.0) == (endOne, endTwo);
  }

  /**
   * A mutable ray in the plane of axes `one` and `two`. The source keeps one
   * scratch ray per operation and resets it in place for every edge.
   */
  class Ray2d {
    var one: nat
    var two: nat
    var line: Line2d

    /** createRay2d */
    constructor (one: nat, two: nat, startOne: real, startTwo: real, endOne: real, endTwo: real)
      ensures this.one == one && this.two == two
      ensures line == LineThrough(startOne, startTwo, endOne, endTwo)
    {
      this.one := one;
      this.two := two;
      line := LineThrough(startOne, startTwo, endOne, endTwo);
    }

    /** ray2dSet: new axes and a line from start to end. */
    method Set(one: nat, two: nat, startOne: real, startTwo: real, endOne: real, endTwo: real)
      modifies this
      ensures this.one == one && this.two == two
      ensures line == LineThrough(startOne, startTwo, endOne, endTwo)
    {
      this.one := one;
      this.two := two;
      line := LineThrough(startOne, startTwo, endOne, endTwo);
    }

    /** ray2dSetFromPoints: the axes stay, the line runs between the projections of start and end. */
    method SetFromPoints(start: Vec3, end: Vec3)
      requires one < 3 && two < 3
      modifies this
      ensures one == old(one) && two == old(two)
      ensures line == LineThrough(start.At(one), start.At(two), end.At(one), end.At(two))
    {
      line := LineThrough(start.At(one), start.At(two), end.At(one), end.At(two));
    }
  }

  // ---------------------------------------------------------------------
  // Parameters along a line and crossings of two lines

  /**
   * ray2dGetT: the parameter at which the line reaches `value` on the first
   * (`onOne`) or second axis; None where the source divides by a zero
   * direction and gets Infinity or NaN.
   */
  function GetT(l: Line2d, onOne: bool, value: real): (r: Option<real>)
    ensures r.None? <==> (if onOne then l.directionOne else l.directionTwo) == 0.0
    ensures r.Some? ==> (if onOne then PointAt(l, r.value).0 else PointAt(l, r.value).1) == value
  {
    var origin := if onOne then l.originOne else l.originTwo;
    var direction := if onOne then l.directionOne else l.directionTwo;
    if direction == 0.0 then None
    else
      var t := (value - origin) / direction;
      assert origin + t * direction == value;
      Some(t)
  }

  /** ray2dGet on the first axis: the second coordinate of the line where its first coordinate is `value`. */
  function Get(l: Line2d, value: real): (r: real)
    requires l.directionOne != 0.0
    ensures Side(l, value, r) == 0.0
  {
    var r := l.originTwo + l.directionTwo * (value - l.originOne) / l.directionOne;
    GetOnLine(l, value, r);
    r
  }

  lemma GetOnLine(l: Line2d, value: real, r: real)
    requires l.directionOne != 0.0
    requires r == l.originTwo + l.directionTwo * (value - l.originOne) / l.directionOne
    ensures Side(l, value, r) == 0.0
  {
    var d1, d2, u := l.directionOne, l.directionTwo, value - l.originOne;
    var q := d2 * u / d1;
    assert q * d1 == d2 * u;
    calc {
      Side(l, value, r);
      d1 * q - d2 * u;
      { assert d1 * q == q * d1; }
      0.0;
    }
  }

  function EqualsWithEps(a: real, b: real, eps: real): bool { a == b || Abs(a - b) < eps }

  function GreaterThanOrEquals(a: real, b: real, eps: real): bool { a > b || EqualsWithEps(a, b, eps) }

  function SmallerThanOrEquals(a: real, b: real, eps: real): bool { a < b || EqualsWithEps(a, b, eps) }

  function Within(value: real, min: real, max: real, eps: real): bool
  {
    GreaterThanOrEquals(value, min, eps) && SmallerThanOrEquals(value, max, eps)
  }

  /**
   * ray2dIsCoordinateOnLine: with a nearly vertical or horizontal direction
   * only that coordinate is compared; otherwise the point is on the line
   * when its distance along the second axis, |Side| / |directionOne|, is
   * below EPSILON.
   */
  function IsCoordinateOnLine(l: Line2d, a: real, b: real): (r: bool)
    ensures Abs(l.directionOne) <= EPSILON ==> (r <==> EqualsWithEps(l.originOne, a, EPSILON))
    ensures Abs(l.directionOne) > EPSILON && Abs(l.directionTwo) <= EPSILON ==>
      (r <==> EqualsWithEps(l.originTwo, b, EPSILON))
    ensures Abs(l.directionOne) > EPSILON && Abs(l.directionTwo) > EPSILON ==>
      (r <==> Abs(Side(l, a, b)) < EPSILON * Abs(l.directionOne))
  {
    if Abs(l.directionOne) <= EPSILON then EqualsWithEps(l.originOne, a, EPSILON)
    else if Abs(l.directionTwo) <= EPSILON then EqualsWithEps(l.originTwo, b, EPSILON)
    else
      var g := Get(l, a);
      OffLineDistance(l, a, b, g);
      EqualsWithEps(g, b, EPSILON)
  }

  lemma OffLineDistance(l: Line2d, a: real, b: real, g: real)
    requires Abs(l.directionOne) > EPSILON
    requires Side(l, a, g) == 0.0
    ensures EqualsWithEps(g, b, EPSILON) <==> Abs(Side(l, a, b)) < EPSILON * Abs(l.directionOne)
  {
    var d1, x := l.directionOne, b - g;
    SideDifference(l, a, b, g);
    assert Side(l, a, b) == d1 * x;
    DistanceScaled(d1, x);
    assert Abs(g - b) == Abs(x);
  }

  lemma DistanceScaled(d: real, x: real)
    requires Abs(d) > EPSILON
    ensures Abs(x) < EPSILON <==> Abs(d * x) < EPSILON * Abs(d)
  {
    AbsProduct(d, x);
    ScaledLess(Abs(x), EPSILON, Abs(d));
  }

  lemma SideDifference(l: Line2d, a: real, b: real, g: real)
    ensures Side(l, a, b) - Side(l, a, g) == l.directionOne * (b - g)
  {
  }

  lemma AbsProduct(x: real, y: real)
    ensures Abs(x * y) == Abs(x) * Abs(y)
  {
    if x < 0.0 && y >= 0.0 {
      assert x * y <= 0.0;
    } else if x >= 0.0 && y < 0.0 {
      assert x * y <= 0.0;
    } else if x < 0.0 && y < 0.0 {
      assert x * y == (-x) * (-y);
    }
  }

  lemma ScaledLess(x: real, e: real, k: real)
    requires k > 0.0
    ensures x < e <==> k * x < e * k
  {
    if x < e {
      assert k * (e - x) > 0.0;
    } else {
      assert k * (x - e) >= 0.0;
    }
  }

  /** The cross product of the two directions; near zero means the lines are parallel. */
  function DirectionCross(ray: Line2d, line: Line2d): real
  {
    ray.directionOne * line.directionTwo - ray.directionTwo * line.directionOne
  }

  /** The parameter along `ray` where it crosses `line`, as the source computes it. */
  function CrossingT(ray: Line2d, line: Line2d): (t: real)
    requires DirectionCross(ray, line) != 0.0
    ensures Side(line, PointAt(ray, t).0, PointAt(ray, t).1) == 0.0
  {
    var num := (line.originTwo - ray.originTwo) * line.directionOne + ray.originOne * line.directionTwo
      - line.originOne * line.directionTwo;
    var den := line.directionOne * ray.directionTwo - ray.directionOne * line.directionTwo;
    var t := num / den;
    CrossingOnLine(ray, line, num, den, t);
    t
  }

  lemma CrossingOnLine(ray: Line2d, line: Line2d, num: real, den: real, t: real)
    requires num == (line.originTwo - ray.originTwo) * line.directionOne + ray.originOne * line.directionTwo
      - line.originOne * line.directionTwo
    requires den == line.directionOne * ray.directionTwo - ray.directionOne * line.directionTwo
    requires den != 0.0 && t == num / den
    ensures Side(line, PointAt(ray, t).0, PointAt(ray, t).1) == 0.0
  {
    var (a, b) := PointAt(ray, t);
    var l1, l2 := line.directionOne, line.directionTwo;
    var r1, r2 := ray.directionOne, ray.directionTwo;
    assert t * den == num;
    calc {
      Side(line, a, b);
      l1 * (ray.originTwo + t * r2 - line.originTwo) - l2 * (ray.originOne + t * r1 - line.originOne);
      t * (l1 * r2 - r1 * l2) + (l1 * (ray.originTwo - line.originTwo) - l2 * (ray.originOne - line.originOne));
      t * den - num;
      0.0;
    }
  }

  datatype Ray2dError = Parallel

  /**
   * ray2dIntersectWhen: the parameter along `ray` where it meets `line`.
   * Nearly parallel lines give the Parallel error when the line's origin is
   * on the ray's line and -1 otherwise; any other pair gives a parameter
   * whose point lies on `line`.
   */
  function IntersectWhen(ray: Line2d, line: Line2d): (r: Result<real, Ray2dError>)
    ensures Abs(DirectionCross(ray, line)) <= EPSILON ==>
      (r.Err? <==> IsCoordinateOnLine(ray, line.originOne, line.originTwo)) && (r.Ok? ==> r.value == -1.0)
    ensures Abs(DirectionCross(ray, line)) > EPSILON ==>
      r.Ok? && Side(line, PointAt(ray, r.value).0, PointAt(ray, r.value).1) == 0.0
  {
    if Abs(DirectionCross(ray, line)) <= EPSILON then
      if IsCoordinateOnLine(ray, line.originOne, line.originTwo) then Err(Parallel) else Ok(-1.0)
    else
      Ok(CrossingT(ray, line))
  }

  /** A copy of `v` with coordinate `i` replaced. */
  function SetAt(v: Vec3, i: nat, value: real): (r: Vec3)
    requires i < 3
    ensures r.At(i) == value
    ensures forall j :: 0 <= j < 3 && j != i ==> r.At(j) == v.At(j)
  {
    if i == 0 then v.(x := value) else if i == 1 then v.(y := value) else v.(z := value)
  }

  /**
   * ray2dIntersectSegment: where the ray's line crosses the line through
   * start and end, or None when the two are nearly parallel. The point lies
   * on both lines and carries `thirdValue` on the remaining axis.
   */
  function IntersectSegment(ray: Line2d, one: nat, two: nat, start: Vec3, end: Vec3, thirdValue: real): (r: Option<Vec3>)
    requires one < 3 && two < 3
    ensures var seg := LineThrough(start.At(one), start.At(two), end.At(one), end.At(two));
      (r.None? <==> Abs(DirectionCross(ray, seg)) <= EPSILON) &&
      (r.Some? && one != two ==>
        Side(seg, r.value.At(one), r.value.At(two)) == 0.0 &&
        Side(ray, r.value.At(one), r.value.At(two)) == 0.0 &&
        r.value.At(ThirdAxisIndex(one, two)) == thirdValue)
  {
    var seg := LineThrough(start.At(one), start.At(two), end.At(one), end.At(two));
    if Abs(DirectionCross(ray, seg)) <= EPSILON then None
    else
      var t := CrossingT(ray, seg);
      var (a, b) := PointAt(ray, t);
      PointsOfLineAreOnIt(ray, t);
      Some(SetAt(SetAt(Vec3(thirdValue, thirdValue, thirdValue), one, a), two, b))
  }

  // ---------------------------------------------------------------------
  // Cutting by one ray

  /** The side of each vertex, negated when `inverse` is set (the first loop of polygonCutByRay2d). */
  function RaySides(poly: Polygon, l: Line2d, one: nat, two: nat, inverse: bool): (cut: seq<Option<bool>>)
    requires one < 3 && two < 3
    ensures |cut| == |poly|
  {
    seq(|poly|, i requires 0 <= i < |poly| =>
      var value := ToTheRight(l, poly[i].At(one), poly[i].At(two));
      if inverse && value.Some? then Some(!value.value) else value)
  }

  /**
   * A vertex a cut may emit on the `keep` side: an input vertex not on the
   * other side, or a point on the ray's line.
   */
  predicate CutVertex(poly: Polygon, cut: seq<Option<bool>>, l: Line2d, one: nat, two: nat, keep: bool, v: Vec3)
    requires one < 3 && two < 3
  {
    (exists i :: 0 <= i < |poly| && i < |cut| && poly[i] == v && cut[i] != Some(!keep)) ||
    Side(l, v.At(one), v.At(two)) == 0.0
  }

  /**
   * polygonCutByRay2d keeps the right-hand part (the part with side `true`)
   * and hands the left-hand part to `done` when collecting. A polygon wholly
   * on one side is returned unchanged or handed over whole; one wholly on
   * the line yields nothing; a straddling one is split, each part simplified.
   * The axes are the ray's own.
   */
  method PolygonCutByRay2d(poly: Polygon, ray: Ray2d, collect: bool, inverse: bool)
    returns (r: Option<Polygon>, pushed: seq<Polygon>)
    requires ray.one < 3 && ray.two < 3
    ensures var cut := RaySides(poly, ray.line, ray.one, ray.two, inverse);
      (!Mixed(cut) && (forall k :: 0 <= k < |cut| ==> cut[k].None?) ==> r.None? && pushed == []) &&
      (!Mixed(cut) && (exists k :: 0 <= k < |cut| && cut[k] == Some(true)) ==> r == Some(poly) && pushed == []) &&
      (!Mixed(cut) && (exists k :: 0 <= k < |cut| && cut[k] == Some(false)) ==>
        r.None? && pushed == (if collect then [poly] else []))
    ensures var cut := RaySides(poly, ray.line, ray.one, ray.two, inverse);
      Mixed(cut) ==>
        |pushed| <= 1 && (!collect ==> pushed == []) &&
        (r.Some? ==> Renderable(r.value)) && (forall q :: q in pushed ==> Renderable(q))
    ensures var cut := RaySides(poly, ray.line, ray.one, ray.two, inverse);
      Mixed(cut) && ray.one != ray.two ==>
        (r.Some? ==> forall v :: v in r.value ==> CutVertex(poly, cut, ray.line, ray.one, ray.two, true, v)) &&
        (forall q, v :: q in pushed && v in q ==> CutVertex(poly, cut, ray.line, ray.one, ray.two, false, v))
  {
    var one, two, l := ray.one, ray.two, ray.line;
    var cutted := RaySides(poly, l, one, two, inverse);
    var allSame, allValue := ScanAgreement(cutted);
    pushed := [];
    if allSame {
      if allValue.None? {
        return None, [];
      }
      if allValue == Some(true) {
        return Some(poly), [];
      }
      if collect {
        pushed := [poly];
      }
      return None, pushed;
    }
    var third := ThirdAxisIndex(one, two);
    var thirdValue := poly[0].At(third);
    var left: Polygon := [];
    var right: Polygon := [];
    var beforeCutted := cutted[|cutted| - 1];
    var beforeVec := poly[|poly| - 1];
    var i := 0;
    while i < |poly|
      invariant 0 <= i <= |poly|
      invariant one != two ==> forall v :: v in right ==> CutVertex(poly, cutted, l, one, two, true, v)
      invariant one != two ==> forall v :: v in left ==> CutVertex(poly, cutted, l, one, two, false, v)
    {
      var vec := poly[i];
      var value := cutted[i];
      if value == Some(true) {
        if beforeCutted == Some(false) {
          var inter := IntersectSegment(l, one, two, vec, beforeVec, thirdValue);
          if inter.Some? {
            left := left + [inter.value];
            right := right + [inter.value];
          }
        }
        right := right + [vec];
      } else if value == Some(false) {
        if beforeCutted == Some(true) {
          var inter := IntersectSegment(l, one, two, vec, beforeVec, thirdValue);
          if inter.Some? {
            left := left + [inter.value];
            right := right + [inter.value];
          }
        }
        left := left + [vec];
      } else {
        left := left + [vec];
        right := right + [vec];
      }
      beforeCutted := value;
      beforeVec := vec;
      i := i + 1;
    }
    var leftPoly := SimplifyPolygon(left);
    if leftPoly.Some? && collect {
      pushed := [leftPoly.value];
    }
    r := SimplifyPolygon(right);
  }

  /**
   * polygonCut2d cuts the polygon by the line of every cutter edge in turn
   * (the closing edge included). Without `takeInner` it returns the pieces
   * cut away, at most one per edge; with it, at most the one piece left
   * inside. Every returned piece is the input itself or a renderable
   * simplified polygon.
   */
  method PolygonCut2d(poly: Polygon, cutter: Polygon, one: nat, two: nat, inverse: bool, takeInner: bool)
    returns (done: seq<Polygon>)
    requires one < 3 && two < 3
    ensures takeInner ==> |done| <= 1
    ensures !takeInner ==> |done| <= |cutter|
    ensures cutter == [] ==> done == (if takeInner then [poly] else [])
    ensures forall q :: q in done ==> q == poly || Renderable(q)
  {
    done := [];
    if cutter == [] {
      if takeInner {
        done := [poly];
      }
      return;
    }
    var toCut := poly;
    var before := cutter[0];
    var ray := new Ray2d(one, two, 0.0, 0.0, 0.0, 0.0);
    var i := 1;
    while i <= |cutter|
      invariant 1 <= i <= |cutter| + 1
      invariant takeInner ==> done == []
      invariant |done| <= i - 1
      invariant toCut == poly || Renderable(toCut)
      invariant forall q :: q in done ==> q == poly || Renderable(q)
    {
      var vec := if i == |cutter| then cutter[0] else cutter[i];
      ray.Set(one, two, before.At(one), before.At(two), vec.At(one), vec.At(two));
      var next, pushed := PolygonCutByRay2d(toCut, ray, !takeInner, inverse);
      done := done + pushed;
      if next.None? {
        return;
      }
      toCut := next.value;
      before := vec;
      i := i + 1;
    }
    if takeInner {
      done := done + [toCut];
    }
  }

  // ---------------------------------------------------------------------
  // Containment, cyclic equality and intersection

  /** A side result the containment test accepts: on the line, or on the side selected by `inverse`. */
  predicate Accepts(r: Option<bool>, inverse: bool)
  {
    r.None? || r.value != inverse
  }

  /** The point lies inside fan triangle (subject[0], subject[index+1], subject[index+2]). */
  predicate InFanTriangle(subject: Polygon, index: nat, one: nat, two: nat, a: real, b: real, inverse: bool)
    requires one < 3 && two < 3 && index + 2 < |subject|
  {
    var first, second, third := subject[0], subject[index + 1], subject[index + 2];
    Accepts(ToTheRight(LineThrough(first.At(one), first.At(two), second.At(one), second.At(two)), a, b), inverse) &&
    Accepts(ToTheRight(LineThrough(second.At(one), second.At(two), third.At(one), third.At(two)), a, b), inverse) &&
    Accepts(ToTheRight(LineThrough(third.At(one), third.At(two), first.At(one), first.At(two)), a, b), inverse)
  }

  predicate InsideFan(subject: Polygon, one: nat, two: nat, a: real, b: real, inverse: bool)
    requires one < 3 && two < 3
  {
    exists index: nat :: index + 2 < |subject| && InFanTriangle(subject, index, one, two, a, b, inverse)
  }

  /** Every vertex of `other` lies in some fan triangle of `subject`. */
  predicate InsideAll(subject: Polygon, one: nat, two: nat, other: Polygon, inverse: bool)
    requires one < 3 && two < 3
  {
    forall k :: 0 <= k < |other| ==> InsideFan(subject, one, two, other[k].At(one), other[k].At(two), inverse)
  }

  /** polygonIsInside2d */
  method PolygonIsInside2d(subject: Polygon, one: nat, two: nat, other: Polygon, inverse: bool) returns (b: bool)
    requires one < 3 && two < 3
    ensures b == InsideAll(subject, one, two, other, inverse)
  {
    var temp := new Ray2d(one, two, 0.0, 0.0, 0.0, 0.0);
    var k := 0;
    while k < |other|
      invariant 0 <= k <= |other|
      invariant forall m :: 0 <= m < k ==> InsideFan(subject, one, two, other[m].At(one), other[m].At(two), inverse)
    {
      var pointOne, pointTwo := other[k].At(one), other[k].At(two);
      var inside := false;
      var index := 0;
      while index + 2 < |subject|
        invariant 0 <= index
        invariant !inside ==> forall j: nat :: j < index && j + 2 < |subject| ==>
          !InFanTriangle(subject, j, one, two, pointOne, pointTwo, inverse)
        invariant inside ==> InsideFan(subject, one, two, pointOne, pointTwo, inverse)
        decreases |subject| - index, !inside
      {
        var first, second, third := subject[0], subject[index + 1], subject[index + 2];
        temp.Set(one, two, first.At(one), first.At(two), second.At(one), second.At(two));
        var result := ToTheRight(temp.line, pointOne, pointTwo);
        if Accepts(result, inverse) {
          temp.Set(one, two, second.At(one), second.At(two), third.At(one), third.At(two));
          result := ToTheRight(temp.line, pointOne, pointTwo);
          if Accepts(result, inverse) {
            temp.Set(one, two, third.At(one), third.At(two), first.At(one), first.At(two));
            result := ToTheRight(temp.line, pointOne, pointTwo);
            if Accepts(result, inverse) {
              inside := true;
              assert InFanTriangle(subject, index, one, two, pointOne, pointTwo, inverse);
              break;
            }
          }
        }
        index := index + 1;
      }
      if !inside {
        return false;
      }
      k := k + 1;
    }
    return true;
  }

  /** A subject with fewer than three vertices has no fan triangle, so it contains no vertex. */
  lemma ShortSubjectContainsNothing(subject: Polygon, one: nat, two: nat, other: Polygon, inverse: bool)
    requires one < 3 && two < 3
    requires |subject| < 3 && other != []
    ensures !InsideAll(subject, one, two, other, inverse)
  {
    assert !InsideFan(subject, one, two, other[0].At(one), other[0].At(two), inverse);
  }

  /** equals2d: both in-plane coordinates within eps. */
  predicate Equals2d(a: Vec3, b: Vec3, one: nat, two: nat, eps: real)
    requires one < 3 && two < 3
  {
    Abs(a.At(one) - b.At(one)) <= eps && Abs(a.At(two) - b.At(two)) <= eps
  }

  /** The first index at or after `from` whose vertex equals `p` in the plane, or |a| if there is none. */
  function FirstMatchFrom(a: Polygon, p: Vec3, one: nat, two: nat, eps: real, from: nat): (r: nat)
    requires one < 3 && two < 3 && from <= |a|
    ensures from <= r <= |a|
    ensures r < |a| ==> Equals2d(a[r], p, one, two, eps)
    ensures forall k :: from <= k < r ==> !Equals2d(a[k], p, one, two, eps)
    decreases |a| - from
  {
    if from == |a| || Equals2d(a[from], p, one, two, eps) then from
    else FirstMatchFrom(a, p, one, two, eps, from + 1)
  }

  /** The index i steps after `start`, wrapping once round a polygon of n vertices. */
  function CyclicIndex(start: nat, i: nat, n: nat): (k: nat)
    requires start < n && i < n
    ensures k < n
  {
    if start + i < n then start + i else start + i - n
  }

  /**
   * polygonEqualsCyclic2d: equal lengths, and reading `a` cyclically from
   * its first vertex that matches b[0] gives `b`, vertex by vertex.
   */
  predicate CyclicEqual(a: Polygon, b: Polygon, one: nat, two: nat, eps: real)
    requires one < 3 && two < 3
  {
    |a| == |b| && |b| > 0 &&
    var start := FirstMatchFrom(a, b[0], one, two, eps, 0);
    start < |a| &&
    forall i :: 1 <= i < |b| ==> Equals2d(a[CyclicIndex(start, i, |a|)], b[i], one, two, eps)
  }

  /** polygonEqualsCyclic2d */
  method PolygonEqualsCyclic2d(a: Polygon, b: Polygon, one: nat, two: nat, eps: real) returns (r: bool)
    requires one < 3 && two < 3
    ensures r == CyclicEqual(a, b, one, two, eps)
  {
    if |a| != |b| {
      return false;
    }
    if |b| == 0 {
      return false;
    }
    var start := 0;
    while start < |a| && !Equals2d(a[start], b[0], one, two, eps)
      invariant 0 <= start <= |a|
      invariant FirstMatchFrom(a, b[0], one, two, eps, start) == FirstMatchFrom(a, b[0], one, two, eps, 0)
    {
      start := start + 1;
    }
    if start >= |a| {
      return false;
    }
    ghost var first := start;
    var i := 1;
    while i < |b|
      invariant 1 <= i <= |b|
      invariant start == CyclicIndex(first, i - 1, |a|)
      invariant forall j :: 1 <= j < i ==> Equals2d(a[CyclicIndex(first, j, |a|)], b[j], one, two, eps)
    {
      start := start + 1;
      if start == |a| {
        start := 0;
      }
      if !Equals2d(a[start], b[i], one, two, eps) {
        return false;
      }
      i := i + 1;
    }
    return true;
  }

  /** A polygon is cyclically equal to itself for any non-negative epsilon. */
  lemma CyclicEqualReflexive(a: Polygon, one: nat, two: nat, eps: real)
    requires one < 3 && two < 3 && eps >= 0.0 && a != []
    ensures CyclicEqual(a, a, one, two, eps)
  {
    assert FirstMatchFrom(a, a[0], one, two, eps, 0) == 0;
    assert forall i :: 1 <= i < |a| ==> CyclicIndex(0, i, |a|) == i;
  }

  /** Polygons of different lengths are never cyclically equal. */
  lemma CyclicEqualNeedsSameLength(a: Polygon, b: Polygon, one: nat, two: nat, eps: real)
    requires one < 3 && two < 3 && |a| != |b|
    ensures !CyclicEqual(a, b, one, two, eps)
  {
  }

  /**
   * polygonIntersect2d: true for cyclically equal polygons, for a strict
   * crossing of two edges, for two overlapping parallel edge pairs, for an
   * edge of A touching B at both ends with B's vertices on both of its
   * sides, and otherwise exactly when either polygon contains the other's
   * vertices.
   */
  method PolygonIntersect2d(polyA: Polygon, polyB: Polygon, one: nat, two: nat, inverse: bool, eps: real)
    returns (r: bool)
    requires one < 3 && two < 3
    ensures CyclicEqual(polyA, polyB, one, two, EPSILON) ==> r
    ensures InsideAll(polyA, one, two, polyB, inverse) ==> r
    ensures InsideAll(polyB, one, two, polyA, inverse) ==> r
  {
    var equal := PolygonEqualsCyclic2d(polyA, polyB, one, two, EPSILON);
    if equal {
      return true;
    }
    var parallel := 0;
    var ray1 := new Ray2d(one, two, 0.0, 0.0, 0.0, 0.0);
    var ray2 := new Ray2d(one, two, 0.0, 0.0, 0.0, 0.0);
    if polyA != [] {
      var before1 := polyA[0];
      var i := 1;
      while i <= |polyA|
        invariant ray1.one == one && ray1.two == two && ray2.one == one && ray2.two == two
      {
        var vec1 := if i == |polyA| then polyA[0] else polyA[i];
        ray1.SetFromPoints(before1, vec1);
        var onEdgeLow, onEdgeHigh, doSideCheck := false, false, false;
        if polyB != [] {
          var before2 := polyB[0];
          var j := 1;
          while j <= |polyB|
            invariant ray1.one == one && ray1.two == two && ray2.one == one && ray2.two == two
            invariant ray1.line == LineThrough(before1.At(one), before1.At(two), vec1.At(one), vec1.At(two))
          {
            var vec2 := if j == |polyB| then polyB[0] else polyB[j];
            ray2.SetFromPoints(before2, vec2);
            var t := IntersectWhen(ray1.line, ray2.line);
            var otherT := if t.Ok? then IntersectWhen(ray2.line, ray1.line) else Err(Parallel);
            if t.Ok? && otherT.Ok? {
              if t.value > eps && t.value < 1.0 - eps && otherT.value > eps && otherT.value < 1.0 - eps {
                return true;
              }
              if Within(otherT.value, 0.0, 1.0, eps) {
                if EqualsWithEps(t.value, 0.0, eps) {
                  onEdgeLow := true;
                }
                if EqualsWithEps(t.value, 1.0, eps) {
                  onEdgeHigh := true;
                }
              }
              if onEdgeLow && onEdgeHigh {
                doSideCheck := true;
              }
            } else {
              var l1, l2 := ray1.line, ray2.line;
              var startT, endT;
              if Abs(l1.directionOne) <= EPSILON {
                startT := GetT(l1, false, l2.originTwo);
                endT := GetT(l1, false, l2.originTwo + l2.directionTwo);
              } else {
                startT := GetT(l1, true, l2.originOne);
                endT := GetT(l1, true, l2.originOne + l2.directionOne);
              }
              if (startT.Some? && startT.value > eps && startT.value < 1.0 - eps) ||
                 (endT.Some? && endT.value > eps && endT.value < 1.0 - eps) {
                parallel := parallel + 1;
                if parallel > 1 {
                  return true;
                }
              }
            }
            before2 := vec2;
            j := j + 1;
          }
        }
        if doSideCheck {
          var side: Option<bool> := None;
          var k := 0;
          while k < |polyB|
            invariant 0 <= k <= |polyB|
          {
            var result := ToTheRight(ray1.line, polyB[k].At(one), polyB[k].At(two));
            if result.Some? {
              if side.None? {
                side := result;
              } else if side != result {
                return true;
              }
            }
            k := k + 1;
          }
        }
        before1 := vec1;
        i := i + 1;
      }
    }
    var insideA := PolygonIsInside2d(polyA, one, two, polyB, inverse);
    var insideB := PolygonIsInside2d(polyB, one, two, polyA, inverse);
    return insideA || insideB;
  }
}
