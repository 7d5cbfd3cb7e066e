/**
 * Decoding of a transformable box (corner deltas packed as signed 16-bit
 * values behind an indicator word) and the per-face render cache built from
 * it: tilted strips clipped to the box, axis strips cut by the tilted
 * planes, and the "completely filled" rule.
 *
 * JavaScript integer operators are written out: `x | 0` is ToInt32, `>>>`
 * works on ToUint32, and `&` on a 16-bit mask keeps the low 16 bits.
 */
module TransformableCache {
  import opened Wrappers
  import opened Facings
  import opened PolygonOps
  import opened Polygon2d
  import opened Scene

  // ---------------------------------------------------------------------
  // JavaScript 32-bit integer conversions

  const TWO_16: int := 0x1_0000
  const TWO_31: int := 0x8000_0000
  const TWO_32: int := 0x1_0000_0000

  /** ToUint32: the value modulo 2^32. */
  function ToUint32(v: int): (r: int)
    ensures 0 <= r < TWO_32
    ensures (v - r) % TWO_32 == 0
  {
    v % TWO_32
  }

  /** ToInt32 (`v | 0`): the value modulo 2^32, read as two's complement. */
  function ToInt32(v: int): (r: int)
    ensures -TWO_31 <= r < TWO_31
    ensures ToUint32(r) == ToUint32(v)
  {
    var u := ToUint32(v);
    if u >= TWO_31 then u - TWO_32 else u
  }

  /** Bit b of a value: its lowest bit after b halvings. */
  predicate BitOf(u: int, b: nat)
    decreases b
  {
    if b == 0 then u % 2 == 1 else BitOf(u / 2, b - 1)
  }

  /** bitIs: `((value >>> bit) & 1) === 1`; the shift count is taken modulo 32. */
  predicate BitIs(value: int, bit: nat)
  {
    BitOf(ToUint32(value), bit % 32)
  }

  /** Sign-extends a 16-bit value. */
  function SignExtend16(out: int): (r: int)
    requires 0 <= out < TWO_16
    ensures -32768 <= r <= 32767
    ensures (r - out) % TWO_16 == 0
  {
    if out >= 0x8000 then out - TWO_16 else out
  }

  /**
   * getDataShort: the index-th signed 16-bit delta. Word (index >> 1) + 1
   * holds two of them, the high half first; past the end of the data the
   * delta is 0.
   */
  function GetDataShort(data: seq<int>, index: nat): (r: int)
    ensures -32768 <= r <= 32767
    ensures index / 2 + 1 >= |data| ==> r == 0
  {
    var realIndex := index / 2 + 1;
    if realIndex >= |data| then 0
    else
      var word := ToUint32(ToInt32(data[realIndex]));
      var out := if index % 2 == 1 then word % TWO_16 else (word / TWO_16) % TWO_16;
      SignExtend16(out)
  }

  /** The word that packs two signed 16-bit deltas, high half first (the inverse of getDataShort). */
  function PackShorts(high: int, low: int): (w: int)
    requires -32768 <= high <= 32767 && -32768 <= low <= 32767
    ensures -TWO_31 <= w < TWO_31
  {
    ToInt32((high % TWO_16) * TWO_16 + low % TWO_16)
  }

  /** Reading a packed word back yields both deltas in order. */
  lemma GetDataShortReadsPackedPair(data: seq<int>, k: nat, high: int, low: int)
    requires -32768 <= high <= 32767 && -32768 <= low <= 32767
    requires k + 1 < |data| && data[k + 1] == PackShorts(high, low)
    ensures GetDataShort(data, 2 * k) == high
    ensures GetDataShort(data, 2 * k + 1) == low
  {
    var hu := high % TWO_16;
    var lu := low % TWO_16;
    var w := hu * TWO_16 + lu;
    assert 0 <= w < TWO_32;
    assert ToUint32(ToInt32(data[k + 1])) == w by {
      assert ToUint32(ToInt32(w)) == ToUint32(w);
    }
    assert (2 * k) / 2 + 1 == k + 1 && (2 * k + 1) / 2 + 1 == k + 1;
    assert w % TWO_16 == lu && w / TWO_16 == hu;
    assert hu % TWO_16 == hu;
  }

  // ---------------------------------------------------------------------
  // Corners

  /** An integer grid point. */
  datatype IVec = IVec(x: int, y: int, z: int)
  {
    function At(i: nat): int
      requires i < 3
    {
      if i == 0 then x else if i == 1 then y else z
    }

    function ToVec(): Vec3
    {
      Vec3(x as real, y as real, z as real)
    }
  }

  /** A box corner named by its three sides: east or west, up or down, south or north. */
  datatype CornerName = CornerName(east: bool, up: bool, south: bool)

  /** BOX_CORNER_ORDER: EUN, EUS, EDN, EDS, WUN, WUS, WDN, WDS. */
  const BoxCornerOrder: seq<CornerName> := [
    CornerName(true, true, false), CornerName(true, true, true),
    CornerName(true, false, false), CornerName(true, false, true),
    CornerName(false, true, false), CornerName(false, true, true),
    CornerName(false, false, false), CornerName(false, false, true)]

  const EUN: nat := 0
  const EUS: nat := 1
  const EDN: nat := 2
  const EDS: nat := 3
  const WUN: nat := 4
  const WUS: nat := 5
  const WDN: nat := 6
  const WDS: nat := 7

  /** The corner order names all eight corners, each once. */
  lemma CornerOrderIsComplete()
    ensures |BoxCornerOrder| == 8
    ensures forall i, j :: 0 <= i < j < 8 ==> BoxCornerOrder[i] != BoxCornerOrder[j]
    ensures forall c: CornerName :: c in BoxCornerOrder
  {
    forall c: CornerName
      ensures c in BoxCornerOrder
    {
      var i := (if c.east then 0 else 4) + (if c.up then 0 else 2) + (if c.south then 1 else 0);
      assert BoxCornerOrder[i] == c;
    }
  }

  /** baseCorner: the undisplaced corner, taking maxX for E, maxY for U and maxZ for S. */
  function BaseCorner(box: Box, c: CornerName): (p: IVec)
    ensures p.x == (if c.east then box.maxX else box.minX)
    ensures p.y == (if c.up then box.maxY else box.minY)
    ensures p.z == (if c.south then box.maxZ else box.minZ)
  {
    IVec(if c.east then box.maxX else box.minX,
         if c.up then box.maxY else box.minY,
         if c.south then box.maxZ else box.minZ)
  }

  /** decodeBaseCorners: the eight undisplaced corners in corner order. */
  function BaseCorners(box: Box): (r: seq<IVec>)
    ensures |r| == 8
  {
    seq(8, i requires 0 <= i < 8 => BaseCorner(box, BoxCornerOrder[i]))
  }

  /** The indicator word of the transform data (`data[0] | 0`, 0 when there is no word). */
  function Indicator(data: seq<int>): int
  {
    if |data| > 0 then ToInt32(data[0]) else 0
  }

  /** The number of indicator bits set below bit b: the deltas read before bit b's. */
  function CountBitsBelow(indicator: int, b: nat): (r: nat)
    ensures r <= b
  {
    if b == 0 then 0 else CountBitsBelow(indicator, b - 1) + (if BitIs(indicator, b - 1) then 1 else 0)
  }

  /** The delta governed by indicator bit b: the next packed delta when the bit is set, else 0. */
  function Delta(data: seq<int>, b: nat): int
  {
    var indicator := Indicator(data);
    if BitIs(indicator, b) then GetDataShort(data, CountBitsBelow(indicator, b)) else 0
  }

  /** Corner i displaced by the deltas of bits 3i, 3i+1 and 3i+2. */
  function DecodedCorner(box: Box, data: seq<int>, i: nat): IVec
    requires i < 8
  {
    var base := BaseCorner(box, BoxCornerOrder[i]);
    IVec(base.x + Delta(data, 3 * i), base.y + Delta(data, 3 * i + 1), base.z + Delta(data, 3 * i + 2))
  }

  function DecodedCorners(box: Box, data: seq<int>): (r: seq<IVec>)
    ensures |r| == 8
  {
    seq(8, i requires 0 <= i < 8 => DecodedCorner(box, data, i))
  }

  /** One step of decodeTransformableCorners: read the delta of a bit when it is set. */
  method ReadDelta(data: seq<int>, bit: nat, activeBits: nat) returns (d: int, next: nat)
    requires activeBits == CountBitsBelow(Indicator(data), bit)
    ensures d == Delta(data, bit)
    ensures next == CountBitsBelow(Indicator(data), bit + 1)
  {
    d, next := 0, activeBits;
    if BitIs(Indicator(data), bit) {
      d := GetDataShort(data, activeBits);
      next := activeBits + 1;
    }
  }

  /** The body of decodeTransformableCorners for corner i: its three optional deltas. */
  method DecodeCorner(box: Box, data: seq<int>, i: nat, activeBits: nat) returns (corner: IVec, next: nat)
    requires i < 8 && activeBits == CountBitsBelow(Indicator(data), 3 * i)
    ensures corner == DecodedCorner(box, data, i)
    ensures next == CountBitsBelow(Indicator(data), 3 * (i + 1))
  {
    var base := BaseCorner(box, BoxCornerOrder[i]);
    var bit := 3 * i;
    var dx, dy, dz;
    dx, next := ReadDelta(data, bit, activeBits);
    dy, next := ReadDelta(data, bit + 1, next);
    dz, next := ReadDelta(data, bit + 2, next);
    corner := IVec(base.x + dx, base.y + dy, base.z + dz);
    assert bit + 3 == 3 * (i + 1);
    assert corner == IVec(base.x + Delta(data, 3 * i), base.y + Delta(data, 3 * i + 1), base.z + Delta(data, 3 * i + 2));
  }

  /**
   * decodeTransformableCorners: walks the corners in order, reading one
   * packed delta for each set indicator bit and counting them in activeBits.
   */
  method DecodeTransformableCorners(box: Box, data: seq<int>) returns (out: seq<IVec>)
    ensures out == DecodedCorners(box, data)
  {
    var activeBits := 0;
    out := [];
    for i := 0 to 8
      invariant |out| == i
      invariant forall k :: 0 <= k < i ==> out[k] == DecodedCorner(box, data, k)
      invariant activeBits == CountBitsBelow(Indicator(data), 3 * i)
    {
      var corner;
      corner, activeBits := DecodeCorner(box, data, i, activeBits);
      out := out + [corner];
    }
  }

  /** Deltas are consumed in bit order: the k-th set bit reads the k-th packed delta. */
  lemma {:induction false} DeltasConsumedInOrder(indicator: int, b1: nat, b2: nat)
    requires b1 < b2 && BitIs(indicator, b1)
    ensures CountBitsBelow(indicator, b1) < CountBitsBelow(indicator, b2)
    decreases b2
  {
    if b2 > b1 + 1 {
      DeltasConsumedInOrder(indicator, b1, b2 - 1);
    }
  }

  /** Without any corner bit set every decoded corner is its base corner. */
  lemma NoCornerBitsKeepBase(box: Box, data: seq<int>)
    requires forall b :: 0 <= b < 24 ==> !BitIs(Indicator(data), b)
    ensures DecodedCorners(box, data) == BaseCorners(box)
  {
    forall i | 0 <= i < 8
      ensures DecodedCorners(box, data)[i] == BaseCorners(box)[i]
    {
      assert Delta(data, 3 * i) == 0 && Delta(data, 3 * i + 1) == 0 && Delta(data, 3 * i + 2) == 0;
    }
  }

  // ---------------------------------------------------------------------
  // Faces and their triangle split

  /** A FACE_DEFS entry: a facing and its four corners (indices into the corner order). */
  datatype FaceDef = FaceDef(facing: Facing, corners: seq<nat>)

  /** FACE_DEFS, in the order the tilted strips are built. */
  const FaceDefs: seq<FaceDef> := [
    FaceDef(EAST, [EUS, EDS, EDN, EUN]),
    FaceDef(WEST, [WUN, WDN, WDS, WUS]),
    FaceDef(UP, [WUN, WUS, EUS, EUN]),
    FaceDef(DOWN, [WDS, WDN, EDN, EDS]),
    FaceDef(SOUTH, [WUS, WDS, EDS, EUS]),
    FaceDef(NORTH, [EUN, EDN, WDN, WUN])]

  /** FACE_DEF_BY_FACING: the four corners of a facing. */
  function FaceCorners(f: Facing): (r: seq<nat>)
    ensures |r| == 4 && forall i :: 0 <= i < 4 ==> r[i] < 8
  {
    match f
    case EAST => FaceDefs[0].corners
    case WEST => FaceDefs[1].corners
    case UP => FaceDefs[2].corners
    case DOWN => FaceDefs[3].corners
    case SOUTH => FaceDefs[4].corners
    case NORTH => FaceDefs[5].corners
  }

  /** Whether a corner lies on the side of the box a facing looks at. */
  predicate OnSide(c: CornerName, f: Facing)
  {
    match FacingAxis(f)
    case X => c.east == FacingPositive(f)
    case Y => c.up == FacingPositive(f)
    case Z => c.south == FacingPositive(f)
  }

  /** Each facing lists the four distinct corners on its side, and FACE_DEFS covers each facing once. */
  lemma FaceCornersLieOnTheirSide(f: Facing)
    ensures forall i :: 0 <= i < 4 ==> OnSide(BoxCornerOrder[FaceCorners(f)[i]], f)
    ensures forall i, j :: 0 <= i < j < 4 ==> FaceCorners(f)[i] != FaceCorners(f)[j]
    ensures |FaceDefs| == 6 && exists d :: 0 <= d < 6 && FaceDefs[d].facing == f && FaceDefs[d].corners == FaceCorners(f)
  {
    var d := match f case EAST => 0 case WEST => 1 case UP => 2 case DOWN => 3 case SOUTH => 4 case NORTH => 5;
    assert FaceDefs[d].facing == f;
  }

  /** A base corner on a facing's side sits on the box bound that facing looks at. */
  lemma BaseCornerOnFacePlane(box: Box, c: CornerName, f: Facing)
    requires OnSide(c, f)
    ensures var k := AxisIndex(FacingAxis(f));
      BaseCorner(box, c).At(k) == (if FacingPositive(f) then box.RawMax(k) else box.RawMin(k))
  {
  }

  /** The split of a face into two triangles; the flip bit selects the other diagonal. */
  function TriangleKeys(corners: seq<nat>, flipped: bool): (r: (seq<nat>, seq<nat>))
    requires |corners| == 4
    ensures |r.0| == 3 && |r.1| == 3
    ensures forall i :: 0 <= i < 3 ==> r.0[i] in corners && r.1[i] in corners
  {
    if flipped then ([corners[0], corners[1], corners[3]], [corners[1], corners[2], corners[3]])
    else ([corners[0], corners[1], corners[2]], [corners[0], corners[2], corners[3]])
  }

  /** The flip bit of a face: indicator bit 24 + the facing ordinal. */
  predicate Flipped(indicator: int, f: Facing)
  {
    BitIs(indicator, 24 + Ordinal(f))
  }

  /**
   * The two triangles cover all four corners and share exactly one
   * diagonal: corners 0 and 2 normally, corners 1 and 3 when flipped.
   */
  lemma TrianglesSplitAlongDiagonal(corners: seq<nat>, flipped: bool)
    requires |corners| == 4 && forall i, j :: 0 <= i < j < 4 ==> corners[i] != corners[j]
    ensures var (a, b) := TriangleKeys(corners, flipped);
      (forall c :: c in corners <==> c in a || c in b) &&
      (forall c :: c in a && c in b <==>
        if flipped then c == corners[1] || c == corners[3] else c == corners[0] || c == corners[2])
  {
  }

  // ---------------------------------------------------------------------
  // Normals and planes

  /** Bisection steps of the square root that stands in for Math.hypot. */
  const SQRT_STEPS: nat := 60

  /** Narrows [lo, hi] around the square root of x, keeping hi a positive upper bound. */
  function SqrtUpper(x: real, lo: real, hi: real, steps: nat): (r: real)
    requires 0.0 <= lo <= hi && 0.0 < hi && x <= hi * hi
    ensures lo <= r <= hi && 0.0 < r && x <= r * r
    decreases steps
  {
    if steps == 0 then hi
    else
      var mid := (lo + hi) / 2.0;
      if mid * mid < x then SqrtUpper(x, mid, hi, steps - 1) else SqrtUpper(x, lo, mid, steps - 1)
  }

  /** The first upper bound of the bisection: 1, or x itself when x exceeds 1. */
  function SqrtStart(x: real): (hi: real)
    ensures hi >= 1.0 && x <= hi * hi
  {
    if x <= 1.0 then 1.0
    else
      assert x * 1.0 <= x * x;
      x
  }

  /** An upper approximation of the square root of x after the given bisection steps. */
  function Sqrt(x: real, steps: nat): (r: real)
    ensures r > 0.0 && x <= r * r
  {
    SqrtUpper(x, 0.0, SqrtStart(x), steps)
  }

  /** The square root of 1 is found exactly. */
  lemma {:induction false} SqrtUpperOfOne(lo: real, steps: nat)
    requires 0.0 <= lo < 1.0
    ensures SqrtUpper(1.0, lo, 1.0, steps) == 1.0
    decreases steps
  {
    if steps > 0 {
      var mid := (lo + 1.0) / 2.0;
      assert 0.0 <= mid < 1.0;
      assert mid * mid < 1.0 by {
        assert mid * mid <= mid * 1.0;
      }
      SqrtUpperOfOne(mid, steps - 1);
    }
  }

  /**
   * normalLength: the Euclidean length, 0 exactly for the zero vector and
   * otherwise the bisection root of the squared length.
   */
  function NormalLength(v: Vec3): (r: real)
    ensures r >= 0.0
    ensures r == 0.0 <==> v == Zero
  {
    if v == Zero then 0.0 else Sqrt(SqLen(v), SQRT_STEPS)
  }

  /**
   * normalizeVec: the vector divided by its length. The zero vector gives
   * NaN components in the source, modelled as None.
   */
  function NormalizeVec(v: Vec3): (r: Option<Vec3>)
    ensures r.None? <==> v == Zero
    ensures r.Some? ==> exists k: real :: k > 0.0 && r.value == Scale(v, k)
  {
    var len := NormalLength(v);
    if len == 0.0 then None
    else
      var k := 1.0 / len;
      assert k > 0.0;
      Some(Scale(v, k))
  }

  /** A vector of squared length 1 has length exactly 1, so normalising keeps it. */
  lemma NormalizeUnit(v: Vec3)
    requires SqLen(v) == 1.0
    ensures NormalizeVec(v) == Some(v)
  {
    assert v != Zero;
    SqrtUpperOfOne(0.0, SQRT_STEPS);
    assert NormalLength(v) == 1.0;
    assert Scale(v, 1.0) == v;
  }

  /** A facing normal is already of unit length, so normalising keeps it exactly. */
  lemma NormalizeFacingNormal(f: Facing)
    ensures NormalizeVec(FacingNormalVec(f)) == Some(FacingNormalVec(f))
  {
    var v := FacingNormalVec(f);
    assert SqLen(v) == 1.0 by {
      match f
      case DOWN => case UP => case NORTH => case SOUTH => case WEST => case EAST =>
    }
    NormalizeUnit(v);
  }

  /**
   * createPlane: a plane through origin whose normal is the normalised
   * direction; it is invalid when that normal is NaN (a NaN direction, or
   * the zero vector).
   */
  function CreatePlane(origin: Vec3, direction: Option<Vec3>): (p: Plane)
    ensures p.origin == origin
    ensures p.invalid <==> direction.None? || direction.value == Zero
    ensures !p.invalid ==> exists k: real :: k > 0.0 && p.normal == Scale(direction.value, k)
  {
    var n := if direction.None? then None else NormalizeVec(direction.value);
    Plane(origin, n.GetOr(Zero), n.None?)
  }

  /** triangleNormal: the cross product of the two edges leaving a. */
  function TriangleNormal(a: Vec3, b: Vec3, c: Vec3): Vec3
  {
    Cross(Sub(b, a), Sub(c, a))
  }

  /** vectorsParallel on normalised vectors: false when either is NaN. */
  predicate VectorsParallel(a: Option<Vec3>, b: Option<Vec3>, eps: real)
  {
    a.Some? && b.Some? && PointsEqual(a.value, b.value, eps)
  }

  /** vectorEpsilonEquals against the zero vector: false for a NaN vector. */
  predicate NearZero(a: Option<Vec3>)
  {
    a.Some? && PointsEqual(a.value, Zero, EPSILON)
  }

  function FacingNormalVec(f: Facing): Vec3
  {
    var (x, y, z) := FacingNormal(f);
    Vec3(x as real, y as real, z as real)
  }

  /** planeForFacing: the plane of a box side, through the box bound, with the facing normal. */
  function PlaneForFacing(box: Box, f: Facing): (p: Plane)
    ensures !p.invalid && p.normal == FacingNormalVec(f)
    ensures var k := AxisIndex(FacingAxis(f));
      p.origin.At(k) == (if FacingPositive(f) then box.RawMax(k) else box.RawMin(k)) as real
  {
    var k := AxisIndex(FacingAxis(f));
    var c := (if FacingPositive(f) then box.RawMax(k) else box.RawMin(k)) as real;
    var origin := if k == 0 then Vec3(c, 0.0, 0.0) else if k == 1 then Vec3(0.0, c, 0.0) else Vec3(0.0, 0.0, c);
    NormalizeFacingNormal(f);
    CreatePlane(origin, Some(FacingNormalVec(f)))
  }

  /** planeIsFacing: every normal component within 2e-3 of the facing normal. */
  predicate PlaneIsFacing(plane: Plane, f: Facing)
  {
    PointsEqual(plane.normal, FacingNormalVec(f), 0.002)
  }

  /** The dot product of a normal with a facing normal. */
  function FacingDot(n: Vec3, f: Facing): real
  {
    Dot(n, FacingNormalVec(f))
  }

  /** The first of the first k facings, in facing order, whose dot product with the normal is greatest. */
  function BestAmong(normal: Vec3, k: nat): Facing
    requires 1 <= k <= 6
  {
    if k == 1 then FacingOrder[0]
    else
      var best := BestAmong(normal, k - 1);
      if FacingDot(normal, FacingOrder[k - 1]) > FacingDot(normal, best) then FacingOrder[k - 1] else best
  }

  /** The facing nearestFacing picks: DOWN for the zero vector, else the best of all six. */
  function Nearest(normal: Vec3): Facing
  {
    if normal == Zero then DOWN else BestAmong(normal, 6)
  }

  /**
   * nearestFacing: DOWN for the zero vector; otherwise the first facing, in
   * facing order, whose dot product with the normal is strictly greatest.
   */
  method NearestFacing(normal: Vec3) returns (facing: Facing)
    ensures facing == Nearest(normal)
    ensures normal == Zero ==> facing == DOWN
    ensures forall g: Facing :: FacingDot(normal, g) <= FacingDot(normal, facing)
    ensures forall g: Facing :: Ordinal(g) < Ordinal(facing) ==> FacingDot(normal, g) < FacingDot(normal, facing)
  {
    if normal == Zero {
      return DOWN;
    }
    FacingOrderIsOrdinal();
    facing := DOWN;
    var distance: Option<real> := None;
    for i := 0 to 6
      invariant i == 0 <==> distance.None?
      invariant i > 0 ==> distance == Some(FacingDot(normal, facing)) && Ordinal(facing) < i
      invariant forall k :: 0 <= k < i ==> FacingDot(normal, FacingOrder[k]) <= FacingDot(normal, facing)
      invariant forall k :: 0 <= k < Ordinal(facing) ==> FacingDot(normal, FacingOrder[k]) < FacingDot(normal, facing)
      invariant i > 0 ==> facing == BestAmong(normal, i)
    {
      var candidate := FacingOrder[i];
      var dot := FacingDot(normal, candidate);
      if distance.None? || dot > distance.value {
        distance := Some(dot);
        facing := candidate;
      }
    }
    forall g: Facing
      ensures FacingDot(normal, g) <= FacingDot(normal, facing)
    {
      assert FacingOrder[Ordinal(g)] == g;
    }
  }
}
