/**
 * The six block facings, their axes and the iteration order shared by the
 * whole face pipeline (the order of the Minecraft `Direction` enum).
 */
module Facings {
  import opened Wrappers

  datatype Facing = DOWN | UP | NORTH | SOUTH | WEST | EAST

  datatype Axis = X | Y | Z

  /** A coordinate index: 0 for x, 1 for y, 2 for z. */
  type CoordIndex = i: nat | i < 3

  /** The facing ordinal: position in the iteration order DOWN, UP, NORTH, SOUTH, WEST, EAST. */
  function Ordinal(f: Facing): nat
  {
    match f
    case DOWN => 0
    case UP => 1
    case NORTH => 2
    case SOUTH => 3
    case WEST => 4
    case EAST => 5
  }

  const FacingOrder: seq<Facing> := [DOWN, UP, NORTH, SOUTH, WEST, EAST]

  /** facingAxis: EAST/WEST lie on X, UP/DOWN on Y, NORTH/SOUTH on Z. */
  function FacingAxis(f: Facing): Axis
  {
    if f == EAST || f == WEST then X
    else if f == UP || f == DOWN then Y
    else Z
  }

  /** facingPositive: the facings whose outward normal points along +axis. */
  predicate FacingPositive(f: Facing)
  {
    f == EAST || f == UP || f == SOUTH
  }

  function AxisIndex(a: Axis): (r: nat)
    ensures r < 3
    ensures (r == 0 <==> a == X) && (r == 1 <==> a == Y) && (r == 2 <==> a == Z)
  {
    match a
    case X => 0
    case Y => 1
    case Z => 2
  }

  /** The two in-plane coordinate indices of faces on an axis, ascending. */
  function PlaneAxes(a: Axis): (r: (nat, nat))
    ensures r.0 < r.1 < 3
    ensures r.0 != AxisIndex(a) && r.1 != AxisIndex(a)
  {
    match a
    case X => (1, 2)
    case Y => (0, 2)
    case Z => (0, 1)
  }

  /** facePlaneAxes: the in-plane coordinate indices (one, two) of a face. */
  function FacePlaneAxes(f: Facing): (r: (nat, nat))
    ensures r.0 < r.1 < 3
    ensures r.0 != AxisIndex(FacingAxis(f)) && r.1 != AxisIndex(FacingAxis(f))
  {
    PlaneAxes(FacingAxis(f))
  }

  /** Unit outward normal of a facing, as integer components. */
  function FacingNormal(f: Facing): (int, int, int)
  {
    match f
    case DOWN => (0, -1, 0)
    case UP => (0, 1, 0)
    case NORTH => (0, 0, -1)
    case SOUTH => (0, 0, 1)
    case WEST => (-1, 0, 0)
    case EAST => (1, 0, 0)
  }

  /** The iteration order lists every facing exactly once, at its ordinal. */
  lemma FacingOrderIsOrdinal()
    ensures |FacingOrder| == 6
    ensures forall i :: 0 <= i < 6 ==> Ordinal(FacingOrder[i]) == i
    ensures forall f: Facing :: Ordinal(f) < 6 && FacingOrder[Ordinal(f)] == f
  {
  }

  /** The normal of a facing points along its axis, in the direction its sign says. */
  lemma NormalMatchesAxisAndSign(f: Facing)
    ensures var (x, y, z) := FacingNormal(f);
      var v := [x, y, z];
      var k := AxisIndex(FacingAxis(f));
      v[k] == (if FacingPositive(f) then 1 else -1) &&
      forall j :: 0 <= j < 3 && j != k ==> v[j] == 0
  {
  }

  /** The facing's name as the exports write it. */
  function Name(f: Facing): string
  {
    match f
    case DOWN => "DOWN"
    case UP => "UP"
    case NORTH => "NORTH"
    case SOUTH => "SOUTH"
    case WEST => "WEST"
    case EAST => "EAST"
  }

  /** The facing a text names, if it names one exactly (names are case-sensitive). */
  function Named(s: string): (r: Option<Facing>)
    ensures r.Some? ==> Name(r.value) == s
  {
    if s == "DOWN" then Some(DOWN)
    else if s == "UP" then Some(UP)
    else if s == "NORTH" then Some(NORTH)
    else if s == "SOUTH" then Some(SOUTH)
    else if s == "WEST" then Some(WEST)
    else if s == "EAST" then Some(EAST)
    else None
  }

  /** Names are distinct, so reading a facing's name gives the facing back. */
  lemma NamedName(f: Facing)
    ensures Named(Name(f)) == Some(f)
  {
  }
}
