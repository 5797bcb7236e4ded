/**
 * Board geometry: the four rotations of a tile, the four cardinal directions and grid
 * positions. Rotations and directions are enums whose arithmetic works on ordinals
 * modulo 4.
 */
module Geometry {

  /** Clockwise rotations, in declaration order (NONE, RIGHT, HALF_TURN, LEFT). */
  datatype Rotation = NoTurn | Right | HalfTurn | Left {
    function Ordinal(): (i: nat)
      ensures i < 4
    {
      match this
      case NoTurn => 0
      case Right => 1
      case HalfTurn => 2
      case Left => 3
    }

    /**
     * add: the rotation whose ordinal is the sum of both ordinals modulo 4 (the sum is
     * below 8, so the remainder is one conditional subtraction).
     */
    function Add(that: Rotation): Rotation {
      var sum := Ordinal() + that.Ordinal();
      RotationAt(if sum < 4 then sum else sum - 4)
    }

    /** negated: the rotation at ordinal (4 - ordinal) modulo 4. */
    function Negated(): Rotation {
      var n := 4 - Ordinal();
      RotationAt(if n < 4 then n else n - 4)
    }

    /** quarterTurnsCW: the ordinal. */
    function QuarterTurnsCW(): (q: nat)
      ensures q < 4
    {
      Ordinal()
    }

    /** degreesCW: ninety degrees per quarter turn. */
    function DegreesCW(): (d: nat)
      ensures d in {0, 90, 180, 270} && d / 90 == QuarterTurnsCW()
    {
      QuarterTurnsCW() * 90
    }
  }

  /** Rotation.ALL.get(i). */
  function RotationAt(i: nat): (r: Rotation)
    requires i < 4
    ensures r.Ordinal() == i
  {
    if i == 0 then NoTurn else if i == 1 then Right else if i == 2 then HalfTurn else Left
  }

  /** Directions in declaration order: N, E, S, W. */
  datatype Direction = N | E | S | W {
    function Ordinal(): (i: nat)
      ensures i < 4
    {
      match this
      case N => 0
      case E => 1
      case S => 2
      case W => 3
    }

    /** rotated: the direction `rotation.quarterTurnsCW()` steps further clockwise. */
    function Rotated(rotation: Rotation): Direction {
      var sum := Ordinal() + rotation.QuarterTurnsCW();
      DirectionAt(if sum < 4 then sum else sum - 4)
    }

    /** opposite: the direction rotated by a half turn. */
    function Opposite(): Direction {
      Rotated(HalfTurn)
    }
  }

  /** Direction.ALL.get(i). */
  function DirectionAt(i: nat): (d: Direction)
    requires i < 4
    ensures d.Ordinal() == i
  {
    if i == 0 then N else if i == 1 then E else if i == 2 then S else W
  }

  const AllDirections: seq<Direction> := [N, E, S, W]

  /** A grid position; y grows southwards. */
  datatype Pos = Pos(x: int, y: int) {
    function Translated(dX: int, dY: int): Pos {
      Pos(x + dX, y + dY)
    }

    /** neighbor: one step in the given direction. */
    function Neighbor(direction: Direction): Pos {
      match direction
      case N => Translated(0, -1)
      case E => Translated(1, 0)
      case S => Translated(0, 1)
      case W => Translated(-1, 0)
    }
  }

  const Origin: Pos := Pos(0, 0)

  function Abs(n: int): (r: nat)
    ensures r == n || r == -n
  {
    if n < 0 then -n else n
  }

  /** add is commutative and has NONE as its identity. */
  lemma AddCommutes(r: Rotation, s: Rotation)
    ensures r.Add(s) == s.Add(r)
    ensures r.Add(NoTurn) == r && NoTurn.Add(r) == r
  {
  }

  /** The ordinal of a sum is the sum of the ordinals modulo 4 (COUNT). */
  lemma AddOrdinal(r: Rotation, s: Rotation)
    ensures r.Add(s).Ordinal() == (r.Ordinal() + s.Ordinal()) % 4
  {
  }

  /** add is associative. */
  lemma AddAssociates(r: Rotation, s: Rotation, t: Rotation)
    ensures r.Add(s).Add(t) == r.Add(s.Add(t))
  {
  }

  /** negated is the inverse for add, and swaps RIGHT and LEFT. */
  lemma NegatedIsInverse(r: Rotation)
    ensures r.Add(r.Negated()) == NoTurn
    ensures r.Negated().Negated() == r
    ensures NoTurn.Negated() == NoTurn && Right.Negated() == Left
    ensures Left.Negated() == Right && HalfTurn.Negated() == HalfTurn
  {
  }

  /** Rotating by NONE does nothing; rotating by r then by r's negation returns the start. */
  lemma RotatedInverse(d: Direction, r: Rotation)
    ensures d.Rotated(NoTurn) == d
    ensures d.Rotated(r).Rotated(r.Negated()) == d
    ensures d.Rotated(r.Negated()).Rotated(r) == d
  {
  }

  /** Rotating twice adds the rotations. */
  lemma RotatedAdd(d: Direction, r: Rotation, s: Rotation)
    ensures d.Rotated(r).Rotated(s) == d.Rotated(r.Add(s))
  {
  }

  /** opposite pairs N with S and E with W, so it is an involution. */
  lemma OppositeIsInvolution(d: Direction)
    ensures d.Opposite().Opposite() == d && d.Opposite() != d
    ensures N.Opposite() == S && E.Opposite() == W && S.Opposite() == N && W.Opposite() == E
  {
  }

  /**
   * A neighbour is one step away (Manhattan distance 1), and stepping back in the
   * opposite direction returns to the start.
   */
  lemma NeighborIsOneStep(p: Pos, d: Direction)
    ensures Abs(p.Neighbor(d).x - p.x) + Abs(p.Neighbor(d).y - p.y) == 1
    ensures p.Neighbor(d).Neighbor(d.Opposite()) == p
    ensures p.Neighbor(d) != p
  {
  }

  /** Two distinct directions lead to distinct neighbours. */
  lemma NeighborsDistinct(p: Pos, d: Direction, e: Direction)
    requires d != e
    ensures p.Neighbor(d) != p.Neighbor(e)
  {
  }
}
