/** Coordinates on the board and the eight unit steps between neighbouring
    cells. The grid only uses three things from these classes: moving a
    coordinate by one step of a direction, and the fixed list of the four
    opposite direction pairs it scans. The compass names and the order of the
    pairs below are stand-ins: nothing in the grid depends on which pair comes
    first, and the lemmas about the scan are stated for any pair list whose
    entries are opposite pairs. */
module Geometry {

  /** A unit step: each component in {-1, 0, 1}, never (0, 0). */
  datatype Direction = N | S | E | W | NE | SW | NW | SE
  {
    function Dx(): int {
      match this
      case E | NE | SE => 1
      case W | NW | SW => -1
      case N | S => 0
    }

    function Dy(): int {
      match this
      case S | SE | SW => 1
      case N | NE | NW => -1
      case E | W => 0
    }

    function Opposite(): Direction {
      match this
      case N => S
      case S => N
      case E => W
      case W => E
      case NE => SW
      case SW => NE
      case NW => SE
      case SE => NW
    }
  }

  /** An immutable board position; no bounds are enforced here. */
  datatype Coords = Coords(x: int, y: int)
  {
    /** The neighbour one step away in direction `d`. */
    function Add(d: Direction): Coords {
      Coords(x + d.Dx(), y + d.Dy())
    }
  }

  /** The position `k` steps from `c` in direction `d` (negative `k` walks backwards). */
  function Offset(c: Coords, d: Direction, k: int): Coords {
    Coords(c.x + Steps(k, d.Dx()), c.y + Steps(k, d.Dy()))
  }

  /** `k` times a unit component in {-1, 0, 1}, written without a
      multiplication so that it stays linear arithmetic. */
  function Steps(k: int, unit: int): int {
    if unit > 0 then k else if unit < 0 then -k else 0
  }

  /** The `n` positions met when walking outward from `o` along `d`, nearest first. */
  function Ray(o: Coords, d: Direction, n: nat): seq<Coords> {
    seq(n, i => Offset(o, d, i + 1))
  }

  /** The four axes the win scan tries, each as a pair of opposite directions. */
  function Pairs(): seq<seq<Direction>> {
    [[E, W], [N, S], [NE, SW], [NW, SE]]
  }

  /** Every direction is a unit vector, and its opposite is its negation. */
  lemma UnitVector(d: Direction)
    ensures -1 <= d.Dx() <= 1 && -1 <= d.Dy() <= 1
    ensures d.Dx() != 0 || d.Dy() != 0
    ensures d.Opposite().Dx() == -d.Dx() && d.Opposite().Dy() == -d.Dy()
    ensures d.Opposite() != d && d.Opposite().Opposite() == d
  {
  }

  /** The pair list holds four opposite pairs and mentions every direction. */
  lemma PairsAreAxes()
    ensures |Pairs()| == 4
    ensures forall p | 0 <= p < |Pairs()| :: |Pairs()[p]| == 2 && Pairs()[p][1] == Pairs()[p][0].Opposite()
    ensures forall d: Direction :: d in Pairs()[0] || d in Pairs()[1] || d in Pairs()[2] || d in Pairs()[3]
  {
    forall d: Direction
      ensures d in Pairs()[0] || d in Pairs()[1] || d in Pairs()[2] || d in Pairs()[3]
    {
      match d
      case E => assert Pairs()[0][0] == d;
      case W => assert Pairs()[0][1] == d;
      case N => assert Pairs()[1][0] == d;
      case S => assert Pairs()[1][1] == d;
      case NE => assert Pairs()[2][0] == d;
      case SW => assert Pairs()[2][1] == d;
      case NW => assert Pairs()[3][0] == d;
      case SE => assert Pairs()[3][1] == d;
    }
  }

  /** Zero steps stay put and one step is `Add`. */
  lemma OffsetBase(c: Coords, d: Direction)
    ensures Offset(c, d, 0) == c && Offset(c, d, 1) == c.Add(d)
  {
  }

  /** `k` steps from `c` are `k - 1` steps from its neighbour. */
  lemma OffsetShift(c: Coords, d: Direction)
    ensures forall k {:trigger Offset(c, d, k)} :: Offset(c, d, k) == Offset(c.Add(d), d, k - 1)
  {
    match d
    case N =>
    case S =>
    case E =>
    case W =>
    case NE =>
    case SW =>
    case NW =>
    case SE =>
  }

  /** One more step from `k` steps out is `k + 1` steps out; one step the
      other way is `k - 1` steps out. */
  lemma OffsetStep(c: Coords, d: Direction, k: int)
    ensures Offset(c, d, k).Add(d) == Offset(c, d, k + 1)
    ensures Offset(c, d, k).Add(d.Opposite()) == Offset(c, d, k - 1)
  {
    match d
    case N =>
    case S =>
    case E =>
    case W =>
    case NE =>
    case SW =>
    case NW =>
    case SE =>
  }

  /** Walking along the opposite direction is walking backwards. */
  lemma OffsetOpposite(c: Coords, d: Direction, k: int)
    ensures Offset(c, d.Opposite(), k) == Offset(c, d, -k)
  {
    match d
    case N =>
    case S =>
    case E =>
    case W =>
    case NE =>
    case SW =>
    case NW =>
    case SE =>
  }

  /** Different step counts along one direction reach different positions. */
  lemma OffsetInjective(c: Coords, d: Direction, j: int, k: int)
    ensures Offset(c, d, j) == Offset(c, d, k) <==> j == k
  {
    match d
    case N =>
    case S =>
    case E =>
    case W =>
    case NE =>
    case SW =>
    case NW =>
    case SE =>
  }

  /** The position one step behind `o` is a neighbour of no position at
      least one step ahead of `o` on the same axis. */
  lemma NotNeighbour(o: Coords, d: Direction, k: int)
    requires k >= 1
    ensures Offset(o, d, -1) != Offset(o, d, k).Add(d)
    ensures Offset(o, d, -1) != Offset(o, d, k).Add(d.Opposite())
  {
    match d
    case N =>
    case S =>
    case E =>
    case W =>
    case NE =>
    case SW =>
    case NW =>
    case SE =>
  }

  /** A ray one longer starts with the neighbour and continues from it. */
  lemma {:induction false} RayStep(o: Coords, d: Direction, m: nat)
    ensures Ray(o, d, m + 1) == [o.Add(d)] + Ray(o.Add(d), d, m)
  {
    OffsetBase(o, d);
    OffsetShift(o, d);
    var lhs, rhs := Ray(o, d, m + 1), [o.Add(d)] + Ray(o.Add(d), d, m);
    assert |lhs| == |rhs|;
    forall i | 0 <= i < m + 1
      ensures lhs[i] == rhs[i]
    {
      if i > 0 {
        assert rhs[i] == Offset(o.Add(d), d, i);
      }
    }
  }
}
