/** What the grid's win scan computes, as functions of a board value.

    `Walk` is one call of `collectCellsInDirection`: step outward from a
    position, append every cell that holds the player to a shared list, and
    stop with `true` the moment the list length equals the target, or with
    `false` at the first cell that does not hold the player. `ScanDirs` runs
    the walks of one direction pair on the same list, and `ScanFrom` tries the
    pairs in order with a fresh list `[origin]` each, as `lookForWin` does.

    `Run` is an independent reference: the number of consecutive cells holding
    the player when walking outward. The lemmas say exactly when the scan
    finds a line and what that line is. */
module WinScan {
  import opened Geometry
  import opened Boards
  import opened Optional

  /** The distance to the board's edge along `d`, counted per moving
      component; it bounds how long a walk can stay on the board. */
  function Room(n: int, c: Coords, d: Direction): int {
    (if d.Dx() > 0 then n - c.x else if d.Dx() < 0 then c.x + 1 else 0) +
    (if d.Dy() > 0 then n - c.y else if d.Dy() < 0 then c.y + 1 else 0)
  }

  /** A step that lands on the board leaves strictly less room, and no less than zero. */
  lemma RoomShrinks(n: int, c: Coords, d: Direction)
    requires InBounds(n, c.Add(d))
    ensures 0 <= Room(n, c.Add(d), d) < Room(n, c, d)
  {
    match d
    case N =>
    case S =>
    case E =>
    case W =>
    case NE =>
    case SW =>
    case NW =>
    case SE =>
  }

  /** The number of cells holding `player` met in a row when walking
      outward from `c` along `d` (not counting `c` itself). */
  ghost function Run(b: Board, c: Coords, d: Direction, player: int): (r: nat)
    requires b.Valid() && player != OffBoard
    ensures forall k | 1 <= k <= r :: b.At(Offset(c, d, k)) == player
    ensures b.At(Offset(c, d, r + 1)) != player
    decreases Room(b.size, c, d)
  {
    OffsetBase(c, d);
    OffsetShift(c, d);
    var next := c.Add(d);
    if b.At(next) != player then 0
    else
      RoomShrinks(b.size, c, d);
      1 + Run(b, next, d, player)
  }

  /** A run never leaves the board, so it is at most the board's side. */
  lemma RunWithinBoard(b: Board, c: Coords, d: Direction, player: int)
    requires b.Valid() && player != OffBoard
    ensures Run(b, c, d, player) <= b.size
  {
    var r := Run(b, c, d, player);
    if r > 0 {
      var first, last := Offset(c, d, 1), Offset(c, d, r);
      assert b.At(first) == player && b.At(last) == player;
      assert InBounds(b.size, first) && InBounds(b.size, last);
      UnitVector(d);
      match d
      case N =>
      case S =>
      case E =>
      case W =>
      case NE =>
      case SW =>
      case NW =>
      case SE =>
    }
  }

  /** One call of `collectCellsInDirection`: the flag says whether the list
      reached `toWin`, and the list is `acc` with the collected cells
      appended. */
  ghost function Walk(b: Board, toWin: int, cur: Coords, d: Direction, player: int, acc: seq<Coords>): (bool, seq<Coords>)
    requires b.Valid() && player != OffBoard
    decreases Room(b.size, cur, d)
  {
    var next := cur.Add(d);
    if b.At(next) != player then (false, acc)
    else if |acc + [next]| == toWin then (true, acc + [next])
    else
      RoomShrinks(b.size, cur, d);
      Walk(b, toWin, next, d, player, acc + [next])
  }

  /** A walk finds a line exactly when the run is long enough to bring the
      list from below `toWin` up to `toWin`; it then stops at `toWin` cells,
      and otherwise it appends the whole run. */
  lemma {:induction false} WalkSpec(b: Board, toWin: int, cur: Coords, d: Direction, player: int, acc: seq<Coords>)
    requires b.Valid() && player != OffBoard
    ensures WalkMeets(b, toWin, cur, d, player, acc)
    decreases Room(b.size, cur, d)
  {
    var next := cur.Add(d);
    OffsetBase(cur, d);
    if b.At(next) != player {
      assert Ray(cur, d, 0) == [];
    } else if |acc + [next]| == toWin {
      assert Ray(cur, d, 1) == [next];
    } else {
      RoomShrinks(b.size, cur, d);
      WalkSpec(b, toWin, next, d, player, acc + [next]);
      WalkExtends(b, toWin, cur, d, player, acc);
    }
  }

  /** The outcome that `WalkSpec` promises for a walk from `cur` on `acc`. */
  ghost predicate WalkMeets(b: Board, toWin: int, cur: Coords, d: Direction, player: int, acc: seq<Coords>)
    requires b.Valid() && player != OffBoard
  {
    var r := Walk(b, toWin, cur, d, player, acc);
    var run := Run(b, cur, d, player);
    (r.0 <==> |acc| < toWin <= |acc| + run) &&
    r.1 == acc + Ray(cur, d, if r.0 then toWin - |acc| else run)
  }

  /** The outcome carries over from the walk that continues at the next cell. */
  lemma WalkExtends(b: Board, toWin: int, cur: Coords, d: Direction, player: int, acc: seq<Coords>)
    requires b.Valid() && player != OffBoard
    requires b.At(cur.Add(d)) == player && |acc + [cur.Add(d)]| != toWin
    requires WalkMeets(b, toWin, cur.Add(d), d, player, acc + [cur.Add(d)])
    ensures WalkMeets(b, toWin, cur, d, player, acc)
  {
    var next := cur.Add(d);
    var acc' := acc + [next];
    var r := Walk(b, toWin, next, d, player, acc');
    assert Walk(b, toWin, cur, d, player, acc) == r;
    OffsetBase(cur, d);
    var run' := Run(b, next, d, player);
    assert Run(b, cur, d, player) == 1 + run';
    if r.0 {
      RayExtends(acc, cur, d, toWin - |acc'|);
    } else {
      RayExtends(acc, cur, d, run');
    }
  }

  /** Appending the neighbour and then the ray from it is appending the
      ray one longer. */
  lemma RayExtends(acc: seq<Coords>, cur: Coords, d: Direction, m: nat)
    ensures acc + [cur.Add(d)] + Ray(cur.Add(d), d, m) == acc + Ray(cur, d, m + 1)
  {
    RayStep(cur, d, m);
    assert acc + [cur.Add(d)] + Ray(cur.Add(d), d, m) == acc + ([cur.Add(d)] + Ray(cur.Add(d), d, m));
  }

  /** The walks of one direction pair, continuing on the same list, until
      one of them reaches `toWin`. */
  ghost function ScanDirs(b: Board, toWin: int, origin: Coords, dirs: seq<Direction>, player: int, acc: seq<Coords>): (bool, seq<Coords>)
    requires b.Valid() && player != OffBoard
  {
    if dirs == [] then (false, acc)
    else
      var r := Walk(b, toWin, origin, dirs[0], player, acc);
      if r.0 then r else ScanDirs(b, toWin, origin, dirs[1..], player, r.1)
  }

  /** The pairs tried in order, each with a fresh list `[origin]`; the
      first list that reaches `toWin` is the result. */
  ghost function ScanFrom(b: Board, toWin: int, origin: Coords, pairs: seq<seq<Direction>>, player: int): Option<seq<Coords>>
    requires b.Valid() && player != OffBoard
  {
    if pairs == [] then None
    else
      var r := ScanDirs(b, toWin, origin, pairs[0], player, [origin]);
      if r.0 then Some(r.1) else ScanFrom(b, toWin, origin, pairs[1..], player)
  }

  /** The outcome of `lookForWin` for a mark of `player` at `origin`. */
  ghost function Win(b: Board, toWin: int, origin: Coords, player: int): Option<seq<Coords>>
    requires b.Valid() && player != OffBoard
  {
    ScanFrom(b, toWin, origin, Pairs(), player)
  }

  /** The axis of `pair` through `origin` carries a line of `toWin` cells of
      `player` (counting `origin`), and the target is at least 2: a list that
      starts at length 1 is only checked after an append. */
  ghost predicate AxisWins(b: Board, toWin: int, origin: Coords, pair: seq<Direction>, player: int)
    requires b.Valid() && player != OffBoard && |pair| == 2
  {
    2 <= toWin <= 1 + Run(b, origin, pair[0], player) + Run(b, origin, pair[1], player)
  }

  /** How many of a winning line's cells lie along the pair's first
      direction: the whole run, unless the target is reached first. */
  ghost function Reach(b: Board, toWin: int, origin: Coords, pair: seq<Direction>, player: int): int
    requires b.Valid() && player != OffBoard && |pair| == 2
  {
    var runA := Run(b, origin, pair[0], player);
    if runA < toWin - 1 then runA else toWin - 1
  }

  /** The list the scan of `pair` produces when it wins: the origin, then
      `Reach` cells along the first direction, then the rest along the
      second direction. */
  ghost function Line(b: Board, toWin: int, origin: Coords, pair: seq<Direction>, player: int): seq<Coords>
    requires b.Valid() && player != OffBoard && |pair| == 2 && toWin >= 1
  {
    var a := Reach(b, toWin, origin, pair, player);
    [origin] + Ray(origin, pair[0], a) + Ray(origin, pair[1], toWin - 1 - a)
  }

  /** The scan of one pair wins exactly when its axis carries a line, and
      it then returns `Line`. */
  lemma ScanPairSpec(b: Board, toWin: int, origin: Coords, pair: seq<Direction>, player: int)
    requires b.Valid() && player != OffBoard && |pair| == 2
    ensures ScanDirs(b, toWin, origin, pair, player, [origin]).0 <==> AxisWins(b, toWin, origin, pair, player)
    ensures ScanDirs(b, toWin, origin, pair, player, [origin]).0 ==>
              ScanDirs(b, toWin, origin, pair, player, [origin]).1 == Line(b, toWin, origin, pair, player)
  {
    var runA, runB := Run(b, origin, pair[0], player), Run(b, origin, pair[1], player);
    var first := Walk(b, toWin, origin, pair[0], player, [origin]);
    WalkSpec(b, toWin, origin, pair[0], player, [origin]);
    if !first.0 {
      assert pair[1..][1..] == [];
      var second := Walk(b, toWin, origin, pair[1], player, first.1);
      WalkSpec(b, toWin, origin, pair[1], player, first.1);
      assert ScanDirs(b, toWin, origin, pair, player, [origin]) == ScanDirs(b, toWin, origin, pair[1..], player, first.1);
      assert ScanDirs(b, toWin, origin, pair[1..], player, first.1) == (if second.0 then second else ScanDirs(b, toWin, origin, [], player, second.1));
      if second.0 {
        assert Ray(origin, pair[1], toWin - 1 - runA) == Ray(origin, pair[1], toWin - |first.1|);
      }
    }
  }

  /** `ScanFrom` finds nothing exactly when no pair's axis carries a line. */
  lemma {:induction false} ScanFromNone(b: Board, toWin: int, origin: Coords, pairs: seq<seq<Direction>>, player: int)
    requires b.Valid() && player != OffBoard
    requires forall p | 0 <= p < |pairs| :: |pairs[p]| == 2
    ensures ScanFrom(b, toWin, origin, pairs, player).None? <==>
              forall p | 0 <= p < |pairs| :: !AxisWins(b, toWin, origin, pairs[p], player)
  {
    if pairs != [] {
      ScanPairSpec(b, toWin, origin, pairs[0], player);
      ScanFromNone(b, toWin, origin, pairs[1..], player);
      assert forall p | 1 <= p < |pairs| :: pairs[p] == pairs[1..][p - 1];
    }
  }

  /** When `ScanFrom` finds a line, it is the line of the first pair whose
      axis carries one; that pair's index is returned. */
  lemma {:induction false} ScanFromFirst(b: Board, toWin: int, origin: Coords, pairs: seq<seq<Direction>>, player: int)
    returns (p: nat)
    requires b.Valid() && player != OffBoard
    requires forall p | 0 <= p < |pairs| :: |pairs[p]| == 2
    requires ScanFrom(b, toWin, origin, pairs, player).Some?
    ensures p < |pairs| && AxisWins(b, toWin, origin, pairs[p], player)
    ensures forall q | 0 <= q < p :: !AxisWins(b, toWin, origin, pairs[q], player)
    ensures ScanFrom(b, toWin, origin, pairs, player).value == Line(b, toWin, origin, pairs[p], player)
  {
    ScanPairSpec(b, toWin, origin, pairs[0], player);
    if AxisWins(b, toWin, origin, pairs[0], player) {
      p := 0;
    } else {
      var p' := ScanFromFirst(b, toWin, origin, pairs[1..], player);
      p := p' + 1;
      assert pairs[p] == pairs[1..][p'];
      forall q | 0 <= q < p
        ensures !AxisWins(b, toWin, origin, pairs[q], player)
      {
        if q > 0 {
          assert pairs[q] == pairs[1..][q - 1];
        }
      }
    }
  }

  /** A win needs a target of at least two cells; below that the scan never
      records anything. */
  lemma NoWinBelowTwo(b: Board, toWin: int, origin: Coords, player: int)
    requires b.Valid() && player != OffBoard && toWin <= 1
    ensures Win(b, toWin, origin, player) == None
  {
    PairsAreAxes();
    ScanFromNone(b, toWin, origin, Pairs(), player);
  }

  /** `c` lies on the line through `o` along `d`, other than at `o`. */
  ghost predicate OnAxis(o: Coords, d: Direction, c: Coords) {
    exists k: int :: k != 0 && c == Offset(o, d, k)
  }

  /** Every entry after the first lies on one axis through the first. */
  ghost predicate Collinear(w: seq<Coords>, d: Direction)
    requires |w| > 0
  {
    forall i | 1 <= i < |w| :: OnAxis(w[0], d, w[i])
  }

  /** No position occurs twice. */
  ghost predicate Distinct(w: seq<Coords>) {
    forall i, j | 0 <= i < j < |w| :: w[i] != w[j]
  }

  /** The entries form one gap-free segment of the axis of `d` through the
      first entry: entries 0..a step outward along `d` one cell at a time,
      and the rest continue from the first entry along the opposite
      direction, one cell at a time. */
  ghost predicate Consecutive(w: seq<Coords>, d: Direction, a: int)
    requires |w| > 0
  {
    0 <= a < |w| && forall i | 0 <= i < |w| :: w[i] == Offset(w[0], d, LineStep(i, a))
  }

  /** In a consecutive line, each entry up to `a` is one step along `d`
      from the one before, the entry after `a` is one step along the
      opposite direction from the first entry, and each later entry is
      one step along the opposite direction from the one before. */
  lemma ConsecutiveSteps(w: seq<Coords>, d: Direction, a: int)
    requires |w| > 0 && Consecutive(w, d, a)
    ensures forall i | 0 <= i < a :: w[i + 1] == w[i].Add(d)
    ensures a + 1 < |w| ==> w[a + 1] == w[0].Add(d.Opposite())
    ensures forall i | a + 1 <= i < |w| - 1 :: w[i + 1] == w[i].Add(d.Opposite())
  {
    forall i | 0 <= i < a
      ensures w[i + 1] == w[i].Add(d)
    {
      OffsetStep(w[0], d, i);
    }
    if a + 1 < |w| {
      OffsetOpposite(w[0], d, 1);
      OffsetBase(w[0], d.Opposite());
    }
    forall i | a + 1 <= i < |w| - 1
      ensures w[i + 1] == w[i].Add(d.Opposite())
    {
      OffsetStep(w[0], d, a - i - 1);
      UnitVector(d);
    }
  }

  /** A recorded winning line on board `b`: `toWin >= 2` distinct cells
      forming one gap-free segment of an axis, all on the board and owned
      by the same player, whose id is not the free-cell marker. */
  ghost predicate IsWinLine(b: Board, toWin: int, w: seq<Coords>)
    requires b.Valid()
  {
    |w| == toWin && toWin >= 2 &&
    (forall i | 0 <= i < |w| :: InBounds(b.size, w[i]) && b.At(w[i]) == b.At(w[0])) &&
    b.At(w[0]) != Empty &&
    (exists d: Direction :: Collinear(w, d)) &&
    (exists d: Direction, a: int :: Consecutive(w, d, a)) &&
    Distinct(w)
  }

  /** The signed number of steps along a pair's first direction at which
      entry `i` of a line lies, when the first `a` entries after the origin
      go along the first direction and the rest along the second. */
  function LineStep(i: int, a: int): int {
    if i <= a then i else a - i
  }

  /** Different entries of a line lie at different step counts. */
  lemma LineStepInjective(i: int, j: int, a: int)
    requires 0 <= i < j
    ensures LineStep(i, a) != LineStep(j, a)
  {
  }

  /** Each entry of `Line` lies `LineStep` steps along the pair's first
      direction: 0 for the origin, positive for the first half, negative
      for the second. */
  lemma LineOffsets(b: Board, toWin: int, origin: Coords, pair: seq<Direction>, player: int)
    requires b.Valid() && player != OffBoard && |pair| == 2 && toWin >= 1
    requires pair[1] == pair[0].Opposite()
    ensures var w := Line(b, toWin, origin, pair, player);
      var a := Reach(b, toWin, origin, pair, player);
      |w| == toWin && 0 <= a <= toWin - 1 &&
      forall i | 0 <= i < |w| :: w[i] == Offset(origin, pair[0], LineStep(i, a))
  {
    var w := Line(b, toWin, origin, pair, player);
    var a := Reach(b, toWin, origin, pair, player);
    OffsetBase(origin, pair[0]);
    forall i | 0 <= i < |w|
      ensures w[i] == Offset(origin, pair[0], LineStep(i, a))
    {
      if a < i {
        assert w[i] == Offset(origin, pair[1], i - a);
        OffsetOpposite(origin, pair[0], i - a);
      }
    }
  }

  /** Every cell of a winning pair's line after the origin holds the
      player and lies on the pair's axis. */
  lemma LineCells(b: Board, toWin: int, origin: Coords, pair: seq<Direction>, player: int)
    requires b.Valid() && player != OffBoard && |pair| == 2 && pair[1] == pair[0].Opposite()
    requires AxisWins(b, toWin, origin, pair, player)
    ensures var w := Line(b, toWin, origin, pair, player);
      |w| == toWin && w[0] == origin &&
      forall i | 1 <= i < |w| :: b.At(w[i]) == player && OnAxis(origin, pair[0], w[i])
  {
    var w := Line(b, toWin, origin, pair, player);
    var a := Reach(b, toWin, origin, pair, player);
    var runA, runB := Run(b, origin, pair[0], player), Run(b, origin, pair[1], player);
    LineOffsets(b, toWin, origin, pair, player);
    forall i | 1 <= i < |w|
      ensures b.At(w[i]) == player && OnAxis(origin, pair[0], w[i])
    {
      OnAxisAt(origin, pair[0], LineStep(i, a));
      if i <= a {
        assert 1 <= i <= runA;
      } else {
        OffsetOpposite(origin, pair[0], i - a);
        assert w[i] == Offset(origin, pair[1], i - a);
        assert 1 <= i - a <= runB;
      }
    }
  }

  lemma OnAxisAt(o: Coords, d: Direction, k: int)
    requires k != 0
    ensures OnAxis(o, d, Offset(o, d, k))
  {
  }

  /** A winning pair's line holds no cell twice. */
  lemma LineDistinct(b: Board, toWin: int, origin: Coords, pair: seq<Direction>, player: int)
    requires b.Valid() && player != OffBoard && |pair| == 2 && pair[1] == pair[0].Opposite()
    requires toWin >= 1
    ensures Distinct(Line(b, toWin, origin, pair, player))
  {
    var w := Line(b, toWin, origin, pair, player);
    var a := Reach(b, toWin, origin, pair, player);
    LineOffsets(b, toWin, origin, pair, player);
    forall i, j | 0 <= i < j < |w|
      ensures w[i] != w[j]
    {
      LineStepInjective(i, j, a);
      OffsetInjective(origin, pair[0], LineStep(i, a), LineStep(j, a));
    }
  }

  /** When a pair wins only with cells on both sides of the origin, the
      line jumps back across the origin: the last cell of the first half is
      `runA` steps out along the first direction and the cell after it is
      one step out along the second, `runA + 1` steps apart. Consecutive
      entries of a recorded line are therefore not always neighbours. */
  lemma LineJumpsBack(b: Board, toWin: int, origin: Coords, pair: seq<Direction>, player: int)
    requires b.Valid() && player != OffBoard && |pair| == 2 && pair[1] == pair[0].Opposite()
    requires AxisWins(b, toWin, origin, pair, player)
    requires 1 <= Run(b, origin, pair[0], player) < toWin - 1
    ensures var w := Line(b, toWin, origin, pair, player);
      var runA := Run(b, origin, pair[0], player);
      w[runA] == Offset(origin, pair[0], runA) &&
      w[runA + 1] == Offset(origin, pair[0], -1) &&
      w[runA + 1] != w[runA].Add(pair[0]) && w[runA + 1] != w[runA].Add(pair[1])
  {
    var runA := Run(b, origin, pair[0], player);
    LineOffsets(b, toWin, origin, pair, player);
    assert LineStep(runA + 1, runA) == -1;
    NotNeighbour(origin, pair[0], runA);
  }

  /** What `lookForWin` records when it finds a line from `origin`: exactly
      `toWin` cells, the placed cell first, every other cell on the board,
      held by the player and on the axis of one direction pair through the
      origin, the whole forming one gap-free segment of that axis, and no
      cell twice. When the origin itself holds the player and
      the player is not the free-cell marker, that is a `IsWinLine`. */
  lemma WinShape(b: Board, toWin: int, origin: Coords, player: int, w: seq<Coords>)
    requires b.Valid() && player != OffBoard
    requires Win(b, toWin, origin, player) == Some(w)
    ensures |w| == toWin >= 2 && w[0] == origin
    ensures forall i | 1 <= i < |w| :: InBounds(b.size, w[i]) && b.At(w[i]) == player
    ensures exists d: Direction :: Collinear(w, d)
    ensures exists d: Direction, a: int :: Consecutive(w, d, a)
    ensures Distinct(w)
    ensures b.At(origin) == player && player != Empty ==> IsWinLine(b, toWin, w)
  {
    var pair := WinPair(b, toWin, origin, player, w);
    LineCells(b, toWin, origin, pair, player);
    LineDistinct(b, toWin, origin, pair, player);
    LineOffsets(b, toWin, origin, pair, player);
    assert Collinear(w, pair[0]);
    assert Consecutive(w, pair[0], Reach(b, toWin, origin, pair, player));
  }

  /** The pair whose line the scan returned. */
  lemma WinPair(b: Board, toWin: int, origin: Coords, player: int, w: seq<Coords>) returns (pair: seq<Direction>)
    requires b.Valid() && player != OffBoard
    requires Win(b, toWin, origin, player) == Some(w)
    ensures |pair| == 2 && pair[1] == pair[0].Opposite()
    ensures AxisWins(b, toWin, origin, pair, player) && w == Line(b, toWin, origin, pair, player)
  {
    var pairs := Pairs();
    PairsAreAxes();
    var p := ScanFromFirst(b, toWin, origin, pairs, player);
    pair := pairs[p];
  }

  /** A recorded line stays a winning line when a free cell is filled:
      its cells are owned, so the filled cell is not one of them. */
  lemma WinLineStable(b: Board, toWin: int, w: seq<Coords>, c: Coords, v: int)
    requires b.Valid() && IsWinLine(b, toWin, w) && b.At(c) == Empty
    ensures IsWinLine(b.Set(c, v), toWin, w)
  {
    forall i | 0 <= i < |w|
      ensures b.Set(c, v).At(w[i]) == b.At(w[i])
    {
      SetAt(b, c, v, w[i]);
    }
  }
}
