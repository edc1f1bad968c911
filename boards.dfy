/** The cell matrix of a grid as a value: `rows[y][x]` is the cell at
    column `x` of row `y`, as the grid indexes its array. Cells hold plain
    integers: `Empty` (2) is the free-cell marker that `clear` writes, any
    other value is a player id, and `OffBoard` (-1) is what a read outside the
    board returns. */
module Boards {
  import opened Geometry

  /** The marker of a free cell. */
  const Empty: int := 2

  /** What reading a position outside the board yields. */
  const OffBoard: int := -1

  /** The bounds test of the grid: both coordinates in `[0, n)`. */
  predicate InBounds(n: int, c: Coords) {
    c.x >= 0 && c.y >= 0 && c.x < n && c.y < n
  }

  datatype Board = Board(size: int, rows: seq<seq<int>>)
  {
    /** `size` rows of `size` cells each. */
    ghost predicate Valid() {
      |rows| == size && forall y | 0 <= y < size :: |rows[y]| == size
    }

    /** The cell at `c`, or `OffBoard` when `c` is outside the board. */
    function At(c: Coords): int
      requires Valid()
    {
      if InBounds(size, c) then rows[c.y][c.x] else OffBoard
    }

    /** The board with the cell at `c` set to `v`; a position outside the
        board leaves it as it is. */
    function Set(c: Coords, v: int): (r: Board)
      requires Valid()
      ensures r.Valid() && r.size == size
    {
      if InBounds(size, c) then Board(size, rows[c.y := rows[c.y][c.x := v]]) else this
    }

    /** How many cells hold `v`. */
    function Count(v: int): nat {
      CountRows(rows, v)
    }

    /** No cell on the board holds the off-board sentinel. */
    ghost predicate NoSentinel()
      requires Valid()
    {
      forall c | InBounds(size, c) :: At(c) != OffBoard
    }
  }

  function CountRows(rows: seq<seq<int>>, v: int): nat {
    if rows == [] then 0 else multiset(rows[0])[v] + CountRows(rows[1..], v)
  }

  /** The `n` by `n` board with every cell equal to `v`. */
  function Filled(n: nat, v: int): (b: Board)
    ensures b.Valid() && b.size == n
  {
    Board(n, seq(n, _ => seq(n, _ => v)))
  }

  /** A filled board reads `v` on the board and the sentinel off it. */
  lemma FilledAt(n: nat, v: int, c: Coords)
    ensures Filled(n, v).At(c) == if InBounds(n, c) then v else OffBoard
  {
  }

  /** On a board of zeros, which is what a new grid holds, no position
      reads as free, so every placement is refused. */
  lemma ZerosRefuse(n: nat, c: Coords)
    ensures Filled(n, 0).At(c) != Empty
  {
    FilledAt(n, 0, c);
  }

  /** Only the cell that was set changes, and only when it is on the board. */
  lemma SetAt(b: Board, c: Coords, v: int, c': Coords)
    requires b.Valid()
    ensures b.Set(c, v).At(c') == if c' == c && InBounds(b.size, c) then v else b.At(c')
  {
  }

  /** The sentinel is read exactly off the board, once no cell holds it; it
      is never the free-cell marker. */
  lemma AtSentinel(b: Board, c: Coords)
    requires b.Valid()
    ensures !InBounds(b.size, c) ==> b.At(c) == OffBoard && b.At(c) != Empty
    ensures b.NoSentinel() ==> (b.At(c) == OffBoard <==> !InBounds(b.size, c))
  {
  }

  /** Setting a cell on the board to a value that is not the sentinel
      keeps the board free of sentinels. */
  lemma SetKeepsNoSentinel(b: Board, c: Coords, v: int)
    requires b.Valid() && b.NoSentinel() && v != OffBoard
    ensures b.Set(c, v).NoSentinel()
  {
    forall c' | InBounds(b.size, c')
      ensures b.Set(c, v).At(c') != OffBoard
    {
      SetAt(b, c, v, c');
    }
  }

  lemma {:induction false} CountRowsUpdate(rows: seq<seq<int>>, y: nat, row: seq<int>, v: int)
    requires y < |rows|
    ensures CountRows(rows[y := row], v) == CountRows(rows, v) - multiset(rows[y])[v] + multiset(row)[v]
  {
    if y == 0 {
      assert rows[y := row][1..] == rows[1..];
    } else {
      assert rows[y := row][1..] == rows[1..][y - 1 := row];
      CountRowsUpdate(rows[1..], y - 1, row, v);
    }
  }

  /** Setting one cell on the board moves one unit of the count from its
      old value to its new value. */
  lemma CountSet(b: Board, c: Coords, v: int, u: int)
    requires b.Valid() && InBounds(b.size, c)
    ensures b.Set(c, v).Count(u) == b.Count(u) - (if b.At(c) == u then 1 else 0) + (if v == u then 1 else 0)
  {
    var row := b.rows[c.y];
    CountRowsUpdate(b.rows, c.y, row[c.x := v], u);
    assert multiset(row[c.x := v]) == multiset(row) - multiset{row[c.x]} + multiset{v};
  }

  lemma {:induction false} CountRowsZero(rows: seq<seq<int>>, v: int)
    ensures CountRows(rows, v) == 0 <==> forall y, x | 0 <= y < |rows| && 0 <= x < |rows[y]| :: rows[y][x] != v
  {
    if rows != [] {
      CountRowsZero(rows[1..], v);
      if multiset(rows[0])[v] == 0 {
        assert forall x | 0 <= x < |rows[0]| :: rows[0][x] != v;
      } else {
        assert v in rows[0];
      }
      assert forall y | 1 <= y < |rows| :: rows[y] == rows[1..][y - 1];
    }
  }

  /** No cell holds `v` exactly when `v` occurs zero times. */
  lemma CountZero(b: Board, v: int)
    requires b.Valid()
    ensures b.Count(v) == 0 <==> forall c | InBounds(b.size, c) :: b.At(c) != v
  {
    CountRowsZero(b.rows, v);
    if b.Count(v) != 0 {
      var y, x :| 0 <= y < |b.rows| && 0 <= x < |b.rows[y]| && b.rows[y][x] == v;
      assert b.At(Coords(x, y)) == v;
    }
  }

  lemma {:induction false} CountRow(n: nat, v: int)
    ensures multiset(seq(n, _ => v))[v] == n
  {
    if n > 0 {
      CountRow(n - 1, v);
      assert seq(n, _ => v) == seq(n - 1, _ => v) + [v];
    }
  }

  lemma {:induction false} CountRowsFilled(k: nat, n: nat, v: int)
    ensures CountRows(seq(k, _ => seq(n, _ => v)), v) == k * n
  {
    if k > 0 {
      CountRow(n, v);
      CountRowsFilled(k - 1, n, v);
      assert seq(k, _ => seq(n, _ => v))[1..] == seq(k - 1, _ => seq(n, _ => v));
      assert k * n == n + (k - 1) * n;
    }
  }

  /** A board filled with `v` holds `v` in all `n * n` cells. */
  lemma CountFilled(n: nat, v: int)
    ensures Filled(n, v).Count(v) == n * n
  {
    CountRowsFilled(n, n, v);
  }
}
