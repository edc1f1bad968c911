/** The board of an N-in-a-row game and its win detector, as the class
    `GameGrid` keeps it: a square matrix of integer cells updated in place, a
    counter of successful placements, and the winning line once one is found.

    The identity of the player making a move comes from a turn controller
    outside the grid; here it is the `player` argument of `ToggleCell`, read
    once for the whole call. */
module Grid {
  import opened Geometry
  import opened Boards
  import opened WinScan
  import opened Optional

  class GameGrid {
    const size: int
    const cellsToWin: int
    /** `cells[y, x]` is the cell at column `x` of row `y`. */
    const cells: array2<int>

    var cellsToggled: int
    var winCombination: Option<seq<Coords>>

    /** The matrix is `size` by `size`. */
    ghost predicate Valid() {
      cells.Length0 == size && cells.Length1 == size
    }

    /** The matrix as a board value. */
    ghost function View(): (b: Board)
      reads cells
      requires Valid()
      ensures b.Valid() && b.size == size
      ensures forall y, x | 0 <= y < size && 0 <= x < size :: b.rows[y][x] == cells[y, x]
    {
      Board(size, seq(size, y requires 0 <= y < size reads cells =>
                              seq(size, x requires 0 <= x < size reads cells => cells[y, x])))
    }

    /** What holds from the first `Clear` on, as long as no player id is the
        free-cell marker or the sentinel: no cell holds the sentinel, the
        free cells are exactly those not yet toggled, and a recorded
        combination is a winning line on the current board. */
    ghost predicate Invariant()
      reads this, cells
    {
      Valid() &&
      View().NoSentinel() &&
      View().Count(Empty) == size * size - cellsToggled &&
      (winCombination.Some? ==> IsWinLine(View(), cellsToWin, winCombination.value))
    }

    /** A new grid. Every cell holds 0, the integer array default, and not
        the free-cell marker: until `Clear` runs, every placement is refused. */
    constructor (size: int, cellsToWin: int)
      requires size >= 0
      ensures Valid() && this.size == size && this.cellsToWin == cellsToWin && fresh(cells)
      ensures cellsToggled == 0 && winCombination == None
      ensures View() == Filled(size, 0)
    {
      this.size := size;
      this.cellsToWin := cellsToWin;
      this.cells := new int[size, size]((_, _) => 0);
      cellsToggled := 0;
      winCombination := None;
      new;
      forall y | 0 <= y < size
        ensures View().rows[y] == Filled(size, 0).rows[y]
      {
      }
    }

    /** A new grid whose winning line spans the whole board side. */
    constructor Classic(size: int)
      requires size >= 0
      ensures Valid() && this.size == size && this.cellsToWin == size && fresh(cells)
      ensures cellsToggled == 0 && winCombination == None
      ensures View() == Filled(size, 0)
    {
      this.size := size;
      this.cellsToWin := size;
      this.cells := new int[size, size]((_, _) => 0);
      cellsToggled := 0;
      winCombination := None;
      new;
      forall y | 0 <= y < size
        ensures View().rows[y] == Filled(size, 0).rows[y]
      {
      }
    }

    /** The bounds test: both coordinates within `[0, size)`. */
    function Includes(c: Coords): (r: bool)
      ensures r <==> 0 <= c.x < size && 0 <= c.y < size
    {
      InBounds(size, c)
    }

    /** The cell at `c`, or the sentinel `OffBoard` when `c` is outside the board. */
    function GetCell(c: Coords): (r: int)
      reads cells
      requires Valid()
      ensures r == View().At(c)
    {
      if Includes(c) then cells[c.y, c.x] else OffBoard
    }

    /** The number of cells of the matrix. */
    function GetCellsCount(): (r: int)
      requires Valid()
      ensures r == cells.Length0 * cells.Length1
    {
      size * size
    }

    /** The side of the matrix. */
    function GetRank(): (r: int)
      requires Valid()
      ensures r == cells.Length0 == cells.Length1
    {
      size
    }

    /** The recorded line, if any; under `Invariant` it is a winning line of
        the current board (see `RecordedLine`). */
    function GetWinCombination(): (r: Option<seq<Coords>>)
      reads this
      ensures r.Some? <==> CheckWin()
    {
      winCombination
    }

    /** Whether a line has been recorded. */
    function CheckWin(): (r: bool)
      reads this
      ensures r <==> winCombination != None
    {
      winCombination.Some?
    }

    /** Whether the game is over: a line is recorded or every cell was
        toggled (see `ClosedMeansEnded` for its meaning on the board). */
    function IsClosed(): (r: bool)
      reads this
      ensures r <==> CheckWin() || cellsToggled == size * size
    {
      winCombination.Some? || cellsToggled == size * size
    }

    /** Writes `value` into the cell at `c` when `c` is on the board. */
    method SetCell(c: Coords, value: int)
      requires Valid()
      modifies cells
      ensures View() == old(View()).Set(c, value)
    {
      ghost var before := View();
      if Includes(c) {
        cells[c.y, c.x] := value;
      }
      ghost var after := before.Set(c, value);
      forall y | 0 <= y < size
        ensures View().rows[y] == after.rows[y]
      {
      }
      assert View().rows == after.rows;
    }

    /** Places a mark of `player` at `c` if that cell is free. A refused move
        changes nothing. A placement writes that one cell and counts it; the
        board is scanned from `c` only once more cells have been toggled than
        `cellsToWin`, and the combination is replaced only when the scan finds
        one. */
    method ToggleCell(c: Coords, player: int) returns (ok: bool)
      requires Valid() && player != OffBoard
      modifies this, cells
      ensures ok <==> old(GetCell(c)) == Empty
      ensures !ok ==> View() == old(View()) && cellsToggled == old(cellsToggled) && winCombination == old(winCombination)
      ensures ok ==> Includes(c) && View() == old(View()).Set(c, player) && cellsToggled == old(cellsToggled) + 1
      ensures ok ==> GetCell(c) == player && forall c' | c' != c :: GetCell(c') == old(GetCell(c'))
      ensures ok && cellsToggled <= cellsToWin ==> winCombination == old(winCombination)
      ensures ok && cellsToggled > cellsToWin ==>
                winCombination == (if Win(View(), cellsToWin, c, player).Some?
                                   then Win(View(), cellsToWin, c, player) else old(winCombination))
      ensures old(Invariant()) && player != Empty ==> Invariant()
    {
      ghost var before := View();
      if GetCell(c) != Empty {
        return false;
      }
      SetCell(c, player);
      cellsToggled := cellsToggled + 1;
      forall c' | c' != c
        ensures GetCell(c') == before.At(c')
      {
        SetAt(before, c, player, c');
      }
      SetAt(before, c, player, c);
      if old(Invariant()) && player != Empty {
        CountSet(before, c, player, Empty);
        SetKeepsNoSentinel(before, c, player);
        if winCombination.Some? {
          WinLineStable(before, cellsToWin, winCombination.value, c, player);
        }
      }
      if cellsToggled <= cellsToWin {
        return true;
      }
      LookForWin(c, player);
      if old(Invariant()) && player != Empty && winCombination != old(winCombination) {
        WinShape(View(), cellsToWin, c, player, winCombination.value);
      }
      return true;
    }

    /** Empties every cell and forgets the count and the combination. */
    method Clear()
      requires Valid()
      modifies this, cells
      ensures cellsToggled == 0 && winCombination == None
      ensures View() == Filled(size, Empty)
      ensures Invariant()
    {
      cellsToggled := 0;
      winCombination := None;
      for y := 0 to size
        modifies cells
        invariant forall i, j | 0 <= i < y && 0 <= j < size :: cells[i, j] == Empty
      {
        for x := 0 to size
          modifies cells
          invariant forall i, j | 0 <= i < y && 0 <= j < size :: cells[i, j] == Empty
          invariant forall j | 0 <= j < x :: cells[y, j] == Empty
        {
          cells[y, x] := Empty;
        }
      }
      forall y | 0 <= y < size
        ensures View().rows[y] == Filled(size, Empty).rows[y]
      {
      }
      CountFilled(size, Empty);
    }

    /** Tries every direction pair from `coords` with a fresh list holding
        `coords`, and records the first list that reaches `cellsToWin`. */
    method LookForWin(coords: Coords, player: int)
      requires Valid() && player != OffBoard
      modifies this`winCombination
      ensures winCombination == (if Win(View(), cellsToWin, coords, player).Some?
                                 then Win(View(), cellsToWin, coords, player) else old(winCombination))
    {
      var cellsList: seq<Coords> := [];
      var pairs := Pairs();
      PairsAreAxes();
      for p := 0 to |pairs|
        invariant cellsList == [] && winCombination == old(winCombination)
        invariant ScanFrom(View(), cellsToWin, coords, pairs[p..], player) == Win(View(), cellsToWin, coords, player)
      {
        var dirs := pairs[p];
        assert pairs[p..][0] == dirs && pairs[p..][1..] == pairs[p + 1..];
        cellsList := cellsList + [coords];
        assert dirs[0..] == dirs && cellsList == [coords];
        for i := 0 to 2
          invariant winCombination == old(winCombination)
          invariant ScanDirs(View(), cellsToWin, coords, dirs[i..], player, cellsList) ==
                    ScanDirs(View(), cellsToWin, coords, dirs, player, [coords])
        {
          var found;
          assert dirs[i..][0] == dirs[i] && dirs[i..][1..] == dirs[i + 1..];
          found, cellsList := CollectCellsInDirection(cellsList, dirs[i], coords, player);
          if found {
            winCombination := Some(cellsList);
            return;
          }
        }
        cellsList := [];
      }
    }

    /** Walks outward from `coords` along `dir`, appending each cell that
        holds `player`; answers true the moment the list has `cellsToWin`
        cells and false at the first cell, on or off the board, that does not
        hold `player`. */
    method CollectCellsInDirection(list: seq<Coords>, dir: Direction, coords: Coords, player: int)
      returns (found: bool, cells': seq<Coords>)
      requires Valid() && player != OffBoard
      ensures (found, cells') == Walk(View(), cellsToWin, coords, dir, player, list)
    {
      var cur := coords;
      cells' := list;
      while true
        invariant Walk(View(), cellsToWin, cur, dir, player, cells') == Walk(View(), cellsToWin, coords, dir, player, list)
        decreases Room(size, cur, dir)
      {
        var next := cur.Add(dir);
        if GetCell(next) != player {
          return false, cells';
        }
        RoomShrinks(size, cur, dir);
        cur := next;
        cells' := cells' + [cur];
        if |cells'| == cellsToWin {
          return true, cells';
        }
      }
    }

    /** Under the grid invariant, a recorded line is a winning line of the
        current board. */
    lemma RecordedLine()
      requires Invariant()
      ensures GetWinCombination().Some? ==> IsWinLine(View(), cellsToWin, GetWinCombination().value)
    {
    }

    /** The game is over exactly when a line was found or no free cell is
        left. */
    lemma ClosedMeansEnded()
      requires Invariant()
      ensures IsClosed() <==> CheckWin() || forall c | Includes(c) :: GetCell(c) != Empty
    {
      CountZero(View(), Empty);
      forall c
        ensures GetCell(c) == View().At(c) && (Includes(c) <==> InBounds(View().size, c))
      {
      }
    }
  }
}
