# GameGrid: the board and win detector of an N-in-a-row game

This project models the class `GameGrid` of the game "ox" (noughts and
crosses, generalised). A grid is a `size` by `size` matrix of integer
cells, updated in place:
- 2 marks a free cell;
- -1 is what a read outside the board returns;
- any other value is a player id.

A placement (`toggleCell`) writes the current player's id into a free
cell and counts it. Once more cells have been toggled than `cellsToWin`,
it scans outward from the placed cell along the four axes. It records the
first list of `cellsToWin` positions of that player it finds.

The model has four modules:
- `Geometry`: positions and the eight unit directions. Also the four opposite direction pairs the scan tries, as `Offset`, `Ray` and `Pairs`.
- `Boards`: the cell matrix as a value (`Board`): bounds, the sentinel read, single-cell update, and cell counts.
- `WinScan`: the win scan as functions of a board. `Walk` is one `collectCellsInDirection` call, `ScanDirs` one direction pair and `ScanFrom`/`Win` the whole `lookForWin`. `Run`, the number of consecutive cells of a player along a direction, is an independent reference, and the lemmas characterise the scan through it.
- `Grid`: the class `GameGrid`, with the matrix an `array2<int>` and the counter and the recorded line as mutable fields. Each method is proved against the `WinScan` and `Boards` functions. `View()` is the array read as a `Board`. `Invariant()` is the state kept from the first `clear` on.

The player whose turn it is comes from a turn controller outside the
grid. Here it is the `player` argument of `ToggleCell`, fixed for the
whole call.

Where an idealised reading of the game would differ, the model follows the code:
- A new grid holds 0 in every cell, the Java array default, not the free-cell marker. Every placement is refused until `clear` runs (`Grid.GameGrid.constructor`, `Boards.ZerosRefuse`).
- A recorded line is not protected. A later placement that passes the gate and finds a line replaces it (`Grid.GameGrid.ToggleCell`).
- Consecutive entries of a recorded line are not always neighbours. The list holds the origin, then the cells along the first direction, then the cells along the second (`WinScan.LineJumpsBack`).
- The scan gate is kept as written: no scan while the counter, after the increment, is at most `cellsToWin`.
- The walk is not bounded by `cellsToWin` steps. It stops at the first cell, on or off the board, that does not hold the player, or when the list is full.

## Model

| member | source | states |
|---|---|---|
| Boards.AtSentinel | src/composite/ox/game/grid/GameGrid.java:27-29 | A read outside the board yields -1, which is never the free-cell marker. Once no cell holds -1, a read yields -1 exactly when the position is outside the board. |
| Grid.GameGrid.GetCell | src/composite/ox/game/grid/GameGrid.java:27-29 | The cell read is the board view's `At`: the array entry at row `y`, column `x` when the position is within bounds, and -1 otherwise. |
| Grid.GameGrid.GetCellsCount | src/composite/ox/game/grid/GameGrid.java:31-33 | The cell count equals the number of entries of the allocated matrix. |
| Grid.GameGrid.GetRank | src/composite/ox/game/grid/GameGrid.java:35-37 | The rank equals both dimensions of the allocated matrix. |
| Grid.GameGrid.constructor | src/composite/ox/game/grid/GameGrid.java:16-21 | A new grid has a fresh `size` by `size` matrix of zeros, counter 0 and no recorded line. |
| Grid.GameGrid.Classic | src/composite/ox/game/grid/GameGrid.java:23-25 | The two-argument form is the general one with `cellsToWin == size`. |
| Boards.ZerosRefuse | src/composite/ox/game/grid/GameGrid.java:18 | On the zero matrix a new grid holds, no position reads as free, so `toggleCell` refuses every move until `clear`. |
| Grid.GameGrid.SetCell | src/composite/ox/game/grid/GameGrid.java:82-85 | The new board is the old one with the cell at `c` set, and unchanged when `c` is off the board. |
| Boards.SetAt | src/composite/ox/game/grid/GameGrid.java:82-85 | After a set, only the cell at an in-bounds `c` reads the new value; every other position reads what it read before. |
| Grid.GameGrid.ToggleCell | src/composite/ox/game/grid/GameGrid.java:39-51 | The move succeeds exactly when the cell read free. A refused move changes nothing. A successful one is on the board, writes the player into that cell only and adds 1 to the counter. The recorded line is unchanged while the counter is at most `cellsToWin`; otherwise it becomes the scan's result if the scan finds one, and stays as it was if not. With a player id other than 2, the grid invariant is preserved. |
| Grid.GameGrid.Clear | src/composite/ox/game/grid/GameGrid.java:53-62 | Afterwards the counter is 0, there is no recorded line, every cell holds 2, and the grid invariant holds. |
| Boards.CountFilled | src/composite/ox/game/grid/GameGrid.java:57-61 | A board filled with one value holds it in all `size * size` cells, so after `clear` the free count is `size * size`. |
| Boards.CountSet | src/composite/ox/game/grid/GameGrid.java:43-44 | Setting one cell moves one unit of the count from its old value to its new value; filling a free cell lowers the free count by exactly 1. |
| Boards.CountZero | src/composite/ox/game/grid/GameGrid.java:76-77 | A value occurs zero times exactly when no in-bounds cell holds it. |
| Grid.GameGrid.Includes | src/composite/ox/game/grid/GameGrid.java:64-66 | A position is included exactly when both coordinates lie in `[0, size)`. This is the `InBounds` test that `AtSentinel` ties to the -1 read. |
| Grid.GameGrid.GetWinCombination | src/composite/ox/game/grid/GameGrid.java:68-70 | A line is returned exactly when `CheckWin` holds. `RecordedLine` and `WinShape` state that it is `cellsToWin` owned cells in a row along one axis. |
| Grid.GameGrid.CheckWin | src/composite/ox/game/grid/GameGrid.java:72-74 | Holds exactly when a line is recorded. |
| Grid.GameGrid.IsClosed | src/composite/ox/game/grid/GameGrid.java:76-78 | Holds exactly when a line is recorded or the counter equals `size * size`; `ClosedMeansEnded` restates this on the board. |
| Grid.GameGrid.RecordedLine | src/composite/ox/game/grid/GameGrid.java:68-70 | Under the grid invariant, a returned line is an `IsWinLine`: `cellsToWin >= 2` distinct, in-bounds cells owned by one player other than 2. They form one gap-free segment of an axis (`Consecutive`): the origin, then cells one step apart along one direction, then cells one step apart along the opposite direction. |
| Grid.GameGrid.ClosedMeansEnded | src/composite/ox/game/grid/GameGrid.java:72-78 | Under the grid invariant, the game is closed exactly when a line is recorded or no in-bounds cell is free. |
| Grid.GameGrid.LookForWin | src/composite/ox/game/grid/GameGrid.java:90-106 | The recorded line becomes `Win` of the current board when that finds a line and stays unchanged otherwise. Each pair is scanned with a list that starts as just the origin. |
| Grid.GameGrid.CollectCellsInDirection | src/composite/ox/game/grid/GameGrid.java:111-124 | The flag and the list are exactly `Walk` of the board. The loop terminates because every step onto the board leaves less room to the edge. |
| WinScan.RoomShrinks | src/composite/ox/game/grid/GameGrid.java:113-117 | A step that lands on the board strictly decreases the non-negative distance to the edge along the direction. |
| WinScan.Run | src/composite/ox/game/grid/GameGrid.java:113-119 | The run length `r` counts positions 1..r along the direction that all hold the player, and position r+1 does not. |
| WinScan.RunWithinBoard | src/composite/ox/game/grid/GameGrid.java:113-117 | A run is never longer than the board's side. |
| WinScan.WalkSpec | src/composite/ox/game/grid/GameGrid.java:111-124 | A walk answers true exactly when the run is long enough to bring the list from below `cellsToWin` up to `cellsToWin`. The list is then the input with the next `cellsToWin - |list|` positions appended; otherwise the whole run is appended. |
| WinScan.ScanPairSpec | src/composite/ox/game/grid/GameGrid.java:94-102 | The scan of one pair finds a line exactly when `2 <= cellsToWin <= 1 + run along the first direction + run along the second`, and it then returns `Line`. |
| WinScan.ScanFromNone | src/composite/ox/game/grid/GameGrid.java:90-106 | The scan over the pairs finds nothing exactly when no pair's axis carries a line. |
| WinScan.ScanFromFirst | src/composite/ox/game/grid/GameGrid.java:90-106 | When the scan finds a line, it is `Line` of the first pair whose axis carries one, and no earlier pair carries one. |
| WinScan.NoWinBelowTwo | src/composite/ox/game/grid/GameGrid.java:119-121 | With `cellsToWin <= 1` the scan never finds a line, because the list starts at length 1 and is compared only after an append. |
| WinScan.LineOffsets | src/composite/ox/game/grid/GameGrid.java:95-101 | Entry `i` of a line lies `i` steps along the first direction for `i <= Reach`, and `i - Reach` steps along the second otherwise. |
| WinScan.LineCells | src/composite/ox/game/grid/GameGrid.java:95-101 | A winning pair's line has `cellsToWin` entries, starts at the origin, and every later entry holds the player and lies on the pair's axis. |
| WinScan.LineDistinct | src/composite/ox/game/grid/GameGrid.java:95-101 | A line never holds the same position twice. |
| WinScan.LineJumpsBack | src/composite/ox/game/grid/GameGrid.java:95-101 | When a win straddles the origin, the entry after the last first-direction cell is one step along the second direction, and it is a neighbour of neither side of the entry before it. |
| WinScan.ConsecutiveSteps | src/composite/ox/game/grid/GameGrid.java:95-101 | In a `Consecutive` line, each entry of the first half is one step along the first direction from the one before. The entry after it is one step along the opposite direction from the origin, and each later entry is one further step along the opposite direction. |
| WinScan.WinShape | src/composite/ox/game/grid/GameGrid.java:90-123 | A recorded line has exactly `cellsToWin >= 2` entries, starts at the placed position, and its other entries are in bounds, hold the player and lie on one axis through the start. Taken together, its entries form one gap-free segment of that axis (`Consecutive`). It holds no position twice, and is an `IsWinLine` when the placed cell holds a player other than 2. |
| WinScan.WinLineStable | src/composite/ox/game/grid/GameGrid.java:39-50 | A recorded winning line stays a winning line when a free cell is filled. |
| Geometry.PairsAreAxes | src/composite/ox/game/grid/GameGrid.java:94 | The pair list has four entries. Each is a direction and its opposite, and together they mention all eight directions. |

## Left out

- `GameController` is not part of this model. The Java code asks it for the current player at each placement and at every step of the walk. The model takes the player as one value, the `player` argument, fixed for the whole call.
- `Coords` and `Direction` are not part of this model. `Geometry` defines stand-ins with the usual compass vectors. The order of `Pairs()` is a stand-in too, and `ScanFromFirst` is stated for any list of opposite pairs.
- Grid.GameGrid.ToggleCell: requires `player != -1`. With -1 as the current player, every read off the board matches. The walk would then run on past the edge and stop only if the list happens to reach `cellsToWin` exactly.
- Grid.GameGrid.LookForWin: requires the same `player != -1`, for the same reason.
- Grid.GameGrid.CollectCellsInDirection: requires the same `player != -1`, for the same reason.
- Grid.GameGrid.constructor: requires `size >= 0` (Java throws on a negative array size), and so does `Grid.GameGrid.Classic`.
- 32-bit `int` overflow (of `size * size`, the counter and coordinates) is not modelled; integers are unbounded.
- The recorded list is a value (`seq<Coords>`). The Java code stores the scan's own `ArrayList` object, and later calls never touch that object again. Its sharing has no effect on any of the grid's own methods. A caller of `getWinCombination` receives the live list and could change it; that is not modelled.
- Only the state from the first `clear` on satisfies `Invariant`. A grid that was never cleared reads 0 everywhere, and its counter stays 0 because every move is refused.
