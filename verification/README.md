# Minesweeper rules engine in Dafny

This project models the rules engine of an Android Minesweeper game: the
`MinesweeperGame` class and its `Cell` record. It proves what that engine
promises. The model covers:

- board setup: an empty grid, mines placed by rejection sampling, and
  neighbour-mine counts;
- `revealCell`, including first-move safety (the board is rebuilt around the
  first click) and the recursive flood fill from a cell with no neighbouring
  mine;
- the queries `checkWin`, `isGameOver` and `getCell`;
- flagging. The board is private, and the only route from outside to a cell
  is the reference `getCell` returns; `Minesweeper.SetFlaggedAt` models a
  caller invoking `setFlagged` on that reference.

The model is functional. A board is a `seq<seq<Cell>>`, and a game is an
immutable value holding the same fields as the Java object. Every mutating
method becomes a function from the old game to the new one.

`java.util.Random` becomes an explicit, finite sequence of `(row, col)`
draws. Each placement loop consumes draws from the front. A result is
`Drawn(value, rest)`, or `Exhausted` when the draws run out before the loop
finishes. `Exhausted` stands for the Java loop that keeps drawing forever when
too few cells are free.

Modules:

| module | file | models |
|---|---|---|
| `Cells` | cell.dfy | `Cell`: four fields (which double as the getters), default constructor, setters |
| `Draws` | draws.dfy | the random source as a sequence of positions |
| `Grids` | grid.dfy | the board, positions on it, and one generic cell count (`Count(b, filter)`) with its algebra |
| `Neighbors` | neighbors.dfy | the 3x3 neighbourhood scan and `calculateNeighbors` |
| `Placement` | placement.dfy | `initBoard`, `placeBombs`, `regenerateBoardWithout` |
| `Flood` | flood.dfy | `floodReveal` |
| `Minesweeper` | game.dfy | the constructor, `revealCell`, `checkWin`, `getCell`, `isGameOver`, flagging |
| `GameProperties` | properties.dfy | properties that span several calls |

These are the central definitions:

- `Minesweeper.Valid(g)` is the invariant that holds between calls:
  - the board is `rows x cols`;
  - exactly `bombs` cells are mines;
  - `revealedCells` equals the number of uncovered cells;
  - every safe cell holds the true count of adjacent mines;
  - `gameOver` holds exactly when an uncovered cell is a mine;
  - nothing is uncovered before the first move.
- `Neighbors.NeighborMines` is the scan the Java code performs: offsets in
  row-major order, with the centre skipped. `Count(b, MineNear(r, c))` is an
  independent definition, the number of mines on cells adjacent to `(r, c)`.
  The two are proved equal.
- `Flood.FloodFrom(b, r, c, k)` is the flood-fill loop from neighbour offset
  `k` onwards. Its termination measure is the number of hidden cells on the
  board, paired with `9 - k`. Call a set of positions *closed* when it holds
  every hidden, unflagged, safe neighbour of each of its zero cells.
  `Flood.FloodCloses` shows the cells a reveal uncovers form a closed set, and
  `Flood.FloodStaysIn` shows they lie inside every closed set that holds the
  clicked cell. Together these say the reveal uncovers exactly the least
  closed set around the clicked cell.

Three facts about the code shape the model:

- **The first-move loop runs at most once.** `regenerateBoardWithout` keeps
  every mine out of the 3x3 block around the clicked cell and then recounts
  the neighbours, so the clicked cell is always a zero cell afterwards. The
  `while` loop of `revealCell` therefore runs its body at most once.
  `Minesweeper.Settle` models the loop and proves this: its result is either
  the old board or exactly one `Regenerate`.
- **Flags are set unconditionally.** The engine has no flag method of its own.
  `Cell.setFlagged` sets the flag whatever the cell's state, an uncovered cell
  included. `Minesweeper.SetFlaggedAt` models a caller invoking it on the
  reference `getCell` returns. "No cell is both uncovered and flagged" is
  therefore not part of `Valid`. What is proved is that `revealCell`
  preserves it (`GameProperties.RevealKeepsFlagsOnHidden`).
- **A rebuild clears flags.** A rebuild resets every cell, flags included.

## Model

| member | source | states |
|---|---|---|
| Cells.NewCell | app/src/main/java/com/example/minesweeper/Cell.java:25-31 | a new cell is not a mine, not uncovered, not flagged, and records 0 neighbouring mines |
| Cells.SetBomb | app/src/main/java/com/example/minesweeper/Cell.java:43-50 | the mine flag reads back as the value given; the other three fields are unchanged |
| Cells.SetRevealed | app/src/main/java/com/example/minesweeper/Cell.java:62-65 | the uncovered flag reads back as the value given; the other three fields are unchanged |
| Cells.SetFlagged | app/src/main/java/com/example/minesweeper/Cell.java:77-80 | the player flag reads back as the value given; the other three fields are unchanged |
| Cells.SetNeighborBombs | app/src/main/java/com/example/minesweeper/Cell.java:92-95 | the stored count reads back as the value given; the other three fields are unchanged |
| Cells.FlagThenUnflag | app/src/main/java/com/example/minesweeper/Cell.java:77-80 | flagging and then unflagging restores the cell exactly when it was unflagged to begin with |
| Placement.InitBoard | app/src/main/java/com/example/minesweeper/MinesweeperGame.java:44-51 | a rows x cols board of default cells, with no mine, no uncovered cell and no flag |
| Placement.PlaceFrom | app/src/main/java/com/example/minesweeper/MinesweeperGame.java:54-68 | rejection sampling: it adds exactly `want` mines, each on a cell outside the excluded zone that had none; it changes no other field; it consumes a prefix of the draws |
| Placement.PlaceBombs | app/src/main/java/com/example/minesweeper/MinesweeperGame.java:54-68 | placeBombs adds exactly `bombs` mines to the board and changes nothing else |
| Placement.Regenerate | app/src/main/java/com/example/minesweeper/MinesweeperGame.java:178-210 | after a rebuild there are exactly `bombs` mines and none in the 3x3 block around the safe cell; every cell is hidden and unflagged; every count is correct; the safe cell is a zero cell |
| Placement.PlaceFromUsesDraws | app/src/main/java/com/example/minesweeper/MinesweeperGame.java:58-66 | the mines added are exactly the distinct accepted positions (on the board, outside the zone, not yet a mine) among the draws consumed, and there are `want` of them |
| Placement.PlaceBombsUsesDraws | app/src/main/java/com/example/minesweeper/MinesweeperGame.java:54-68 | on the empty board, the mines are exactly the distinct positions among the draws consumed, `bombs` of them |
| Placement.RegenerateUsesDraws | app/src/main/java/com/example/minesweeper/MinesweeperGame.java:191-206 | after a rebuild, the mines are exactly the distinct positions outside the 3x3 block around the safe cell among the draws consumed, `bombs` of them |
| Placement.PlaceFromSucceeds | app/src/main/java/com/example/minesweeper/MinesweeperGame.java:58-66 | the rejection-sampling loop ends exactly when the draws hold at least `want` distinct positions it accepts (on the board, outside the zone, not yet a mine) |
| Placement.PlaceBombsSucceeds | app/src/main/java/com/example/minesweeper/MinesweeperGame.java:54-68 | placeBombs on the empty board ends exactly when the draws hold `bombs` distinct positions |
| Placement.RegenerateSucceeds | app/src/main/java/com/example/minesweeper/MinesweeperGame.java:191-206 | a rebuild ends exactly when the draws hold `bombs` distinct positions outside the 3x3 block around the safe cell |
| Placement.PlaceFromNeedsRoom | app/src/main/java/com/example/minesweeper/MinesweeperGame.java:195-206 | with more mines wanted than cells outside the zone, the loop never ends, whatever the draws |
| Placement.RegenerateNeedsRoom | app/src/main/java/com/example/minesweeper/MinesweeperGame.java:178-210 | with more mines than cells outside the 3x3 block, a rebuild never ends |
| Neighbors.CalculateNeighbors | app/src/main/java/com/example/minesweeper/MinesweeperGame.java:71-102 | mines stay where they are; mine cells are untouched; uncovered and flagged fields are unchanged; every safe cell holds its true neighbour count |
| Neighbors.NeighborMinesIsAdjacentCount | app/src/main/java/com/example/minesweeper/MinesweeperGame.java:79-98 | the offset scan counts exactly the mines on cells adjacent to (r, c), so a stored count is between 0 and 8 |
| Flood.FloodFrom | app/src/main/java/com/example/minesweeper/MinesweeperGame.java:145-173 | the flood uncovers only hidden, unflagged, safe cells and changes no other field; the number it adds to the counter equals the number of cells it uncovered; the number of hidden cells bounds its recursion depth |
| Flood.FloodReveal | app/src/main/java/com/example/minesweeper/MinesweeperGame.java:145-173 | a flood uncovers only safe, unflagged cells, and no more cells than were hidden |
| Flood.FloodCloses | app/src/main/java/com/example/minesweeper/MinesweeperGame.java:145-173 | the flood leaves no gap: every scanned neighbour, and every neighbour of every zero cell it uncovered, ends up uncovered unless it is flagged or a mine |
| Flood.FloodStaysIn | app/src/main/java/com/example/minesweeper/MinesweeperGame.java:145-173 | the flood uncovers nothing outside any set that holds the openable neighbours still to be scanned and the openable neighbours of each of its zero cells |
| Minesweeper.NewGame | app/src/main/java/com/example/minesweeper/MinesweeperGame.java:29-41 | a new game satisfies the invariant, has the given dimensions and mine count, counter 0, is not over, is awaiting its first move, and has nothing uncovered or flagged |
| Minesweeper.Settle | app/src/main/java/com/example/minesweeper/MinesweeperGame.java:114-121 | the first-move loop ends with the clicked cell a zero cell; the loop body runs at most once |
| Minesweeper.RevealCell | app/src/main/java/com/example/minesweeper/MinesweeperGame.java:108-139 | a revealed or flagged cell is ignored and the answer is safe; otherwise the first move is used up and the cell is uncovered; the answer is safe exactly when the cell is no mine; a mine ends the game; a first move is always safe and lands on a zero cell; later moves consume no draws and move no mine |
| Minesweeper.Uncover | app/src/main/java/com/example/minesweeper/MinesweeperGame.java:123-138 | the cell becomes uncovered with its other fields kept; mines stay put; the answer is safe exactly when the cell is no mine; gameOver is set on a mine and otherwise unchanged |
| Minesweeper.SetFlaggedAt | app/src/main/java/com/example/minesweeper/MinesweeperGame.java:226-228 | setting a flag through getCell changes that one cell's flag and nothing else in the game |
| GameProperties.RevealPreservesValid | app/src/main/java/com/example/minesweeper/MinesweeperGame.java:108-139 | revealCell keeps the invariant: mine count, counter equal to the number of uncovered cells, correct counts, and gameOver iff a mine is uncovered |
| GameProperties.UncoverPreservesValid | app/src/main/java/com/example/minesweeper/MinesweeperGame.java:123-138 | each counter increment pairs with uncovering a previously hidden cell, so the invariant holds after the reveal and flood |
| GameProperties.FirstUncoverPreservesValid | app/src/main/java/com/example/minesweeper/MinesweeperGame.java:114-124 | after a rebuild on the first move, uncovering the cell still yields a game satisfying the invariant |
| GameProperties.FirstRevealIsSafe | app/src/main/java/com/example/minesweeper/MinesweeperGame.java:114-136 | on a new game the first reveal of an unflagged cell is safe, the game is not over, the cell is an uncovered zero cell, and all its safe unflagged neighbours are uncovered |
| GameProperties.NewGameSucceeds | app/src/main/java/com/example/minesweeper/MinesweeperGame.java:29-41 | the constructor ends exactly when the draws hold `bombs` distinct positions |
| GameProperties.NewGameUsesDraws | app/src/main/java/com/example/minesweeper/MinesweeperGame.java:29-41 | a new game's mines are exactly the distinct positions among the draws its constructor consumed |
| GameProperties.RevealSucceeds | app/src/main/java/com/example/minesweeper/MinesweeperGame.java:108-121 | revealCell fails to end exactly on a first move past the guard whose cell is not a zero cell, when the draws hold too few distinct positions outside its 3x3 block; with more mines than cells outside that block it never ends |
| GameProperties.LaterRevealsKeepLayout | app/src/main/java/com/example/minesweeper/MinesweeperGame.java:115-121 | once the first move is made, a reveal never rebuilds the board: it always succeeds without draws, and it keeps mines, counts and flags; it never covers a cell again |
| GameProperties.RevealFloodsRegion | app/src/main/java/com/example/minesweeper/MinesweeperGame.java:133-136 | a safe reveal uncovers a closed region: a zero anchor and every newly uncovered zero cell have all safe unflagged neighbours uncovered; after the first move only openable cells change |
| GameProperties.UncoverFloods | app/src/main/java/com/example/minesweeper/MinesweeperGame.java:145-173 | uncovering a hidden safe unflagged cell reveals only openable cells and leaves each uncovered zero cell with its neighbourhood open |
| GameProperties.UncoverStaysInRegion | app/src/main/java/com/example/minesweeper/MinesweeperGame.java:123-136 | uncovering a hidden, unflagged cell uncovers nothing outside any closed set that holds it |
| GameProperties.RevealStaysInRegion | app/src/main/java/com/example/minesweeper/MinesweeperGame.java:108-139 | after the first move, revealCell uncovers nothing outside any closed set that holds the clicked cell |
| GameProperties.RevealKeepsFlagsOnHidden | app/src/main/java/com/example/minesweeper/MinesweeperGame.java:111-112 | revealCell never uncovers a flagged cell, so a board with no uncovered flagged cell keeps that property |
| GameProperties.CheckWinMeansAllSafeRevealed | app/src/main/java/com/example/minesweeper/MinesweeperGame.java:216-223 | on a valid game, checkWin holds exactly when no mine was hit and every safe cell is uncovered |
| GameProperties.GameOverMeansMineRevealed | app/src/main/java/com/example/minesweeper/MinesweeperGame.java:231-233 | on a valid game, isGameOver holds exactly when some uncovered cell is a mine |
| GameProperties.GetCellFacts | app/src/main/java/com/example/minesweeper/MinesweeperGame.java:226-228 | the cell getCell returns holds the number of adjacent mines (0..8) if it is safe; if it is an uncovered mine the game is over; before the first move it is hidden |
| GameProperties.NewGameCountsCorrect | app/src/main/java/com/example/minesweeper/MinesweeperGame.java:38-40 | after construction, every safe cell stores the number of adjacent mines, at most 8 |
| GameProperties.SetFlaggedPreservesValid | app/src/main/java/com/example/minesweeper/Cell.java:77-80 | flagging or unflagging keeps the invariant; it changes neither the counter nor checkWin |
| GameProperties.FlagThenUnflagRestores | app/src/main/java/com/example/minesweeper/Cell.java:77-80 | flagging an unflagged cell and then unflagging it restores the whole game |

## Left out

- Logging (`Log.d`) is left out. It has no effect on the game state.
- The Android activities, the score database and the UI are not part of this
  model.
- `java.util.Random` is replaced by an explicit sequence of draws. The model
  says nothing about the distribution of mine layouts.
- `java.util.Random` may return any cell, however many draws it takes; the
  model sees only a finite prefix of its answers. The Java loop never ends
  when `bombs` exceeds the cells it may use. The model stops with `Exhausted`
  when the prefix runs out, and `Placement.PlaceFromSucceeds` says exactly
  when that happens. Every other guarantee is stated for the `Drawn` outcome.
- Minesweeper.RevealCell: its guarantees hold for the `Drawn` outcome. An
  `Exhausted` result can only come from the first-move rebuild.
- 32-bit overflow of `rows * cols` and of `revealedCells` is not modelled.
  Dimensions and counts are unbounded naturals. A negative `bombs` is not
  modelled either: `bombs` is a `nat`, and the Java `while (placed < bombs)`
  would place none.
- Minesweeper.NewGame: it requires `bombs > 0 ==> rows > 0 && cols > 0`.
  With an empty board and at least one mine, `nextInt(0)` throws. The model
  does not cover that exception.
- Flood.FloodFrom: the JVM call-stack limit is not modelled. `floodReveal`
  calls itself once per uncovered zero cell (MinesweeperGame.java:169), with
  no bound tied to `rows * cols`. On a large open board the Java code can
  throw `StackOverflowError`; the model always finishes.
- Out-of-range coordinates make the Java array access throw. The model states
  in-range coordinates as a precondition instead.
- The engine has no flag-toggle method. Apart from a rebuild, a flag changes
  only when a caller invokes `Cell.setFlagged` on a cell reference, which
  `Minesweeper.SetFlaggedAt` models.
- Minesweeper.CheckWin, Minesweeper.GetCell and Minesweeper.IsGameOver only
  read the state. Their meaning is stated by the lemmas
  `GameProperties.CheckWinMeansAllSafeRevealed`,
  `GameProperties.GetCellFacts` and `GameProperties.GameOverMeansMineRevealed`.
- Getters and setters are modelled on an immutable cell. Aliasing through the
  `Cell` reference that `getCell` returns is modelled only for `setFlagged`.
  A caller invoking another setter through that reference is not modelled.
