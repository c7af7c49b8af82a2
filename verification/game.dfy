/**
  The game object (`MinesweeperGame`): its state, the constructor, the reveal
  move with first-move safety, and the public queries.
 */
module Minesweeper {
  import opened Cells
  import opened Grids
  import opened Draws
  import opened Neighbors
  import opened Placement
  import opened Flood

  /** The fields of MinesweeperGame. */
  datatype Game = Game(
    rows: nat,
    cols: nat,
    bombs: nat,
    board: Grid,
    gameOver: bool,
    revealedCells: int,
    firstMove: bool)

  /** The result of revealCell: the game afterwards, and whether the move was safe. */
  datatype Reveal = Reveal(game: Game, safe: bool)

  predicate InBounds(g: Game, row: int, col: int)
  {
    0 <= row < g.rows && 0 <= col < g.cols
  }

  /** A cell the first click may stay on: no mine on it and none around it. */
  predicate ZeroCell(x: Cell)
  {
    !x.isBomb && x.neighborBombs == 0
  }

  /**
    The invariant every game satisfies between calls: exactly `bombs` mines, a
    counter equal to the number of revealed cells, correct neighbour counts on
    every safe cell, `gameOver` set exactly when a mine has been revealed, and
    nothing revealed before the first move.
   */
  ghost predicate Valid(g: Game)
  {
    && Shaped(g.board, g.rows, g.cols)
    && Count(g.board, Mine) == g.bombs
    && g.revealedCells == Count(g.board, Revealed)
    && CountsCorrect(g.board)
    && (g.gameOver <==> Count(g.board, And(Mine, Revealed)) > 0)
    && (g.firstMove ==> g.revealedCells == 0)
  }

  /**
    The constructor: an empty rows x cols board, `bombs` mines placed by
    rejection sampling, then the neighbour counts. `nextInt(0)` throws, so a
    board with no rows or no columns can hold no mine.
   */
  function NewGame(rows: nat, cols: nat, bombs: nat, draws: seq<Pos>): (r: Drawn<Game>)
    requires bombs > 0 ==> rows > 0 && cols > 0
    requires Within(draws, rows, cols)
    ensures r.Drawn? ==> Valid(r.value) && IsSuffix(r.rest, draws)
    ensures r.Drawn? ==> r.value.rows == rows && r.value.cols == cols && r.value.bombs == bombs
    ensures r.Drawn? ==> r.value.revealedCells == 0 && !r.value.gameOver && r.value.firstMove
    ensures r.Drawn? ==> forall i, j :: InGrid(r.value.board, i, j) ==>
      !r.value.board[i][j].isRevealed && !r.value.board[i][j].isFlagged
  {
    var empty := InitBoard(rows, cols);
    match PlaceBombs(empty, rows, cols, bombs, draws)
    case Exhausted => Exhausted
    case Drawn(placed, rest) =>
      var b := CalculateNeighbors(placed);
      FreshBoardCounts(empty, placed, b);
      Drawn(Game(rows, cols, bombs, b, false, 0, true), rest)
  }

  lemma FreshBoardCounts(empty: Grid, placed: Grid, b: Grid)
    requires forall i, j :: InGrid(empty, i, j) ==> empty[i][j] == NewCell()
    requires AddsMines(empty, placed, Nowhere) && SameMines(placed, b)
    requires forall i, j :: InGrid(placed, i, j) ==>
      b[i][j].isRevealed == placed[i][j].isRevealed && b[i][j].isFlagged == placed[i][j].isFlagged
    ensures forall i, j :: InGrid(b, i, j) ==> !b[i][j].isRevealed && !b[i][j].isFlagged
    ensures Count(b, Mine) == Count(placed, Mine)
    ensures Count(b, Revealed) == 0 && Count(b, And(Mine, Revealed)) == 0
  {
    CountCongruent(placed, Mine, b, Mine);
    CountZero(b, Revealed);
    CountZero(b, And(Mine, Revealed));
  }

  /**
    The first-move loop of revealCell: while the clicked cell is a mine or has a
    mine next to it, rebuild the board around it. A rebuild always leaves the
    clicked cell a zero cell, so the loop body runs at most once.
   */
  function Settle(b: Grid, rows: nat, cols: nat, bombs: nat, row: int, col: int, draws: seq<Pos>): (r: Drawn<Grid>)
    requires Shaped(b, rows, cols) && 0 <= row < rows && 0 <= col < cols && Within(draws, rows, cols)
    ensures r.Drawn? ==> Shaped(r.value, rows, cols) && IsSuffix(r.rest, draws) && ZeroCell(r.value[row][col])
    ensures ZeroCell(b[row][col]) ==> r == Drawn(b, draws)
    ensures !ZeroCell(b[row][col]) ==> r == Regenerate(b, rows, cols, bombs, row, col, draws)
    decreases |draws| + (if ZeroCell(b[row][col]) then 0 else 1)
  {
    if ZeroCell(b[row][col]) then Drawn(b, draws)
    else
      match Regenerate(b, rows, cols, bombs, row, col, draws)
      case Exhausted => Exhausted
      case Drawn(b', rest) =>
        var r := Settle(b', rows, cols, bombs, row, col, rest);
        SuffixTransitive(r.rest, rest, draws);
        r
  }

  /**
    revealCell(row, col). A revealed or flagged cell is left alone. The first
    click that gets past that check clears `firstMove` and, if needed, rebuilds
    the board so that the cell is a zero cell. The cell is then revealed and
    counted; a mine ends the game, a zero cell floods its region.
   */
  function RevealCell(g: Game, row: int, col: int, draws: seq<Pos>): (r: Drawn<Reveal>)
    requires Shaped(g.board, g.rows, g.cols) && InBounds(g, row, col) && Within(draws, g.rows, g.cols)
    // The guard: nothing changes and the answer is "safe".
    ensures g.board[row][col].isRevealed || g.board[row][col].isFlagged ==> r == Drawn(Reveal(g, true), draws)
    // Draws are only needed for a rebuild, and a rebuild only happens on the first move.
    ensures r.Exhausted? ==> g.firstMove && !ZeroCell(g.board[row][col])
    ensures r.Drawn? ==> IsSuffix(r.rest, draws)
    ensures !g.firstMove && r.Drawn? ==> r.rest == draws && SameMines(g.board, r.value.game.board)
    ensures !g.firstMove ==> r.Drawn?
    ensures r.Drawn? ==> var h := r.value.game;
      h.rows == g.rows && h.cols == g.cols && h.bombs == g.bombs && Shaped(h.board, h.rows, h.cols)
    ensures r.Drawn? && !(g.board[row][col].isRevealed || g.board[row][col].isFlagged) ==>
      !r.value.game.firstMove && r.value.game.board[row][col].isRevealed
      && (r.value.safe <==> !r.value.game.board[row][col].isBomb)
    // A mine ends the game; a safe move leaves gameOver as it was.
    ensures r.Drawn? && !r.value.safe ==> r.value.game.gameOver
    ensures r.Drawn? && r.value.safe ==> r.value.game.gameOver == g.gameOver
    // First-move safety.
    ensures r.Drawn? && g.firstMove && !g.board[row][col].isRevealed && !g.board[row][col].isFlagged ==>
      r.value.safe && ZeroCell(r.value.game.board[row][col])
  {
    var cell := g.board[row][col];
    if cell.isRevealed || cell.isFlagged then Drawn(Reveal(g, true), draws)
    else
      var settled := if g.firstMove then Settle(g.board, g.rows, g.cols, g.bombs, row, col, draws) else Drawn(g.board, draws);
      match settled
      case Exhausted => Exhausted
      case Drawn(b, rest) => Drawn(Uncover(g, b, row, col), rest)
  }

  /**
    The rest of revealCell, on the board the first-move block left: reveal the
    cell and count it, then end the game on a mine or flood from a zero cell.
   */
  function Uncover(g: Game, b: Grid, row: int, col: int): (r: Reveal)
    requires Shaped(b, g.rows, g.cols) && InBounds(g, row, col)
    ensures r.game.rows == g.rows && r.game.cols == g.cols && r.game.bombs == g.bombs
    ensures Shaped(r.game.board, g.rows, g.cols) && SameMines(b, r.game.board)
    ensures !r.game.firstMove && r.game.board[row][col] == SetRevealed(b[row][col], true)
    ensures r.safe <==> !b[row][col].isBomb
    ensures !r.safe ==> r.game.gameOver
    ensures r.safe ==> r.game.gameOver == g.gameOver
  {
    var b1 := Put(b, row, col, SetRevealed(b[row][col], true));
    var g1 := g.(board := b1, firstMove := false, revealedCells := g.revealedCells + 1);
    if b1[row][col].isBomb then
      Reveal(g1.(gameOver := true), false)
    else if b1[row][col].neighborBombs == 0 then
      var flood := FloodReveal(b1, row, col);
      RevealsSafeKeepsMines(b1, flood.0, row, col);
      Reveal(g1.(board := flood.0, revealedCells := g1.revealedCells + flood.1), true)
    else
      Reveal(g1, true)
  }

  /** A safe reveal keeps the mines where they were and the revealed cell revealed. */
  lemma RevealsSafeKeepsMines(b: Grid, b': Grid, row: int, col: int)
    requires RevealsSafe(b, b') && InGrid(b, row, col) && b[row][col].isRevealed
    ensures SameMines(b, b')
    ensures b'[row][col] == b[row][col]
  {
  }

  /** checkWin: as many hidden cells as mines, and no mine hit. */
  function CheckWin(g: Game): bool
  {
    g.rows * g.cols - g.revealedCells == g.bombs && !g.gameOver
  }

  /** getCell. */
  function GetCell(g: Game, row: int, col: int): Cell
    requires Shaped(g.board, g.rows, g.cols) && InBounds(g, row, col)
  {
    g.board[row][col]
  }

  /** isGameOver. */
  function IsGameOver(g: Game): bool
  {
    g.gameOver
  }

  /**
    The board is private; the only route from outside to a cell is the
    reference getCell returns. This models a caller invoking setFlagged on that
    reference, which changes the game's own cell.
   */
  function SetFlaggedAt(g: Game, row: int, col: int, flagged: bool): (h: Game)
    requires Shaped(g.board, g.rows, g.cols) && InBounds(g, row, col)
    ensures h == g.(board := h.board) && SameShape(g.board, h.board)
    ensures h.board[row][col] == SetFlagged(g.board[row][col], flagged)
    ensures forall i, j :: InGrid(g.board, i, j) && (i, j) != (row, col) ==> h.board[i][j] == g.board[i][j]
  {
    g.(board := Put(g.board, row, col, SetFlagged(g.board[row][col], flagged)))
  }
}
