/**
  What the game promises across calls: every operation keeps the invariant
  `Valid`, the win test means "every safe cell is uncovered", the first click
  is always safe, and a reveal uncovers a whole mine-free region.
 */
module GameProperties {
  import opened Cells
  import opened Grids
  import opened Draws
  import opened Neighbors
  import opened Placement
  import opened Flood
  import opened Minesweeper

  // ---------------------------------------------------------------------------
  // revealCell keeps the invariant.

  /** The board the first-move loop hands on: either the old board or a fresh rebuild. */
  lemma SettledBoard(g: Game, row: int, col: int, draws: seq<Pos>)
    requires Valid(g) && InBounds(g, row, col) && Within(draws, g.rows, g.cols)
    requires g.firstMove
    ensures var s := Settle(g.board, g.rows, g.cols, g.bombs, row, col, draws);
      s.Drawn? ==>
        && Shaped(s.value, g.rows, g.cols)
        && Count(s.value, Mine) == g.bombs
        && CountsCorrect(s.value)
        && Count(s.value, Revealed) == 0
        && Count(s.value, And(Mine, Revealed)) == 0
        && (forall i, j :: InGrid(s.value, i, j) ==> !s.value[i][j].isRevealed)
  {
    var s := Settle(g.board, g.rows, g.cols, g.bombs, row, col, draws);
    CountZero(g.board, Revealed);
    if s.Drawn? {
      CountZero(s.value, Revealed);
      CountZero(s.value, And(Mine, Revealed));
    }
  }

  /** Revealing the clicked cell, which was hidden, on a board satisfying the counting parts of the invariant. */
  lemma RevealAnchor(b: Grid, row: int, col: int)
    requires InGrid(b, row, col) && !b[row][col].isRevealed && CountsCorrect(b)
    ensures var b1 := Put(b, row, col, SetRevealed(b[row][col], true));
      && Count(b1, Mine) == Count(b, Mine)
      && Count(b1, Revealed) == Count(b, Revealed) + 1
      && Count(b1, And(Mine, Revealed)) == Count(b, And(Mine, Revealed)) + (if b[row][col].isBomb then 1 else 0)
      && SameMines(b, b1)
      && CountsCorrect(b1)
  {
    var x := SetRevealed(b[row][col], true);
    var b1 := Put(b, row, col, x);
    CountUpdate(b, row, col, x, Mine);
    CountUpdate(b, row, col, x, Revealed);
    CountUpdate(b, row, col, x, And(Mine, Revealed));
    SameMinesCountsCorrect(b, b1);
  }

  /** A flood changes only the revealed-cell count. */
  lemma FloodKeepsCounts(b: Grid, b': Grid)
    requires RevealsSafe(b, b') && CountsCorrect(b)
    ensures Count(b', Mine) == Count(b, Mine)
    ensures Count(b', And(Mine, Revealed)) == Count(b, And(Mine, Revealed))
    ensures CountsCorrect(b')
  {
    CountCongruent(b, Mine, b', Mine);
    CountCongruent(b, And(Mine, Revealed), b', And(Mine, Revealed));
    SameMinesCountsCorrect(b, b');
  }

  /** Uncovering a hidden cell keeps the invariant, given its counting parts on the board it starts from. */
  lemma UncoverPreservesValid(g: Game, b: Grid, row: int, col: int)
    requires Shaped(b, g.rows, g.cols) && InBounds(g, row, col) && !b[row][col].isRevealed
    requires Count(b, Mine) == g.bombs && CountsCorrect(b) && Count(b, Revealed) == g.revealedCells
    requires g.gameOver <==> Count(b, And(Mine, Revealed)) > 0
    ensures Valid(Uncover(g, b, row, col).game)
  {
    RevealAnchor(b, row, col);
    var b1: Grid := Put(b, row, col, SetRevealed(b[row][col], true));
    if !b1[row][col].isBomb && b1[row][col].neighborBombs == 0 {
      var flood := FloodReveal(b1, row, col);
      FloodKeepsCounts(b1, flood.0);
    }
  }

  /** On the first move, the board the first-move loop settles on satisfies what Uncover needs. */
  lemma FirstUncoverPreservesValid(g: Game, row: int, col: int, draws: seq<Pos>)
    requires Valid(g) && g.firstMove && InBounds(g, row, col) && Within(draws, g.rows, g.cols)
    ensures var s := Settle(g.board, g.rows, g.cols, g.bombs, row, col, draws);
      s.Drawn? ==> Valid(Uncover(g, s.value, row, col).game)
  {
    SettledBoard(g, row, col, draws);
    CountZero(g.board, Revealed);
    CountZero(g.board, And(Mine, Revealed));
    var s: Drawn<Grid> := Settle(g.board, g.rows, g.cols, g.bombs, row, col, draws);
    if s.Drawn? {
      UncoverPreservesValid(g, s.value, row, col);
    }
  }

  lemma RevealPreservesValid(g: Game, row: int, col: int, draws: seq<Pos>)
    requires Valid(g) && InBounds(g, row, col) && Within(draws, g.rows, g.cols)
    ensures var r := RevealCell(g, row, col, draws); r.Drawn? ==> Valid(r.value.game)
  {
    var cell := g.board[row][col];
    if !(cell.isRevealed || cell.isFlagged) {
      if g.firstMove {
        FirstUncoverPreservesValid(g, row, col, draws);
      } else {
        UncoverPreservesValid(g, g.board, row, col);
      }
    }
  }

  /** No cell is both uncovered and flagged. */
  ghost predicate FlagsOnHidden(b: Grid)
  {
    forall i, j :: InGrid(b, i, j) ==> !(b[i][j].isRevealed && b[i][j].isFlagged)
  }

  /**
    revealCell never uncovers a flagged cell: the guard skips a flagged anchor,
    a rebuild clears every flag, and the flood stops at flags.
   */
  lemma RevealKeepsFlagsOnHidden(g: Game, row: int, col: int, draws: seq<Pos>)
    requires Shaped(g.board, g.rows, g.cols) && InBounds(g, row, col) && Within(draws, g.rows, g.cols)
    requires FlagsOnHidden(g.board)
    ensures var r := RevealCell(g, row, col, draws); r.Drawn? ==> FlagsOnHidden(r.value.game.board)
  {
    var cell := g.board[row][col];
    if !(cell.isRevealed || cell.isFlagged) {
      var settled: Drawn<Grid> := if g.firstMove then Settle(g.board, g.rows, g.cols, g.bombs, row, col, draws) else Drawn(g.board, draws);
      if settled.Drawn? {
        var b: Grid := settled.value;
        assert FlagsOnHidden(b) && !b[row][col].isFlagged;
        UncoverKeepsFlagsOnHidden(g, b, row, col);
      }
    }
  }

  lemma UncoverKeepsFlagsOnHidden(g: Game, b: Grid, row: int, col: int)
    requires Shaped(b, g.rows, g.cols) && InBounds(g, row, col)
    requires FlagsOnHidden(b) && !b[row][col].isFlagged
    ensures FlagsOnHidden(Uncover(g, b, row, col).game.board)
  {
    var b1 := Put(b, row, col, SetRevealed(b[row][col], true));
    assert FlagsOnHidden(b1);
    if !b1[row][col].isBomb && b1[row][col].neighborBombs == 0 {
      var flood := FloodReveal(b1, row, col);
      assert RevealsSafe(b1, flood.0);
    }
  }

  // ---------------------------------------------------------------------------
  // The constructor and revealCell on the initial game.

  /**
    First-move safety: on a fresh game the first click that gets past the guard
    never hits a mine, lands on a cell with no neighbouring mine, and uncovers
    every unflagged neighbour.
   */
  lemma FirstRevealIsSafe(g: Game, row: int, col: int, draws: seq<Pos>)
    requires Valid(g) && g.firstMove && InBounds(g, row, col) && Within(draws, g.rows, g.cols)
    requires !g.board[row][col].isFlagged
    ensures var r := RevealCell(g, row, col, draws);
      r.Drawn? ==>
        && r.value.safe
        && !r.value.game.gameOver
        && !r.value.game.firstMove
        && r.value.game.board[row][col].isRevealed
        && ZeroCell(r.value.game.board[row][col])
        && AllNeighborsOpen(r.value.game.board, row, col)
  {
    CountZero(g.board, Revealed);
    CountZero(g.board, And(Mine, Revealed));
    RevealFloodsRegion(g, row, col, draws);
  }

  /** The constructor ends exactly when the draws hold `bombs` distinct positions. */
  lemma NewGameSucceeds(rows: nat, cols: nat, bombs: nat, draws: seq<Pos>)
    requires bombs > 0 ==> rows > 0 && cols > 0
    requires Within(draws, rows, cols)
    ensures NewGame(rows, cols, bombs, draws).Drawn? <==> bombs <= |DrawnOutside(Nowhere, draws)|
  {
    PlaceBombsSucceeds(rows, cols, bombs, draws);
  }

  /** The mines of a new game sit exactly on the distinct positions among the draws the constructor used. */
  lemma NewGameUsesDraws(rows: nat, cols: nat, bombs: nat, draws: seq<Pos>)
    requires bombs > 0 ==> rows > 0 && cols > 0
    requires Within(draws, rows, cols)
    ensures var r := NewGame(rows, cols, bombs, draws);
      r.Drawn? ==> Mines(r.value.board) == DrawnOutside(Nowhere, Used(draws, r.rest))
  {
    var p := PlaceBombs(InitBoard(rows, cols), rows, cols, bombs, draws);
    PlaceBombsUsesDraws(rows, cols, bombs, draws);
    if p.Drawn? {
      SameMinesMines(p.value, CalculateNeighbors(p.value));
    }
  }

  /**
    revealCell can only fail to end on a first move whose cell is not already a
    zero cell, when the draws hold fewer than `bombs` distinct positions outside
    the 3x3 block around it; with more mines than cells outside that block it
    never ends.
   */
  lemma RevealSucceeds(g: Game, row: int, col: int, draws: seq<Pos>)
    requires Shaped(g.board, g.rows, g.cols) && InBounds(g, row, col) && Within(draws, g.rows, g.cols)
    ensures RevealCell(g, row, col, draws).Exhausted? <==>
      && !g.board[row][col].isRevealed && !g.board[row][col].isFlagged
      && g.firstMove && !ZeroCell(g.board[row][col])
      && g.bombs > |DrawnOutside(Around(row, col), draws)|
    ensures !g.board[row][col].isRevealed && !g.board[row][col].isFlagged && g.firstMove
      && !ZeroCell(g.board[row][col]) && g.bombs > |CellsOutside(g.rows, g.cols, Around(row, col))|
      ==> RevealCell(g, row, col, draws).Exhausted?
  {
    RegenerateSucceeds(g.board, g.rows, g.cols, g.bombs, row, col, draws);
    if g.bombs > |CellsOutside(g.rows, g.cols, Around(row, col))| {
      RegenerateNeedsRoom(g.board, g.rows, g.cols, g.bombs, row, col, draws);
    }
  }

  /** Once the first move is made, revealCell never rebuilds the board and never needs a draw. */
  lemma LaterRevealsKeepLayout(g: Game, row: int, col: int, draws: seq<Pos>)
    requires Valid(g) && !g.firstMove && InBounds(g, row, col) && Within(draws, g.rows, g.cols)
    ensures var r := RevealCell(g, row, col, draws);
      && r.Drawn? && r.rest == draws
      && SameMines(g.board, r.value.game.board)
      && !r.value.game.firstMove
      && Valid(r.value.game)
      && (forall i, j :: InGrid(g.board, i, j) ==>
            r.value.game.board[i][j].neighborBombs == g.board[i][j].neighborBombs
            && r.value.game.board[i][j].isFlagged == g.board[i][j].isFlagged
            && (g.board[i][j].isRevealed ==> r.value.game.board[i][j].isRevealed))
  {
    RevealPreservesValid(g, row, col, draws);
    var cell := g.board[row][col];
    if !(cell.isRevealed || cell.isFlagged) {
      var b1 := Put(g.board, row, col, SetRevealed(cell, true));
      if !cell.isBomb && cell.neighborBombs == 0 {
        var flood := FloodReveal(b1, row, col);
        assert RevealsSafe(b1, flood.0);
      }
    }
  }

  // ---------------------------------------------------------------------------
  // The flood as seen from revealCell.

  /**
    A safe reveal uncovers a closed region: every cell it newly uncovered with no
    neighbouring mine has all its safe, unflagged neighbours uncovered. After the
    first move it uncovers only hidden, unflagged, safe cells and changes nothing
    else.
   */
  lemma RevealFloodsRegion(g: Game, row: int, col: int, draws: seq<Pos>)
    requires Shaped(g.board, g.rows, g.cols) && InBounds(g, row, col) && Within(draws, g.rows, g.cols)
    ensures var r := RevealCell(g, row, col, draws);
      r.Drawn? && r.value.safe && !g.board[row][col].isRevealed && !g.board[row][col].isFlagged ==>
        && (!g.firstMove ==> RevealsSafe(g.board, r.value.game.board))
        && (r.value.game.board[row][col].neighborBombs == 0 ==> AllNeighborsOpen(r.value.game.board, row, col))
        && (forall i, j :: NewZero(g.board, r.value.game.board, i, j) ==> AllNeighborsOpen(r.value.game.board, i, j))
  {
    var cell := g.board[row][col];
    if !cell.isRevealed && !cell.isFlagged {
      if g.firstMove {
        var settled: Drawn<Grid> := Settle(g.board, g.rows, g.cols, g.bombs, row, col, draws);
        if settled.Drawn? {
          var b: Grid := settled.value;
          // Cells hidden before the call are hidden on the settled board.
          assert forall i, j :: InGrid(g.board, i, j) && !g.board[i][j].isRevealed ==> !b[i][j].isRevealed;
          if !b[row][col].isBomb {
            UncoverFloods(g, b, row, col);
            var h := Uncover(g, b, row, col).game.board;
            forall i, j | NewZero(g.board, h, i, j)
              ensures AllNeighborsOpen(h, i, j)
            {
              assert NewZero(b, h, i, j);
            }
          }
        }
      } else if !cell.isBomb {
        UncoverFloods(g, g.board, row, col);
      }
    }
  }

  /**
    Uncovering a hidden, unflagged, safe cell reveals only openable cells, and
    leaves every zero cell it uncovered, the clicked one included, with its safe
    unflagged neighbours revealed.
   */
  lemma UncoverFloods(g: Game, b: Grid, row: int, col: int)
    requires Shaped(b, g.rows, g.cols) && InBounds(g, row, col) && Openable(b[row][col])
    ensures var h := Uncover(g, b, row, col).game.board;
      && RevealsSafe(b, h)
      && (h[row][col].neighborBombs == 0 ==> AllNeighborsOpen(h, row, col))
      && (forall i, j :: NewZero(b, h, i, j) ==> AllNeighborsOpen(h, i, j))
  {
    var x := SetRevealed(b[row][col], true);
    var b1 := Put(b, row, col, x);
    var h := Uncover(g, b, row, col).game.board;
    if x.neighborBombs == 0 {
      FloodCloses(b1, row, col, 0);
      assert h == FloodFrom(b1, row, col, 0).0;
      RevealsSafeStep(b, row, col, h);
      forall i, j | NewZero(b, h, i, j)
        ensures AllNeighborsOpen(h, i, j)
      {
        if (i, j) != (row, col) {
          assert NewZero(b1, h, i, j);
        }
      }
    } else {
      assert h == b1;
    }
  }

  /**
    The other half: uncovering a hidden, unflagged cell of a set `z` that holds
    the openable neighbours of each of its zero cells uncovers nothing outside
    `z`. With `UncoverFloods`, the cells uncovered are exactly the least such
    set around the clicked cell.
   */
  lemma UncoverStaysInRegion(g: Game, b: Grid, row: int, col: int, z: set<Pos>)
    requires Shaped(b, g.rows, g.cols) && InBounds(g, row, col)
    requires !b[row][col].isRevealed && !b[row][col].isFlagged
    requires (row, col) in z && ZoneClosed(b, z)
    ensures UncoveredIn(b, Uncover(g, b, row, col).game.board, z)
  {
    var x := SetRevealed(b[row][col], true);
    var b1 := Put(b, row, col, x);
    var h := Uncover(g, b, row, col).game.board;
    if !x.isBomb && x.neighborBombs == 0 {
      RevealsSafeStep(b, row, col, b1);
      ZoneClosedStays(b, b1, z);
      assert ScanIn(b1, z, row, col, 0) by {
        forall k | 0 <= k < 9 && k != 4
          ensures OpenNeighborIn(b1, z, (row, col), k)
        {
          assert ZeroAt(b1, (row, col));
        }
      }
      FloodStaysIn(b1, row, col, 0, z);
      assert h == FloodFrom(b1, row, col, 0).0;
      UncoveredInStep(b, b1, h, h, (row, col), z);
    } else {
      assert h == b1;
    }
  }

  /**
    After the first move, revealCell uncovers nothing outside any set that
    holds the clicked cell and the openable neighbours of each of its zero
    cells.
   */
  lemma RevealStaysInRegion(g: Game, row: int, col: int, draws: seq<Pos>, z: set<Pos>)
    requires Shaped(g.board, g.rows, g.cols) && InBounds(g, row, col) && Within(draws, g.rows, g.cols)
    requires (row, col) in z && ZoneClosed(g.board, z)
    ensures var r := RevealCell(g, row, col, draws);
      r.Drawn? && !g.firstMove ==> UncoveredIn(g.board, r.value.game.board, z)
  {
    var cell := g.board[row][col];
    if !g.firstMove && !cell.isRevealed && !cell.isFlagged {
      UncoverStaysInRegion(g, g.board, row, col, z);
    }
  }

  // ---------------------------------------------------------------------------
  // Queries.

  /**
    checkWin compares the hidden-cell count with the mine count. On a valid game
    that holds, with no mine hit, exactly when every safe cell is uncovered.
   */
  lemma CheckWinMeansAllSafeRevealed(g: Game)
    requires Valid(g)
    ensures CheckWin(g) <==>
      !g.gameOver && forall i, j :: InGrid(g.board, i, j) && !g.board[i][j].isBomb ==> g.board[i][j].isRevealed
  {
    HiddenCells(g);
    HiddenSafeCells(g);
    SafeHiddenZero(g.board);
    var minesHit := Count(g.board, And(Mine, Revealed));
    assert !g.gameOver ==> minesHit == 0;
  }

  /** No safe cell is hidden exactly when the count of hidden safe cells is zero. */
  lemma SafeHiddenZero(b: Grid)
    ensures Count(b, And(Not(Revealed), Not(Mine))) == 0 <==>
      forall i, j :: InGrid(b, i, j) && !b[i][j].isBomb ==> b[i][j].isRevealed
  {
    CountZero(b, And(Not(Revealed), Not(Mine)));
    forall i, j | InGrid(b, i, j)
      ensures Holds(And(Not(Revealed), Not(Mine)), i, j, b[i][j]) == (!b[i][j].isRevealed && !b[i][j].isBomb)
    {
      assert Holds(Not(Revealed), i, j, b[i][j]) == !b[i][j].isRevealed;
      assert Holds(Not(Mine), i, j, b[i][j]) == !b[i][j].isBomb;
    }
  }

  /** rows * cols - revealedCells is the number of hidden cells. */
  lemma HiddenCells(g: Game)
    requires Valid(g)
    ensures g.rows * g.cols - g.revealedCells == Count(g.board, Not(Revealed))
  {
    CountAll(g.board, g.rows, g.cols);
    CountComplement(g.board, Revealed);
  }

  /** The hidden cells are the hidden mines plus the hidden safe cells. */
  lemma HiddenSafeCells(g: Game)
    requires Valid(g)
    ensures Count(g.board, Not(Revealed))
      == g.bombs - Count(g.board, And(Mine, Revealed)) + Count(g.board, And(Not(Revealed), Not(Mine)))
  {
    var b := g.board;
    CountSplit(b, Mine, Revealed);
    CountSplit(b, Not(Revealed), Mine);
    CountCongruent(b, And(Mine, Not(Revealed)), b, And(Not(Revealed), Mine));
  }

  /** isGameOver reports exactly whether a mine has been uncovered. */
  lemma GameOverMeansMineRevealed(g: Game)
    requires Valid(g)
    ensures IsGameOver(g) <==>
      exists i, j :: InGrid(g.board, i, j) && g.board[i][j].isBomb && g.board[i][j].isRevealed
  {
    CountZero(g.board, And(Mine, Revealed));
  }

  /** What getCell returns on a valid game. */
  lemma GetCellFacts(g: Game, row: int, col: int)
    requires Valid(g) && InBounds(g, row, col)
    ensures var x := GetCell(g, row, col);
      && (!x.isBomb ==> x.neighborBombs == Count(g.board, MineNear(row, col)) && 0 <= x.neighborBombs <= 8)
      && (x.isBomb && x.isRevealed ==> IsGameOver(g))
      && (g.firstMove ==> !x.isRevealed)
  {
    NeighborMinesIsAdjacentCount(g.board, row, col);
    CountZero(g.board, Revealed);
    CountZero(g.board, And(Mine, Revealed));
  }

  /** The invariant of a freshly constructed game holds for the counts it records. */
  lemma NewGameCountsCorrect(rows: nat, cols: nat, bombs: nat, draws: seq<Pos>)
    requires bombs > 0 ==> rows > 0 && cols > 0
    requires Within(draws, rows, cols)
    ensures var r := NewGame(rows, cols, bombs, draws);
      r.Drawn? ==> forall i, j :: InGrid(r.value.board, i, j) && !r.value.board[i][j].isBomb ==>
        r.value.board[i][j].neighborBombs == Count(r.value.board, MineNear(i, j))
        && r.value.board[i][j].neighborBombs <= 8
  {
    var r := NewGame(rows, cols, bombs, draws);
    if r.Drawn? {
      forall i, j | InGrid(r.value.board, i, j) && !r.value.board[i][j].isBomb
        ensures r.value.board[i][j].neighborBombs == Count(r.value.board, MineNear(i, j))
        ensures r.value.board[i][j].neighborBombs <= 8
      {
        NeighborMinesIsAdjacentCount(r.value.board, i, j);
      }
    }
  }

  // ---------------------------------------------------------------------------
  // Flags.

  /** Setting or clearing a flag keeps the invariant, the counter and the win test. */
  lemma SetFlaggedPreservesValid(g: Game, row: int, col: int, flagged: bool)
    requires Valid(g) && InBounds(g, row, col)
    ensures var h := SetFlaggedAt(g, row, col, flagged);
      Valid(h) && h.revealedCells == g.revealedCells && CheckWin(h) == CheckWin(g)
  {
    var x := SetFlagged(g.board[row][col], flagged);
    var h := SetFlaggedAt(g, row, col, flagged);
    CountUpdate(g.board, row, col, x, Mine);
    CountUpdate(g.board, row, col, x, Revealed);
    CountUpdate(g.board, row, col, x, And(Mine, Revealed));
    SameMinesCountsCorrect(g.board, h.board);
  }

  /** Flagging a hidden cell and then clearing the flag gives back the same game. */
  lemma FlagThenUnflagRestores(g: Game, row: int, col: int)
    requires Shaped(g.board, g.rows, g.cols) && InBounds(g, row, col) && !g.board[row][col].isFlagged
    ensures SetFlaggedAt(SetFlaggedAt(g, row, col, true), row, col, false) == g
  {
    var h := SetFlaggedAt(SetFlaggedAt(g, row, col, true), row, col, false);
    assert h.board[row] == g.board[row];
    assert h.board == g.board;
  }
}
