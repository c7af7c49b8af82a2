/**
  The 3x3 neighbourhood of a cell and the neighbour-mine counts written into
  each safe cell (`calculateNeighbors`).
 */
module Neighbors {
  import opened Cells
  import opened Grids
  import opened Draws

  /**
    Offset number k of the 3x3 block around (r, c), in the order the game scans
    it: row offset -1, 0, 1 in the outer loop, column offset -1, 0, 1 in the
    inner loop. k == 4 is (r, c) itself, which every scan skips.
   */
  function Nb(r: int, c: int, k: int): Pos
  {
    (r + k / 3 - 1, c + k % 3 - 1)
  }

  function MineAt(b: Grid, p: Pos): nat
  {
    if InGrid(b, p.0, p.1) && b[p.0][p.1].isBomb then 1 else 0
  }

  /** Mines at offsets k, k+1, ..., 8 of (r, c) that lie on the board. */
  function NeighborMinesFrom(b: Grid, r: int, c: int, k: nat): nat
    requires k <= 9
    decreases 9 - k
  {
    if k == 9 then 0
    else (if k == 4 then 0 else MineAt(b, Nb(r, c, k))) + NeighborMinesFrom(b, r, c, k + 1)
  }

  /** The number `calculateNeighbors` stores for a safe cell at (r, c). */
  function NeighborMines(b: Grid, r: int, c: int): nat
  {
    NeighborMinesFrom(b, r, c, 0)
  }

  /** Two boards of the same shape with mines in the same places. */
  ghost predicate SameMines(b: Grid, b': Grid)
  {
    SameShape(b, b') && forall i, j :: InGrid(b, i, j) ==> b'[i][j].isBomb == b[i][j].isBomb
  }

  /** Every safe cell records exactly the number of mines around it. */
  ghost predicate CountsCorrect(b: Grid)
  {
    forall i, j :: InGrid(b, i, j) && !b[i][j].isBomb ==> b[i][j].neighborBombs == NeighborMines(b, i, j)
  }

  /**
    calculateNeighbors: every safe cell gets the count of mines around it; mine
    cells are skipped and keep whatever count they held. The scan reads only the
    mine flags, which it never writes, so computing every count from the input
    board gives the same board as the in-place loop.
   */
  function CalculateNeighbors(b: Grid): (b': Grid)
    ensures SameMines(b, b')
    ensures forall i, j :: InGrid(b, i, j) ==>
      b'[i][j].isRevealed == b[i][j].isRevealed && b'[i][j].isFlagged == b[i][j].isFlagged
    ensures forall i, j :: InGrid(b, i, j) && b[i][j].isBomb ==> b'[i][j] == b[i][j]
    ensures CountsCorrect(b')
  {
    var b' := seq(|b|, i requires 0 <= i < |b| =>
      seq(|b[i]|, j requires 0 <= j < |b[i]| =>
        if b[i][j].isBomb then b[i][j] else SetNeighborBombs(b[i][j], NeighborMines(b, i, j))));
    SameMinesNeighborMines(b, b');
    b'
  }

  // ---------------------------------------------------------------------------

  lemma {:induction false} SameMinesFrom(b: Grid, b': Grid, r: int, c: int, k: nat)
    requires SameMines(b, b') && k <= 9
    ensures NeighborMinesFrom(b, r, c, k) == NeighborMinesFrom(b', r, c, k)
    decreases 9 - k
  {
    if k < 9 {
      SameMinesFrom(b, b', r, c, k + 1);
    }
  }

  /** Neighbour counts depend only on where the mines are. */
  lemma SameMinesNeighborMines(b: Grid, b': Grid)
    requires SameMines(b, b')
    ensures forall r, c :: NeighborMines(b, r, c) == NeighborMines(b', r, c)
  {
    forall r, c
      ensures NeighborMines(b, r, c) == NeighborMines(b', r, c)
    {
      SameMinesFrom(b, b', r, c, 0);
    }
  }

  /** Moving the mine-free counts along boards with the same mines. */
  lemma SameMinesCountsCorrect(b: Grid, b': Grid)
    requires SameMines(b, b') && CountsCorrect(b)
    requires forall i, j :: InGrid(b, i, j) ==> b'[i][j].neighborBombs == b[i][j].neighborBombs
    ensures CountsCorrect(b')
  {
    SameMinesNeighborMines(b, b');
  }

  // ---------------------------------------------------------------------------
  // The same count, taken row by row over the whole board.

  function RowMine(row: seq<Cell>, i: int, r: int, c: int, j: int): nat
  {
    if 0 <= j < |row| && (i, j) != (r, c) && row[j].isBomb then 1 else 0
  }

  /** The mines of row `i` adjacent to (r, c). */
  function RowWindow(row: seq<Cell>, i: int, r: int, c: int): nat
  {
    if -1 <= i - r <= 1 then RowMine(row, i, r, c, c - 1) + RowMine(row, i, r, c, c) + RowMine(row, i, r, c, c + 1)
    else 0
  }

  function RowAt(b: Grid, i: int, r: int, c: int): nat
  {
    if 0 <= i < |b| then RowWindow(b[i], i, r, c) else 0
  }

  /** The mines of the board adjacent to (r, c), row by row. */
  function GridWindow(b: Grid, r: int, c: int): nat
  {
    RowAt(b, r - 1, r, c) + RowAt(b, r, r, c) + RowAt(b, r + 1, r, c)
  }

  lemma {:induction false} CountRowNear(row: seq<Cell>, i: int, r: int, c: int)
    ensures CountRow(row, i, MineNear(r, c)) == RowWindow(row, i, r, c)
    decreases |row|
  {
    var n := |row|;
    if n > 0 {
      var pre := row[..n - 1];
      CountRowNear(pre, i, r, c);
      var x := row[n - 1];
      assert Ind(MineNear(r, c), i, n - 1, x) == (if x.isBomb && Adjacent(i, n - 1, r, c) then 1 else 0);
      forall j
        ensures RowMine(row, i, r, c, j)
          == RowMine(pre, i, r, c, j) + (if j == n - 1 && (i, j) != (r, c) && x.isBomb then 1 else 0)
      {
        if 0 <= j < n - 1 {
          assert pre[j] == row[j];
        }
      }
    }
  }

  lemma {:induction false} CountNear(b: Grid, r: int, c: int)
    ensures Count(b, MineNear(r, c)) == GridWindow(b, r, c)
    decreases |b|
  {
    var n := |b|;
    if n > 0 {
      var pre := b[..n - 1];
      CountNear(pre, r, c);
      CountRowNear(b[n - 1], n - 1, r, c);
      forall i
        ensures RowAt(b, i, r, c) == RowAt(pre, i, r, c) + (if i == n - 1 then RowWindow(b[n - 1], n - 1, r, c) else 0)
      {
        if 0 <= i < n - 1 {
          assert pre[i] == b[i];
        }
      }
    }
  }

  /** The eight terms of the scan, in order. */
  function ScanSum(b: Grid, r: int, c: int): nat
  {
    MineAt(b, Nb(r, c, 0)) + MineAt(b, Nb(r, c, 1)) + MineAt(b, Nb(r, c, 2))
    + MineAt(b, Nb(r, c, 3)) + MineAt(b, Nb(r, c, 5))
    + MineAt(b, Nb(r, c, 6)) + MineAt(b, Nb(r, c, 7)) + MineAt(b, Nb(r, c, 8))
  }

  lemma ScanUnrolled(b: Grid, r: int, c: int)
    ensures NeighborMines(b, r, c) == ScanSum(b, r, c)
  {
    assert NeighborMinesFrom(b, r, c, 8) == MineAt(b, Nb(r, c, 8)) + NeighborMinesFrom(b, r, c, 9);
    assert NeighborMinesFrom(b, r, c, 7) == MineAt(b, Nb(r, c, 7)) + NeighborMinesFrom(b, r, c, 8);
    assert NeighborMinesFrom(b, r, c, 6) == MineAt(b, Nb(r, c, 6)) + NeighborMinesFrom(b, r, c, 7);
    assert NeighborMinesFrom(b, r, c, 5) == MineAt(b, Nb(r, c, 5)) + NeighborMinesFrom(b, r, c, 6);
    assert NeighborMinesFrom(b, r, c, 4) == 0 + NeighborMinesFrom(b, r, c, 5);
    assert NeighborMinesFrom(b, r, c, 3) == MineAt(b, Nb(r, c, 3)) + NeighborMinesFrom(b, r, c, 4);
    assert NeighborMinesFrom(b, r, c, 2) == MineAt(b, Nb(r, c, 2)) + NeighborMinesFrom(b, r, c, 3);
    assert NeighborMinesFrom(b, r, c, 1) == MineAt(b, Nb(r, c, 1)) + NeighborMinesFrom(b, r, c, 2);
    assert NeighborMinesFrom(b, r, c, 0) == MineAt(b, Nb(r, c, 0)) + NeighborMinesFrom(b, r, c, 1);
  }

  lemma WindowUnrolled(b: Grid, r: int, c: int)
    ensures GridWindow(b, r, c) == ScanSum(b, r, c)
  {
    RowAbove(b, r, c);
    RowSame(b, r, c);
    RowBelow(b, r, c);
  }

  lemma RowAbove(b: Grid, r: int, c: int)
    ensures RowAt(b, r - 1, r, c) == MineAt(b, Nb(r, c, 0)) + MineAt(b, Nb(r, c, 1)) + MineAt(b, Nb(r, c, 2))
  {
    assert Nb(r, c, 0) == (r - 1, c - 1) && Nb(r, c, 1) == (r - 1, c) && Nb(r, c, 2) == (r - 1, c + 1);
  }

  lemma RowSame(b: Grid, r: int, c: int)
    ensures RowAt(b, r, r, c) == MineAt(b, Nb(r, c, 3)) + MineAt(b, Nb(r, c, 5))
  {
    assert Nb(r, c, 3) == (r, c - 1) && Nb(r, c, 5) == (r, c + 1);
  }

  lemma RowBelow(b: Grid, r: int, c: int)
    ensures RowAt(b, r + 1, r, c) == MineAt(b, Nb(r, c, 6)) + MineAt(b, Nb(r, c, 7)) + MineAt(b, Nb(r, c, 8))
  {
    assert Nb(r, c, 6) == (r + 1, c - 1) && Nb(r, c, 7) == (r + 1, c) && Nb(r, c, 8) == (r + 1, c + 1);
  }

  /**
    The scan counts exactly the board's mines adjacent to (r, c), so the number
    stored in a safe cell lies between 0 and 8.
   */
  lemma NeighborMinesIsAdjacentCount(b: Grid, r: int, c: int)
    ensures NeighborMines(b, r, c) == Count(b, MineNear(r, c))
    ensures NeighborMines(b, r, c) <= 8
  {
    CountNear(b, r, c);
    ScanUnrolled(b, r, c);
    WindowUnrolled(b, r, c);
  }
}
