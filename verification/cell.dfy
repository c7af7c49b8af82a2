/**
  One square of the Minesweeper grid: whether it holds a mine, whether the
  player has uncovered or flagged it, and how many mines surround it.

  The Java class is a mutable record with a getter and a setter per field; here
  a cell is an immutable value, its fields are the getters, and each setter
  returns the updated cell.
 */
module Cells {

  datatype Cell = Cell(isBomb: bool, isRevealed: bool, isFlagged: bool, neighborBombs: int)

  /** The default cell: safe, hidden, unflagged, no neighbouring mines recorded. */
  function NewCell(): (c: Cell)
    ensures !c.isBomb && !c.isRevealed && !c.isFlagged && c.neighborBombs == 0
  {
    Cell(false, false, false, 0)
  }

  /** Each setter changes its own field and no other. */
  function SetBomb(c: Cell, bomb: bool): (c': Cell)
    ensures c'.isBomb == bomb
    ensures c'.isRevealed == c.isRevealed && c'.isFlagged == c.isFlagged
    ensures c'.neighborBombs == c.neighborBombs
  {
    c.(isBomb := bomb)
  }

  function SetRevealed(c: Cell, revealed: bool): (c': Cell)
    ensures c'.isRevealed == revealed
    ensures c'.isBomb == c.isBomb && c'.isFlagged == c.isFlagged
    ensures c'.neighborBombs == c.neighborBombs
  {
    c.(isRevealed := revealed)
  }

  function SetFlagged(c: Cell, flagged: bool): (c': Cell)
    ensures c'.isFlagged == flagged
    ensures c'.isBomb == c.isBomb && c'.isRevealed == c.isRevealed
    ensures c'.neighborBombs == c.neighborBombs
  {
    c.(isFlagged := flagged)
  }

  function SetNeighborBombs(c: Cell, count: int): (c': Cell)
    ensures c'.neighborBombs == count
    ensures c'.isBomb == c.isBomb && c'.isRevealed == c.isRevealed
    ensures c'.isFlagged == c.isFlagged
  {
    c.(neighborBombs := count)
  }

  /** Flagging and then unflagging gives back the original cell exactly when it was unflagged. */
  lemma FlagThenUnflag(c: Cell)
    ensures SetFlagged(SetFlagged(c, true), false) == c <==> !c.isFlagged
  {
  }
}
