/**
  The board as a sequence of rows of cells, and counting of the cells that
  satisfy a property. Every quantity the game keeps track of (mines placed,
  cells revealed, mines next to a cell) is such a count, so the facts about
  counting are proved once here, for an arbitrary `Filter`.
 */
module Grids {
  import opened Cells

  type Grid = seq<seq<Cell>>

  /** (i, j) names a cell of `b`. */
  predicate InGrid(b: Grid, i: int, j: int)
  {
    0 <= i < |b| && 0 <= j < |b[i]|
  }

  /** `b` has `rows` rows of `cols` cells each. */
  predicate Shaped(b: Grid, rows: int, cols: int)
  {
    |b| == rows && forall i :: 0 <= i < |b| ==> |b[i]| == cols
  }

  predicate SameShape(b: Grid, b': Grid)
  {
    |b| == |b'| && forall i :: 0 <= i < |b| ==> |b[i]| == |b'[i]|
  }

  /** (i, j) is one of the up to eight cells touching (r, c). */
  predicate Adjacent(i: int, j: int, r: int, c: int)
  {
    (i, j) != (r, c) && -1 <= i - r <= 1 && -1 <= j - c <= 1
  }

  /** Properties of a cell at a position that the game counts. */
  datatype Filter =
    | Mine
    | Revealed
    | Flagged
    | MineNear(r: int, c: int)
    | All
    | Not(f: Filter)
    | And(f: Filter, g: Filter)

  predicate Holds(f: Filter, i: int, j: int, x: Cell)
  {
    match f
    case Mine => x.isBomb
    case Revealed => x.isRevealed
    case Flagged => x.isFlagged
    case MineNear(r, c) => x.isBomb && Adjacent(i, j, r, c)
    case All => true
    case Not(g) => !Holds(g, i, j, x)
    case And(g, h) => Holds(g, i, j, x) && Holds(h, i, j, x)
  }

  function Ind(f: Filter, i: int, j: int, x: Cell): nat
  {
    if Holds(f, i, j, x) then 1 else 0
  }

  /** Number of cells of row `i` (held in `row`) satisfying `f`. */
  function CountRow(row: seq<Cell>, i: int, f: Filter): nat
  {
    if |row| == 0 then 0
    else CountRow(row[..|row| - 1], i, f) + Ind(f, i, |row| - 1, row[|row| - 1])
  }

  /** Number of cells of `b` satisfying `f`. */
  function Count(b: Grid, f: Filter): nat
  {
    if |b| == 0 then 0
    else Count(b[..|b| - 1], f) + CountRow(b[|b| - 1], |b| - 1, f)
  }

  /** The board with the cell at (i, j) replaced by `x`. */
  function Put(b: Grid, i: int, j: int, x: Cell): (b': Grid)
    requires InGrid(b, i, j)
    ensures SameShape(b, b')
    ensures b'[i][j] == x
    ensures forall p, q :: InGrid(b, p, q) && (p, q) != (i, j) ==> b'[p][q] == b[p][q]
  {
    b[i := b[i][j := x]]
  }

  // ---------------------------------------------------------------------------
  // Replacing one cell changes every count by at most one.

  lemma {:induction false} CountRowUpdate(row: seq<Cell>, i: int, j: int, x: Cell, f: Filter)
    requires 0 <= j < |row|
    ensures CountRow(row[j := x], i, f) == CountRow(row, i, f) - Ind(f, i, j, row[j]) + Ind(f, i, j, x)
    decreases |row|
  {
    var n := |row|;
    if j == n - 1 {
      assert row[j := x][..n - 1] == row[..n - 1];
    } else {
      assert row[j := x][..n - 1] == row[..n - 1][j := x];
      CountRowUpdate(row[..n - 1], i, j, x, f);
    }
  }

  lemma {:induction false} CountUpdate(b: Grid, i: int, j: int, x: Cell, f: Filter)
    requires InGrid(b, i, j)
    ensures Count(Put(b, i, j, x), f) == Count(b, f) - Ind(f, i, j, b[i][j]) + Ind(f, i, j, x)
    decreases |b|
  {
    var n := |b|;
    var b' := Put(b, i, j, x);
    if i == n - 1 {
      assert b'[..n - 1] == b[..n - 1];
      CountRowUpdate(b[i], i, j, x, f);
    } else {
      assert b'[..n - 1] == Put(b[..n - 1], i, j, x);
      CountUpdate(b[..n - 1], i, j, x, f);
    }
  }

  // ---------------------------------------------------------------------------
  // Two boards of the same shape whose filters agree cell by cell have equal counts.

  lemma {:induction false} CountRowCongruent(row: seq<Cell>, i: int, f: Filter, row': seq<Cell>, i': int, f': Filter)
    requires |row| == |row'|
    requires forall j :: 0 <= j < |row| ==> Holds(f, i, j, row[j]) == Holds(f', i', j, row'[j])
    ensures CountRow(row, i, f) == CountRow(row', i', f')
    decreases |row|
  {
    if |row| > 0 {
      CountRowCongruent(row[..|row| - 1], i, f, row'[..|row| - 1], i', f');
    }
  }

  lemma {:induction false} CountCongruent(b: Grid, f: Filter, b': Grid, f': Filter)
    requires SameShape(b, b')
    requires forall i, j :: InGrid(b, i, j) ==> Holds(f, i, j, b[i][j]) == Holds(f', i, j, b'[i][j])
    ensures Count(b, f) == Count(b', f')
    decreases |b|
  {
    var n := |b|;
    if n > 0 {
      CountCongruent(b[..n - 1], f, b'[..n - 1], f');
      CountRowCongruent(b[n - 1], n - 1, f, b'[n - 1], n - 1, f');
    }
  }

  // ---------------------------------------------------------------------------
  // Splitting a count along a second filter.

  lemma {:induction false} CountRowSplit(row: seq<Cell>, i: int, f: Filter, g: Filter)
    ensures CountRow(row, i, f) == CountRow(row, i, And(f, g)) + CountRow(row, i, And(f, Not(g)))
    decreases |row|
  {
    if |row| > 0 {
      var j, x := |row| - 1, row[|row| - 1];
      CountRowSplit(row[..j], i, f, g);
      assert Holds(Not(g), i, j, x) == !Holds(g, i, j, x);
      assert Ind(f, i, j, x) == Ind(And(f, g), i, j, x) + Ind(And(f, Not(g)), i, j, x);
    }
  }

  lemma {:induction false} CountSplit(b: Grid, f: Filter, g: Filter)
    ensures Count(b, f) == Count(b, And(f, g)) + Count(b, And(f, Not(g)))
    decreases |b|
  {
    if |b| > 0 {
      CountSplit(b[..|b| - 1], f, g);
      CountRowSplit(b[|b| - 1], |b| - 1, f, g);
    }
  }

  /** A filter holds of no cell exactly when its count is zero. */
  lemma {:induction false} CountRowZero(row: seq<Cell>, i: int, f: Filter)
    ensures CountRow(row, i, f) == 0 <==> forall j :: 0 <= j < |row| ==> !Holds(f, i, j, row[j])
    decreases |row|
  {
    var n := |row|;
    if n > 0 {
      var pre := row[..n - 1];
      CountRowZero(pre, i, f);
      assert forall j :: 0 <= j < n - 1 ==> pre[j] == row[j];
    }
  }

  lemma {:induction false} CountZero(b: Grid, f: Filter)
    ensures Count(b, f) == 0 <==> forall i, j :: InGrid(b, i, j) ==> !Holds(f, i, j, b[i][j])
    decreases |b|
  {
    var n := |b|;
    if n > 0 {
      var pre := b[..n - 1];
      CountZero(pre, f);
      CountRowZero(b[n - 1], n - 1, f);
      assert forall i :: 0 <= i < n - 1 ==> pre[i] == b[i];
    }
  }

  /** A rows x cols board has rows * cols cells. */
  lemma {:induction false} CountAll(b: Grid, rows: nat, cols: nat)
    requires Shaped(b, rows, cols)
    ensures Count(b, All) == rows * cols
    decreases rows
  {
    if rows > 0 {
      CountRowAll(b[rows - 1], rows - 1);
      CountAll(b[..rows - 1], rows - 1, cols);
      assert (rows - 1) * cols + cols == rows * cols;
    }
  }

  lemma {:induction false} CountRowAll(row: seq<Cell>, i: int)
    ensures CountRow(row, i, All) == |row|
    decreases |row|
  {
    if |row| > 0 {
      CountRowAll(row[..|row| - 1], i);
    }
  }

  /** Every cell either satisfies a filter or its negation. */
  lemma CountComplement(b: Grid, f: Filter)
    ensures Count(b, f) + Count(b, Not(f)) == Count(b, All)
  {
    CountSplit(b, All, f);
    CountCongruent(b, And(All, f), b, f);
    CountCongruent(b, And(All, Not(f)), b, Not(f));
  }
}
