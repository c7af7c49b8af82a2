/**
  The random source. The game asks `java.util.Random` for a row and a column
  each time it tries to place a mine; here those answers are an explicit,
  finite sequence of positions that the placement consumes from the front.
 */
module Draws {

  /** A (row, column) position on the grid. */
  type Pos = (int, int)

  /**
    The outcome of a computation that consumes random draws: the value together
    with the draws still unused, or `Exhausted` when the sequence ran out before
    the computation finished (the Java loop would simply keep drawing).
   */
  datatype Drawn<T> = Drawn(value: T, rest: seq<Pos>) | Exhausted

  /** Every draw is a position `nextInt(rows)`, `nextInt(cols)` can return. */
  predicate Within(draws: seq<Pos>, rows: int, cols: int)
  {
    forall n :: 0 <= n < |draws| ==> 0 <= draws[n].0 < rows && 0 <= draws[n].1 < cols
  }

  /** `rest` is what remains of `draws` after some draws were taken from the front. */
  predicate IsSuffix(rest: seq<Pos>, draws: seq<Pos>)
  {
    |rest| <= |draws| && rest == draws[|draws| - |rest|..]
  }

  lemma SuffixTransitive(a: seq<Pos>, b: seq<Pos>, c: seq<Pos>)
    requires IsSuffix(a, b) && IsSuffix(b, c)
    ensures IsSuffix(a, c)
  {
  }

  lemma SuffixWithin(rest: seq<Pos>, draws: seq<Pos>, rows: int, cols: int)
    requires IsSuffix(rest, draws) && Within(draws, rows, cols)
    ensures Within(rest, rows, cols)
  {
    forall n | 0 <= n < |rest|
      ensures 0 <= rest[n].0 < rows && 0 <= rest[n].1 < cols
    {
      assert rest[n] == draws[|draws| - |rest| + n];
    }
  }
}
