/**
  The recursive flood fill (`floodReveal`) that uncovers the region around a
  cell with no neighbouring mines.
 */
module Flood {
  import opened Cells
  import opened Grids
  import opened Neighbors
  import opened Draws

  /** A cell the flood may uncover: hidden, unflagged and safe. */
  predicate Openable(x: Cell)
  {
    !x.isRevealed && !x.isFlagged && !x.isBomb
  }

  /** `b'` is `b` with some openable cells revealed and nothing else changed. */
  ghost predicate RevealsSafe(b: Grid, b': Grid)
  {
    SameShape(b, b') &&
    forall i, j :: InGrid(b, i, j) ==>
      b'[i][j] == b[i][j] || (Openable(b[i][j]) && b'[i][j] == SetRevealed(b[i][j], true))
  }

  /** Neighbour k of (r, c) is off the board, flagged, a mine, or already revealed. */
  ghost predicate NeighborOpen(b: Grid, r: int, c: int, k: int)
  {
    var p := Nb(r, c, k);
    InGrid(b, p.0, p.1) && !b[p.0][p.1].isFlagged && !b[p.0][p.1].isBomb ==> b[p.0][p.1].isRevealed
  }

  /** Every safe, unflagged neighbour of (r, c) is revealed. */
  ghost predicate AllNeighborsOpen(b: Grid, r: int, c: int)
  {
    forall k :: 0 <= k < 9 && k != 4 ==> NeighborOpen(b, r, c, k)
  }

  /** (i, j) went from hidden in `b` to revealed in `b'`, and no mine touches it. */
  ghost predicate NewZero(b: Grid, b': Grid, i: int, j: int)
  {
    InGrid(b, i, j) && InGrid(b', i, j) && !b[i][j].isRevealed && b'[i][j].isRevealed && b'[i][j].neighborBombs == 0
  }

  /**
    floodReveal(r, c) from offset k on: scan the neighbours of (r, c) in order;
    reveal each one that is hidden, unflagged and safe, and recurse into it when
    its count is zero. Returns the new board and the number of cells revealed,
    which the game adds to its revealed-cell counter. Every step reveals a
    hidden cell, so the number of hidden cells bounds the recursion.
   */
  function FloodFrom(b: Grid, r: int, c: int, k: nat): (res: (Grid, nat))
    requires k <= 9
    ensures RevealsSafe(b, res.0)
    ensures Count(res.0, Revealed) == Count(b, Revealed) + res.1
    ensures Count(res.0, Not(Revealed)) + res.1 == Count(b, Not(Revealed))
    decreases Count(b, Not(Revealed)), 9 - k
  {
    if k == 9 then (b, 0)
    else if k == 4 then FloodFrom(b, r, c, k + 1)
    else
      var p := Nb(r, c, k);
      if !InGrid(b, p.0, p.1) || !Openable(b[p.0][p.1]) then FloodFrom(b, r, c, k + 1)
      else
        var x := SetRevealed(b[p.0][p.1], true);
        var b1 := Put(b, p.0, p.1, x);
        CountUpdate(b, p.0, p.1, x, Revealed);
        CountUpdate(b, p.0, p.1, x, Not(Revealed));
        var mid := if x.neighborBombs == 0 then FloodFrom(b1, p.0, p.1, 0) else (b1, 0);
        var last := FloodFrom(mid.0, r, c, k + 1);
        RevealsSafeStep(b, p.0, p.1, mid.0);
        RevealsSafeTransitive(b, mid.0, last.0);
        (last.0, 1 + mid.1 + last.1)
  }

  /** floodReveal(r, c). */
  function FloodReveal(b: Grid, r: int, c: int): (res: (Grid, nat))
    ensures RevealsSafe(b, res.0)
    ensures Count(res.0, Revealed) == Count(b, Revealed) + res.1
    ensures res.1 <= Count(b, Not(Revealed))
  {
    FloodFrom(b, r, c, 0)
  }

  // ---------------------------------------------------------------------------

  lemma RevealsSafeTransitive(a: Grid, b: Grid, c: Grid)
    requires RevealsSafe(a, b) && RevealsSafe(b, c)
    ensures RevealsSafe(a, c)
  {
    forall i, j | InGrid(a, i, j)
      ensures c[i][j] == a[i][j] || (Openable(a[i][j]) && c[i][j] == SetRevealed(a[i][j], true))
    {
      assert InGrid(b, i, j);
    }
  }

  /** Revealing one openable cell and then flooding further is still a safe reveal. */
  lemma RevealsSafeStep(b: Grid, i: int, j: int, b': Grid)
    requires InGrid(b, i, j) && Openable(b[i][j])
    requires RevealsSafe(Put(b, i, j, SetRevealed(b[i][j], true)), b')
    ensures RevealsSafe(b, b')
  {
    var b1 := Put(b, i, j, SetRevealed(b[i][j], true));
    forall p, q | InGrid(b, p, q)
      ensures b'[p][q] == b[p][q] || (Openable(b[p][q]) && b'[p][q] == SetRevealed(b[p][q], true))
    {
      if (p, q) != (i, j) {
        assert b1[p][q] == b[p][q];
      } else {
        assert b'[p][q] == b1[p][q];
      }
    }
  }

  /** Revealing cells never closes a neighbour that was open. */
  lemma NeighborOpenStays(b: Grid, b': Grid, r: int, c: int, k: int)
    requires RevealsSafe(b, b') && NeighborOpen(b, r, c, k)
    ensures NeighborOpen(b', r, c, k)
  {
  }

  lemma AllNeighborsOpenStays(b: Grid, b': Grid, r: int, c: int)
    requires RevealsSafe(b, b') && AllNeighborsOpen(b, r, c)
    ensures AllNeighborsOpen(b', r, c)
  {
    forall k | 0 <= k < 9 && k != 4
      ensures NeighborOpen(b', r, c, k)
    {
      NeighborOpenStays(b, b', r, c, k);
    }
  }

  /**
    What a flood from offset k of (r, c) guarantees on the board it leaves: every
    neighbour of (r, c) from offset k on, and every neighbour of every zero cell
    it uncovered, is revealed unless it is flagged or a mine.
   */
  ghost predicate Closed(b: Grid, b': Grid, r: int, c: int, k: int)
  {
    (forall k' :: k <= k' < 9 && k' != 4 ==> NeighborOpen(b', r, c, k')) &&
    (forall i, j :: NewZero(b, b', i, j) ==> AllNeighborsOpen(b', i, j))
  }

  /** The flood leaves no gap. */
  lemma {:induction false} FloodCloses(b: Grid, r: int, c: int, k: nat)
    requires k <= 9
    ensures Closed(b, FloodFrom(b, r, c, k).0, r, c, k)
    decreases Count(b, Not(Revealed)), 9 - k
  {
    var b' := FloodFrom(b, r, c, k).0;
    if k == 9 {
    } else if k == 4 {
      FloodCloses(b, r, c, k + 1);
    } else {
      var p := Nb(r, c, k);
      if !InGrid(b, p.0, p.1) || !Openable(b[p.0][p.1]) {
        FloodCloses(b, r, c, k + 1);
        SkipCloses(b, b', r, c, k);
      } else {
        var x := SetRevealed(b[p.0][p.1], true);
        var b1 := Put(b, p.0, p.1, x);
        CountUpdate(b, p.0, p.1, x, Not(Revealed));
        var mid := if x.neighborBombs == 0 then FloodFrom(b1, p.0, p.1, 0) else (b1, 0);
        var b2 := mid.0;
        assert b' == FloodFrom(b2, r, c, k + 1).0;
        FloodCloses(b2, r, c, k + 1);
        if x.neighborBombs == 0 {
          FloodCloses(b1, p.0, p.1, 0);
        }
        RevealCloses(b, b1, b2, b', r, c, k);
      }
    }
  }

  /** Offset k was skipped: it was already open, and stays open. */
  lemma SkipCloses(b: Grid, b': Grid, r: int, c: int, k: int)
    requires 0 <= k < 9 && k != 4
    requires var p := Nb(r, c, k); !InGrid(b, p.0, p.1) || !Openable(b[p.0][p.1])
    requires RevealsSafe(b, b') && Closed(b, b', r, c, k + 1)
    ensures Closed(b, b', r, c, k)
  {
    assert NeighborOpen(b, r, c, k);
    NeighborOpenStays(b, b', r, c, k);
  }

  /** Offset k was revealed in b1, flooded from in b2 when its count is zero, and the scan went on to b'. */
  lemma RevealCloses(b: Grid, b1: Grid, b2: Grid, b': Grid, r: int, c: int, k: int)
    requires 0 <= k < 9 && k != 4
    requires var p := Nb(r, c, k);
      (InGrid(b, p.0, p.1) && Openable(b[p.0][p.1]) && b1 == Put(b, p.0, p.1, SetRevealed(b[p.0][p.1], true)))
    requires var p := Nb(r, c, k);
      if b1[p.0][p.1].neighborBombs == 0 then Closed(b1, b2, p.0, p.1, 0) else b2 == b1
    requires RevealsSafe(b1, b2) && RevealsSafe(b2, b')
    requires Closed(b2, b', r, c, k + 1)
    ensures Closed(b, b', r, c, k)
  {
    var p := Nb(r, c, k);
    assert NeighborOpen(b1, r, c, k);
    NeighborOpenStays(b1, b2, r, c, k);
    NeighborOpenStays(b2, b', r, c, k);
    forall i, j | NewZero(b, b', i, j)
      ensures AllNeighborsOpen(b', i, j)
    {
      if NewZero(b2, b', i, j) {
      } else if (i, j) == p {
        AllNeighborsOpenStays(b2, b', i, j);
      } else {
        assert b1[i][j] == b[i][j];
        assert NewZero(b1, b2, i, j);
        AllNeighborsOpenStays(b2, b', i, j);
      }
    }
  }

  // ---------------------------------------------------------------------------
  // The flood goes no further than the region it is meant to open.

  /** Neighbour k of p is off the board, not openable on `b`, or in `z`. */
  ghost predicate OpenNeighborIn(b: Grid, z: set<Pos>, p: Pos, k: int)
  {
    var q := Nb(p.0, p.1, k);
    InGrid(b, q.0, q.1) && Openable(b[q.0][q.1]) ==> q in z
  }

  /** p is on the board and records no neighbouring mine. */
  predicate ZeroAt(b: Grid, p: Pos)
  {
    InGrid(b, p.0, p.1) && b[p.0][p.1].neighborBombs == 0
  }

  /** `z` holds every openable neighbour of each of its zero cells. */
  ghost predicate ZoneClosed(b: Grid, z: set<Pos>)
  {
    forall p, k :: p in z && ZeroAt(b, p) && 0 <= k < 9 && k != 4 ==> OpenNeighborIn(b, z, p, k)
  }

  /** `z` holds every openable neighbour of (r, c) from offset k on. */
  ghost predicate ScanIn(b: Grid, z: set<Pos>, r: int, c: int, k: int)
  {
    forall k' :: k <= k' < 9 && k' != 4 ==> OpenNeighborIn(b, z, (r, c), k')
  }

  /** Every cell hidden in `b` and uncovered in `b'` lies in `z`. */
  ghost predicate UncoveredIn(b: Grid, b': Grid, z: set<Pos>)
  {
    forall i, j :: InGrid(b, i, j) && InGrid(b', i, j) && !b[i][j].isRevealed && b'[i][j].isRevealed ==> (i, j) in z
  }

  /** Revealing cells only makes fewer cells openable and keeps every count. */
  lemma ZoneClosedStays(b: Grid, b': Grid, z: set<Pos>)
    requires RevealsSafe(b, b') && ZoneClosed(b, z)
    ensures ZoneClosed(b', z)
  {
    forall p, k | p in z && ZeroAt(b', p) && 0 <= k < 9 && k != 4
      ensures OpenNeighborIn(b', z, p, k)
    {
      assert ZeroAt(b, p);
      assert OpenNeighborIn(b, z, p, k);
    }
  }

  lemma ScanInStays(b: Grid, b': Grid, z: set<Pos>, r: int, c: int, k: int)
    requires RevealsSafe(b, b') && ScanIn(b, z, r, c, k)
    ensures ScanIn(b', z, r, c, k)
  {
    forall k' | k <= k' < 9 && k' != 4
      ensures OpenNeighborIn(b', z, (r, c), k')
    {
      assert OpenNeighborIn(b, z, (r, c), k');
    }
  }

  /**
    The least-region half of the flood: whatever set `z` holds the openable
    neighbours of (r, c) still to be scanned and is closed under taking the
    openable neighbours of its zero cells, the flood uncovers nothing outside
    it. With `FloodCloses`, the flood uncovers exactly the least such set.
   */
  lemma {:induction false} FloodStaysIn(b: Grid, r: int, c: int, k: nat, z: set<Pos>)
    requires k <= 9 && ScanIn(b, z, r, c, k) && ZoneClosed(b, z)
    ensures UncoveredIn(b, FloodFrom(b, r, c, k).0, z)
    decreases Count(b, Not(Revealed)), 9 - k
  {
    var b' := FloodFrom(b, r, c, k).0;
    if k == 9 {
    } else if k == 4 {
      FloodStaysIn(b, r, c, k + 1, z);
    } else {
      var p := Nb(r, c, k);
      if !InGrid(b, p.0, p.1) || !Openable(b[p.0][p.1]) {
        FloodStaysIn(b, r, c, k + 1, z);
      } else {
        assert OpenNeighborIn(b, z, (r, c), k);
        var x := SetRevealed(b[p.0][p.1], true);
        var b1 := Put(b, p.0, p.1, x);
        CountUpdate(b, p.0, p.1, x, Not(Revealed));
        RevealsSafeStep(b, p.0, p.1, b1);
        ZoneClosedStays(b, b1, z);
        var mid := if x.neighborBombs == 0 then FloodFrom(b1, p.0, p.1, 0) else (b1, 0);
        var b2 := mid.0;
        if x.neighborBombs == 0 {
          assert ScanIn(b1, z, p.0, p.1, 0) by {
            forall k' | 0 <= k' < 9 && k' != 4
              ensures OpenNeighborIn(b1, z, p, k')
            {
              assert ZeroAt(b1, p);
            }
          }
          FloodStaysIn(b1, p.0, p.1, 0, z);
        }
        RevealsSafeStep(b, p.0, p.1, b2);
        ZoneClosedStays(b, b2, z);
        ScanInStays(b, b2, z, r, c, k + 1);
        assert b' == FloodFrom(b2, r, c, k + 1).0;
        FloodStaysIn(b2, r, c, k + 1, z);
        UncoveredInStep(b, b1, b2, b', p, z);
      }
    }
  }

  /** Uncovering p in `z`, then flooding within `z` twice, stays within `z`. */
  lemma UncoveredInStep(b: Grid, b1: Grid, b2: Grid, b': Grid, p: Pos, z: set<Pos>)
    requires InGrid(b, p.0, p.1) && b1 == Put(b, p.0, p.1, SetRevealed(b[p.0][p.1], true)) && p in z
    requires RevealsSafe(b1, b2) && RevealsSafe(b2, b')
    requires UncoveredIn(b1, b2, z) && UncoveredIn(b2, b', z)
    ensures UncoveredIn(b, b', z)
  {
  }
}
