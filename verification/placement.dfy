/**
  Building a mine layout: the empty board (`initBoard`), placement of mines by
  rejection sampling (`placeBombs`), and the rebuild that keeps the first
  clicked cell and its neighbours free of mines (`regenerateBoardWithout`).
 */
module Placement {
  import opened Cells
  import opened Grids
  import opened Draws
  import opened Neighbors

  /** initBoard: a rows x cols board of default cells. */
  function InitBoard(rows: nat, cols: nat): (b: Grid)
    ensures Shaped(b, rows, cols)
    ensures forall i, j :: InGrid(b, i, j) ==> b[i][j] == NewCell()
    ensures Count(b, Mine) == 0 && Count(b, Revealed) == 0 && Count(b, Flagged) == 0
  {
    var b := seq(rows, _ => seq(cols, _ => NewCell()));
    CountZero(b, Mine);
    CountZero(b, Revealed);
    CountZero(b, Flagged);
    b
  }

  /** Positions where rejection sampling refuses to put a mine. */
  datatype Zone = Nowhere | Around(r: int, c: int)

  /** The 3x3 block around (r, c): |i - r| <= 1 and |j - c| <= 1. */
  predicate Excluded(z: Zone, i: int, j: int)
  {
    match z
    case Nowhere => false
    case Around(r, c) => -1 <= i - r <= 1 && -1 <= j - c <= 1
  }

  /**
    `b'` is `b` with some extra mines, each on a cell outside the zone that had
    none; no other field of any cell differs.
   */
  ghost predicate AddsMines(b: Grid, b': Grid, z: Zone)
  {
    SameShape(b, b') &&
    forall i, j :: InGrid(b, i, j) ==>
      b'[i][j] == b[i][j] || (!b[i][j].isBomb && !Excluded(z, i, j) && b'[i][j] == SetBomb(b[i][j], true))
  }

  /**
    The rejection-sampling loop of placeBombs and regenerateBoardWithout, with
    `want` mines still to place: each draw is accepted only if it lies outside
    the zone and on a cell without a mine. Exhausted when the draws run out first.
   */
  function PlaceFrom(b: Grid, rows: nat, cols: nat, want: nat, z: Zone, draws: seq<Pos>): (r: Drawn<Grid>)
    requires Shaped(b, rows, cols) && Within(draws, rows, cols)
    ensures want == 0 ==> r == Drawn(b, draws)
    ensures r.Drawn? ==> Shaped(r.value, rows, cols) && IsSuffix(r.rest, draws)
    ensures r.Drawn? ==> AddsMines(b, r.value, z)
    ensures r.Drawn? ==> Count(r.value, Mine) == Count(b, Mine) + want
    decreases |draws|
  {
    if want == 0 then Drawn(b, draws)
    else if |draws| == 0 then Exhausted
    else
      var i, j := draws[0].0, draws[0].1;
      if Excluded(z, i, j) || b[i][j].isBomb then
        PlaceFrom(b, rows, cols, want, z, draws[1..])
      else
        var b1 := Put(b, i, j, SetBomb(b[i][j], true));
        CountUpdate(b, i, j, SetBomb(b[i][j], true), Mine);
        var r := PlaceFrom(b1, rows, cols, want - 1, z, draws[1..]);
        if r.Drawn? then AddsMinesStep(b, i, j, r.value, z); r else r
  }

  lemma AddsMinesStep(b: Grid, i: int, j: int, b': Grid, z: Zone)
    requires InGrid(b, i, j) && !b[i][j].isBomb && !Excluded(z, i, j)
    requires AddsMines(Put(b, i, j, SetBomb(b[i][j], true)), b', z)
    ensures AddsMines(b, b', z)
  {
    var b1 := Put(b, i, j, SetBomb(b[i][j], true));
    forall p, q | InGrid(b, p, q)
      ensures b'[p][q] == b[p][q] || (!b[p][q].isBomb && !Excluded(z, p, q) && b'[p][q] == SetBomb(b[p][q], true))
    {
      if (p, q) != (i, j) {
        assert b1[p][q] == b[p][q];
      } else {
        assert b1[p][q] == SetBomb(b[p][q], true);
        assert b'[p][q] == b1[p][q];
      }
    }
  }

  /** The loop would put a mine at p: on the board, outside the zone, and not a mine yet. */
  predicate Accepts(b: Grid, z: Zone, p: Pos)
  {
    InGrid(b, p.0, p.1) && !Excluded(z, p.0, p.1) && !b[p.0][p.1].isBomb
  }

  /** The distinct positions among the draws where the loop would put a mine on `b`. */
  ghost function Takeable(b: Grid, z: Zone, draws: seq<Pos>): set<Pos>
  {
    set n | 0 <= n < |draws| && Accepts(b, z, draws[n]) :: draws[n]
  }

  /**
    Rejection sampling ends exactly when the draws hold enough distinct
    acceptable positions: a position drawn twice, inside the zone or already
    a mine is thrown away.
   */
  lemma {:induction false} PlaceFromSucceeds(b: Grid, rows: nat, cols: nat, want: nat, z: Zone, draws: seq<Pos>)
    requires Shaped(b, rows, cols) && Within(draws, rows, cols)
    ensures PlaceFrom(b, rows, cols, want, z, draws).Drawn? <==> want <= |Takeable(b, z, draws)|
    decreases |draws|
  {
    if want == 0 {
    } else if |draws| == 0 {
      assert Takeable(b, z, draws) == {};
    } else {
      var p := draws[0];
      var rest := draws[1..];
      SuffixWithin(rest, draws, rows, cols);
      if Excluded(z, p.0, p.1) || b[p.0][p.1].isBomb {
        TakeableSkip(b, z, draws);
        PlaceFromSucceeds(b, rows, cols, want, z, rest);
      } else {
        var b1 := Put(b, p.0, p.1, SetBomb(b[p.0][p.1], true));
        TakeableTake(b, z, draws);
        assert p in Takeable(b, z, draws) by {
          assert Accepts(b, z, draws[0]);
        }
        PlaceFromSucceeds(b1, rows, cols, want - 1, z, rest);
      }
    }
  }

  /** A rejected first draw adds nothing. */
  lemma TakeableSkip(b: Grid, z: Zone, draws: seq<Pos>)
    requires |draws| > 0 && !Accepts(b, z, draws[0])
    ensures Takeable(b, z, draws) == Takeable(b, z, draws[1..])
  {
    var rest := draws[1..];
    forall x | x in Takeable(b, z, draws)
      ensures x in Takeable(b, z, rest)
    {
      var n :| 0 <= n < |draws| && Accepts(b, z, draws[n]) && draws[n] == x;
      assert n > 0 && rest[n - 1] == x;
    }
    forall x | x in Takeable(b, z, rest)
      ensures x in Takeable(b, z, draws)
    {
      var n :| 0 <= n < |rest| && Accepts(b, z, rest[n]) && rest[n] == x;
      assert draws[n + 1] == x;
    }
  }

  /** An accepted first draw becomes a mine, so it leaves the set and nothing else does. */
  lemma TakeableTake(b: Grid, z: Zone, draws: seq<Pos>)
    requires |draws| > 0 && Accepts(b, z, draws[0])
    ensures var p := draws[0];
      Takeable(Put(b, p.0, p.1, SetBomb(b[p.0][p.1], true)), z, draws[1..]) == Takeable(b, z, draws) - {p}
  {
    var p := draws[0];
    var rest := draws[1..];
    var b1 := Put(b, p.0, p.1, SetBomb(b[p.0][p.1], true));
    forall x | x in Takeable(b1, z, rest)
      ensures x in Takeable(b, z, draws) - {p}
    {
      var n :| 0 <= n < |rest| && Accepts(b1, z, rest[n]) && rest[n] == x;
      assert draws[n + 1] == x;
    }
    forall x | x in Takeable(b, z, draws) - {p}
      ensures x in Takeable(b1, z, rest)
    {
      var n :| 0 <= n < |draws| && Accepts(b, z, draws[n]) && draws[n] == x;
      assert n > 0 && rest[n - 1] == x;
    }
  }

  /** placeBombs: add `bombs` mines anywhere on the board, one accepted draw at a time. */
  function PlaceBombs(b: Grid, rows: nat, cols: nat, bombs: nat, draws: seq<Pos>): (r: Drawn<Grid>)
    requires Shaped(b, rows, cols) && Within(draws, rows, cols)
    ensures r.Drawn? ==> Shaped(r.value, rows, cols) && IsSuffix(r.rest, draws)
    ensures r.Drawn? ==> AddsMines(b, r.value, Nowhere)
    ensures r.Drawn? ==> Count(r.value, Mine) == Count(b, Mine) + bombs
  {
    PlaceFrom(b, rows, cols, bombs, Nowhere, draws)
  }

  /** The positions of the mines on a board. */
  ghost function Mines(b: Grid): set<Pos>
  {
    set i, j | 0 <= i < |b| && 0 <= j < |b[i]| && b[i][j].isBomb :: (i, j)
  }

  /** The draws the loop used: the prefix of `draws` in front of the unused `rest`. */
  function Used(draws: seq<Pos>, rest: seq<Pos>): seq<Pos>
    requires |rest| <= |draws|
  {
    draws[..|draws| - |rest|]
  }

  /**
    The mines rejection sampling adds are exactly the distinct acceptable
    positions among the draws it used, and there are `want` of them: every
    accepted draw becomes a mine, and an acceptable position drawn again later
    is rejected only because it already holds one.
   */
  lemma {:induction false} PlaceFromUsesDraws(b: Grid, rows: nat, cols: nat, want: nat, z: Zone, draws: seq<Pos>)
    requires Shaped(b, rows, cols) && Within(draws, rows, cols)
    ensures var r := PlaceFrom(b, rows, cols, want, z, draws);
      r.Drawn? ==> Mines(r.value) == Mines(b) + Takeable(b, z, Used(draws, r.rest))
    ensures var r := PlaceFrom(b, rows, cols, want, z, draws);
      r.Drawn? ==> |Takeable(b, z, Used(draws, r.rest))| == want
    decreases |draws|, 1
  {
    if want == 0 {
      assert Used(draws, draws) == [];
      assert Takeable(b, z, []) == {};
    } else if |draws| > 0 {
      var p := draws[0];
      if Excluded(z, p.0, p.1) || b[p.0][p.1].isBomb {
        UsesDrawsRejected(b, rows, cols, want, z, draws);
      } else {
        UsesDrawsAccepted(b, rows, cols, want, z, draws);
      }
    }
  }

  lemma {:induction false} UsesDrawsRejected(b: Grid, rows: nat, cols: nat, want: nat, z: Zone, draws: seq<Pos>)
    requires Shaped(b, rows, cols) && Within(draws, rows, cols)
    requires want > 0 && |draws| > 0 && !Accepts(b, z, draws[0])
    ensures var r := PlaceFrom(b, rows, cols, want, z, draws);
      r.Drawn? ==> Mines(r.value) == Mines(b) + Takeable(b, z, Used(draws, r.rest))
    ensures var r := PlaceFrom(b, rows, cols, want, z, draws);
      r.Drawn? ==> |Takeable(b, z, Used(draws, r.rest))| == want
    decreases |draws|, 0
  {
    var rest := draws[1..];
    SuffixWithin(rest, draws, rows, cols);
    var r := PlaceFrom(b, rows, cols, want, z, rest);
    assert PlaceFrom(b, rows, cols, want, z, draws) == r;
    if r.Drawn? {
      PlaceFromUsesDraws(b, rows, cols, want, z, rest);
      RejectStep(b, z, draws, r.value, r.rest);
    }
  }

  lemma {:induction false} UsesDrawsAccepted(b: Grid, rows: nat, cols: nat, want: nat, z: Zone, draws: seq<Pos>)
    requires Shaped(b, rows, cols) && Within(draws, rows, cols)
    requires want > 0 && |draws| > 0 && Accepts(b, z, draws[0])
    ensures var r := PlaceFrom(b, rows, cols, want, z, draws);
      r.Drawn? ==> Mines(r.value) == Mines(b) + Takeable(b, z, Used(draws, r.rest))
    ensures var r := PlaceFrom(b, rows, cols, want, z, draws);
      r.Drawn? ==> |Takeable(b, z, Used(draws, r.rest))| == want
    decreases |draws|, 0
  {
    var p := draws[0];
    var rest := draws[1..];
    SuffixWithin(rest, draws, rows, cols);
    var b1 := Put(b, p.0, p.1, SetBomb(b[p.0][p.1], true));
    var w: nat := want - 1;
    var r := PlaceFrom(b1, rows, cols, w, z, rest);
    assert PlaceFrom(b, rows, cols, want, z, draws) == r;
    if r.Drawn? {
      PlaceFromUsesDraws(b1, rows, cols, w, z, rest);
      var t := Takeable(b1, z, Used(rest, r.rest));
      assert |t| == w;
      AcceptStep(b, z, draws, want, r.value, r.rest);
    }
  }

  /** A rejected first draw: what the rest of the loop adds is what the whole loop adds. */
  lemma RejectStep(b: Grid, z: Zone, draws: seq<Pos>, b': Grid, rest: seq<Pos>)
    requires |draws| > 0 && !Accepts(b, z, draws[0]) && |rest| < |draws|
    requires Mines(b') == Mines(b) + Takeable(b, z, Used(draws[1..], rest))
    ensures Mines(b') == Mines(b) + Takeable(b, z, Used(draws, rest))
    ensures Takeable(b, z, Used(draws, rest)) == Takeable(b, z, Used(draws[1..], rest))
  {
    UsedCons(draws, rest);
    TakeableCons(b, z, draws[0], Used(draws[1..], rest));
  }

  /** An accepted first draw becomes a mine and joins the positions the rest of the loop adds. */
  lemma AcceptStep(b: Grid, z: Zone, draws: seq<Pos>, want: nat, b': Grid, rest: seq<Pos>)
    requires |draws| > 0 && Accepts(b, z, draws[0]) && |rest| < |draws| && want > 0
    requires var p := draws[0]; var b1 := Put(b, p.0, p.1, SetBomb(b[p.0][p.1], true));
      && Mines(b') == Mines(b1) + Takeable(b1, z, Used(draws[1..], rest))
      && |Takeable(b1, z, Used(draws[1..], rest))| == want - 1
    ensures Mines(b') == Mines(b) + Takeable(b, z, Used(draws, rest))
    ensures |Takeable(b, z, Used(draws, rest))| == want
  {
    var p := draws[0];
    var u := Used(draws[1..], rest);
    var b1 := Put(b, p.0, p.1, SetBomb(b[p.0][p.1], true));
    var t := Takeable(b, z, u);
    UsedCons(draws, rest);
    TakeableCons(b, z, p, u);
    assert Takeable(b, z, Used(draws, rest)) == {p} + t;
    MinesAfterMine(b, p);
    TakeableAfterMine(b, z, p, u);
    assert Mines(b') == (Mines(b) + {p}) + (t - {p});
    AddOne(Mines(b), t, p);
  }

  /** The draws consumed are the first draw followed by those the rest of the loop consumed. */
  lemma UsedCons(draws: seq<Pos>, rest: seq<Pos>)
    requires |rest| < |draws|
    ensures Used(draws, rest) == [draws[0]] + Used(draws[1..], rest)
  {
  }

  /** Set algebra for one accepted draw. */
  lemma AddOne<T>(m: set<T>, t: set<T>, p: T)
    ensures (m + {p}) + (t - {p}) == m + ({p} + t)
    ensures |{p} + t| == |t - {p}| + 1
  {
    assert {p} + t == (t - {p}) + {p};
  }

  /** Putting a mine on a safe cell adds exactly that position to the mines. */
  lemma MinesAfterMine(b: Grid, p: Pos)
    requires InGrid(b, p.0, p.1) && !b[p.0][p.1].isBomb
    ensures Mines(Put(b, p.0, p.1, SetBomb(b[p.0][p.1], true))) == Mines(b) + {p}
  {
    var b1 := Put(b, p.0, p.1, SetBomb(b[p.0][p.1], true));
    forall x | x in Mines(b1)
      ensures x in Mines(b) + {p}
    {
      if x != p {
        assert b1[x.0][x.1] == b[x.0][x.1];
      }
    }
    forall x | x in Mines(b) + {p}
      ensures x in Mines(b1)
    {
      if x != p {
        assert b1[x.0][x.1] == b[x.0][x.1];
      }
    }
  }

  lemma TakeableCons(b: Grid, z: Zone, p: Pos, s: seq<Pos>)
    ensures Takeable(b, z, [p] + s) == (if Accepts(b, z, p) then {p} else {}) + Takeable(b, z, s)
  {
    var t := [p] + s;
    forall x | x in Takeable(b, z, t)
      ensures x in (if Accepts(b, z, p) then {p} else {}) + Takeable(b, z, s)
    {
      var n :| 0 <= n < |t| && Accepts(b, z, t[n]) && t[n] == x;
      if n > 0 {
        assert s[n - 1] == x;
      }
    }
    forall x | x in Takeable(b, z, s)
      ensures x in Takeable(b, z, t)
    {
      var n :| 0 <= n < |s| && Accepts(b, z, s[n]) && s[n] == x;
      assert t[n + 1] == x;
    }
    if Accepts(b, z, p) {
      assert t[0] == p;
    }
  }

  /** Once p holds a mine the loop no longer accepts it, and nothing else changes. */
  lemma TakeableAfterMine(b: Grid, z: Zone, p: Pos, s: seq<Pos>)
    requires InGrid(b, p.0, p.1)
    ensures Takeable(Put(b, p.0, p.1, SetBomb(b[p.0][p.1], true)), z, s) == Takeable(b, z, s) - {p}
  {
    var b1 := Put(b, p.0, p.1, SetBomb(b[p.0][p.1], true));
    forall x | x in Takeable(b1, z, s)
      ensures x in Takeable(b, z, s) - {p}
    {
      var n :| 0 <= n < |s| && Accepts(b1, z, s[n]) && s[n] == x;
      assert b1[x.0][x.1] == b[x.0][x.1];
      assert Accepts(b, z, s[n]);
    }
    forall x | x in Takeable(b, z, s) - {p}
      ensures x in Takeable(b1, z, s)
    {
      var n :| 0 <= n < |s| && Accepts(b, z, s[n]) && s[n] == x;
      assert b1[x.0][x.1] == b[x.0][x.1];
      assert Accepts(b1, z, s[n]);
    }
  }

  /** The distinct positions among the draws outside the zone. */
  ghost function DrawnOutside(z: Zone, draws: seq<Pos>): set<Pos>
  {
    set n | 0 <= n < |draws| && !Excluded(z, draws[n].0, draws[n].1) :: draws[n]
  }

  /** On a board without mines every drawn position outside the zone is acceptable. */
  lemma TakeableOnEmpty(b: Grid, rows: nat, cols: nat, z: Zone, draws: seq<Pos>)
    requires Shaped(b, rows, cols) && Within(draws, rows, cols)
    requires forall i, j :: InGrid(b, i, j) ==> !b[i][j].isBomb
    ensures Takeable(b, z, draws) == DrawnOutside(z, draws)
  {
    forall x | x in DrawnOutside(z, draws)
      ensures x in Takeable(b, z, draws)
    {
      var n :| 0 <= n < |draws| && !Excluded(z, draws[n].0, draws[n].1) && draws[n] == x;
      assert Accepts(b, z, draws[n]);
    }
  }

  /** placeBombs on the empty board ends exactly when the draws hold `bombs` distinct positions. */
  lemma PlaceBombsSucceeds(rows: nat, cols: nat, bombs: nat, draws: seq<Pos>)
    requires Within(draws, rows, cols)
    ensures PlaceBombs(InitBoard(rows, cols), rows, cols, bombs, draws).Drawn? <==> bombs <= |DrawnOutside(Nowhere, draws)|
  {
    var b := InitBoard(rows, cols);
    TakeableOnEmpty(b, rows, cols, Nowhere, draws);
    PlaceFromSucceeds(b, rows, cols, bombs, Nowhere, draws);
  }

  /** placeBombs on the empty board puts its mines exactly on the distinct positions among the draws it used. */
  lemma PlaceBombsUsesDraws(rows: nat, cols: nat, bombs: nat, draws: seq<Pos>)
    requires Within(draws, rows, cols)
    ensures var r := PlaceBombs(InitBoard(rows, cols), rows, cols, bombs, draws);
      r.Drawn? ==>
        && Mines(r.value) == DrawnOutside(Nowhere, Used(draws, r.rest))
        && |Mines(r.value)| == bombs
  {
    var b := InitBoard(rows, cols);
    var r := PlaceBombs(b, rows, cols, bombs, draws);
    PlaceFromUsesDraws(b, rows, cols, bombs, Nowhere, draws);
    if r.Drawn? {
      UsedWithin(draws, r.rest, rows, cols);
      TakeableOnEmpty(b, rows, cols, Nowhere, Used(draws, r.rest));
      NoMines(b);
    }
  }

  /** The draws a loop used are draws too. */
  lemma UsedWithin(draws: seq<Pos>, rest: seq<Pos>, rows: int, cols: int)
    requires |rest| <= |draws| && Within(draws, rows, cols)
    ensures Within(Used(draws, rest), rows, cols)
  {
    var u := Used(draws, rest);
    forall n | 0 <= n < |u|
      ensures 0 <= u[n].0 < rows && 0 <= u[n].1 < cols
    {
      assert u[n] == draws[n];
    }
  }

  lemma NoMines(b: Grid)
    requires forall i, j :: InGrid(b, i, j) ==> !b[i][j].isBomb
    ensures Mines(b) == {}
  {
  }

  /** Boards with their mines in the same places have the same set of mines. */
  lemma SameMinesMines(b: Grid, b': Grid)
    requires SameMines(b, b')
    ensures Mines(b) == Mines(b')
  {
    forall x | x in Mines(b')
      ensures x in Mines(b)
    {
      assert InGrid(b, x.0, x.1);
    }
  }

  /** The clearing loop of regenerateBoardWithout: all four setters on every cell. */
  function Clear(b: Grid): (b': Grid)
    ensures SameShape(b, b')
    ensures forall i, j :: InGrid(b', i, j) ==> b'[i][j] == NewCell()
  {
    seq(|b|, i requires 0 <= i < |b| =>
      seq(|b[i]|, j requires 0 <= j < |b[i]| =>
        SetFlagged(SetRevealed(SetNeighborBombs(SetBomb(b[i][j], false), 0), false), false)))
  }

  /**
    regenerateBoardWithout(sr, sc): wipe the board, place all `bombs` mines again
    outside the 3x3 block around (sr, sc), and recompute the neighbour counts.
   */
  function Regenerate(b: Grid, rows: nat, cols: nat, bombs: nat, sr: int, sc: int, draws: seq<Pos>): (r: Drawn<Grid>)
    requires Shaped(b, rows, cols) && Within(draws, rows, cols)
    ensures r.Drawn? ==> Shaped(r.value, rows, cols) && IsSuffix(r.rest, draws)
    ensures r.Drawn? ==> Count(r.value, Mine) == bombs
    ensures r.Drawn? ==> forall i, j :: InGrid(r.value, i, j) && Excluded(Around(sr, sc), i, j) ==> !r.value[i][j].isBomb
    ensures r.Drawn? ==> forall i, j :: InGrid(r.value, i, j) ==> !r.value[i][j].isRevealed && !r.value[i][j].isFlagged
    ensures r.Drawn? ==> CountsCorrect(r.value)
    ensures r.Drawn? && InGrid(b, sr, sc) ==> !r.value[sr][sc].isBomb && r.value[sr][sc].neighborBombs == 0
  {
    var cleared := Clear(b);
    match PlaceFrom(cleared, rows, cols, bombs, Around(sr, sc), draws)
    case Exhausted => Exhausted
    case Drawn(placed, rest) =>
      RebuiltMineCount(b, rows, cols, bombs, Around(sr, sc), draws, placed, rest);
      RebuiltLayout(b, rows, cols, bombs, sr, sc, draws, placed, rest);
      RebuiltSafe(b, rows, cols, bombs, sr, sc, draws, placed, rest);
      Drawn(CalculateNeighbors(placed), rest)
  }

  /** A rebuild that placed its mines ends with exactly `bombs` of them. */
  lemma RebuiltMineCount(b: Grid, rows: nat, cols: nat, bombs: nat, z: Zone, draws: seq<Pos>, placed: Grid, rest: seq<Pos>)
    requires Shaped(b, rows, cols) && Within(draws, rows, cols)
    requires PlaceFrom(Clear(b), rows, cols, bombs, z, draws) == Drawn(placed, rest)
    ensures Count(CalculateNeighbors(placed), Mine) == bombs
  {
    CountZero(Clear(b), Mine);
    CountCongruent(placed, Mine, CalculateNeighbors(placed), Mine);
  }

  /** A rebuild that placed its mines leaves every cell hidden and unflagged, and the 3x3 block clear. */
  lemma RebuiltLayout(b: Grid, rows: nat, cols: nat, bombs: nat, sr: int, sc: int, draws: seq<Pos>, placed: Grid, rest: seq<Pos>)
    requires Shaped(b, rows, cols) && Within(draws, rows, cols)
    requires PlaceFrom(Clear(b), rows, cols, bombs, Around(sr, sc), draws) == Drawn(placed, rest)
    ensures var b' := CalculateNeighbors(placed);
      && (forall i, j :: InGrid(b', i, j) && Excluded(Around(sr, sc), i, j) ==> !b'[i][j].isBomb)
      && (forall i, j :: InGrid(b', i, j) ==> !b'[i][j].isRevealed && !b'[i][j].isFlagged)
  {
    PlacedAroundClear(Clear(b), placed, sr, sc);
  }

  /** After a rebuild that placed its mines, the safe cell is a zero cell. */
  lemma RebuiltSafe(b: Grid, rows: nat, cols: nat, bombs: nat, sr: int, sc: int, draws: seq<Pos>, placed: Grid, rest: seq<Pos>)
    requires Shaped(b, rows, cols) && Within(draws, rows, cols)
    requires PlaceFrom(Clear(b), rows, cols, bombs, Around(sr, sc), draws) == Drawn(placed, rest)
    ensures InGrid(b, sr, sc) ==>
      !CalculateNeighbors(placed)[sr][sc].isBomb && CalculateNeighbors(placed)[sr][sc].neighborBombs == 0
  {
    if InGrid(b, sr, sc) {
      PlacedAroundClear(Clear(b), placed, sr, sc);
      RebuiltSafeCell(placed, CalculateNeighbors(placed), sr, sc);
    }
  }

  /** The safe cell of a rebuild is a zero cell. */
  lemma RebuiltSafeCell(placed: Grid, b': Grid, sr: int, sc: int)
    requires b' == CalculateNeighbors(placed) && InGrid(placed, sr, sc)
    requires !placed[sr][sc].isBomb && NeighborMines(placed, sr, sc) == 0
    ensures !b'[sr][sc].isBomb && b'[sr][sc].neighborBombs == 0
  {
  }

  /**
    A rebuild ends exactly when the draws hold `bombs` distinct positions
    outside the 3x3 block around the safe cell.
   */
  lemma RegenerateSucceeds(b: Grid, rows: nat, cols: nat, bombs: nat, sr: int, sc: int, draws: seq<Pos>)
    requires Shaped(b, rows, cols) && Within(draws, rows, cols)
    ensures Regenerate(b, rows, cols, bombs, sr, sc, draws).Drawn? <==> bombs <= |DrawnOutside(Around(sr, sc), draws)|
  {
    var cleared := Clear(b);
    TakeableOnEmpty(cleared, rows, cols, Around(sr, sc), draws);
    PlaceFromSucceeds(cleared, rows, cols, bombs, Around(sr, sc), draws);
  }

  /** The cells of a rows x cols board outside the zone. */
  ghost function CellsOutside(rows: nat, cols: nat, z: Zone): set<Pos>
  {
    set i, j | 0 <= i < rows && 0 <= j < cols && !Excluded(z, i, j) :: (i, j)
  }

  /** With more mines than cells outside the zone, placement runs out of draws, however many there are. */
  lemma PlaceFromNeedsRoom(b: Grid, rows: nat, cols: nat, want: nat, z: Zone, draws: seq<Pos>)
    requires Shaped(b, rows, cols) && Within(draws, rows, cols)
    requires want > |CellsOutside(rows, cols, z)|
    ensures PlaceFrom(b, rows, cols, want, z, draws).Exhausted?
  {
    assert Takeable(b, z, draws) <= CellsOutside(rows, cols, z) by {
      forall x | x in Takeable(b, z, draws)
        ensures x in CellsOutside(rows, cols, z)
      {
        var n :| 0 <= n < |draws| && Accepts(b, z, draws[n]) && draws[n] == x;
        assert x == (x.0, x.1);
      }
    }
    SubsetCard(Takeable(b, z, draws), CellsOutside(rows, cols, z));
    PlaceFromSucceeds(b, rows, cols, want, z, draws);
  }

  /** With more mines than cells outside the 3x3 block, a rebuild never ends. */
  lemma RegenerateNeedsRoom(b: Grid, rows: nat, cols: nat, bombs: nat, sr: int, sc: int, draws: seq<Pos>)
    requires Shaped(b, rows, cols) && Within(draws, rows, cols)
    requires bombs > |CellsOutside(rows, cols, Around(sr, sc))|
    ensures Regenerate(b, rows, cols, bombs, sr, sc, draws).Exhausted?
  {
    PlaceFromNeedsRoom(Clear(b), rows, cols, bombs, Around(sr, sc), draws);
  }

  lemma {:induction false} SubsetCard<T>(a: set<T>, b: set<T>)
    requires a <= b
    ensures |a| <= |b|
    decreases |a|
  {
    if a != {} {
      var x :| x in a;
      SubsetCard(a - {x}, b - {x});
    }
  }

  /**
    The mines a rebuild leaves are exactly the distinct positions outside the
    3x3 block around the safe cell among the draws it used.
   */
  lemma RegenerateUsesDraws(b: Grid, rows: nat, cols: nat, bombs: nat, sr: int, sc: int, draws: seq<Pos>)
    requires Shaped(b, rows, cols) && Within(draws, rows, cols)
    ensures var r := Regenerate(b, rows, cols, bombs, sr, sc, draws);
      r.Drawn? ==>
        && Mines(r.value) == DrawnOutside(Around(sr, sc), Used(draws, r.rest))
        && |Mines(r.value)| == bombs
  {
    var cleared := Clear(b);
    var p := PlaceFrom(cleared, rows, cols, bombs, Around(sr, sc), draws);
    PlaceFromUsesDraws(cleared, rows, cols, bombs, Around(sr, sc), draws);
    if p.Drawn? {
      UsedWithin(draws, p.rest, rows, cols);
      TakeableOnEmpty(cleared, rows, cols, Around(sr, sc), Used(draws, p.rest));
      NoMines(cleared);
      SameMinesMines(p.value, CalculateNeighbors(p.value));
    }
  }

  /** What the placement step of a rebuild leaves on the wiped board. */
  lemma PlacedAroundClear(cleared: Grid, placed: Grid, sr: int, sc: int)
    requires forall i, j :: InGrid(cleared, i, j) ==> cleared[i][j] == NewCell()
    requires AddsMines(cleared, placed, Around(sr, sc))
    ensures forall i, j :: InGrid(placed, i, j) && Excluded(Around(sr, sc), i, j) ==> !placed[i][j].isBomb
    ensures forall i, j :: InGrid(placed, i, j) ==> !placed[i][j].isRevealed && !placed[i][j].isFlagged
    ensures NeighborMines(placed, sr, sc) == 0
  {
    NoMinesAroundMeansZero(placed, sr, sc);
  }

  /** A cell whose 3x3 block holds no mine counts zero neighbouring mines. */
  lemma NoMinesAroundMeansZero(b: Grid, sr: int, sc: int)
    requires forall i, j :: InGrid(b, i, j) && Excluded(Around(sr, sc), i, j) ==> !b[i][j].isBomb
    ensures NeighborMines(b, sr, sc) == 0
  {
    ScanUnrolled(b, sr, sc);
  }
}
