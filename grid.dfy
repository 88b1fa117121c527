/** The 5x5 matrices of the game and the predicates that specify them.

    Both the ship grid (`Sea.board`) and a player's shot record
    (`Player.shots`) are 5x5 lists of integer cell codes.  This module holds
    the codes, the shape, a model of Python's negative indexing, the
    neighbourhood test that `near_ships` computes, ships as straight runs,
    the invariant a populated board keeps, the SHIP count, the effect of
    `mark`, and the "every ship cell has been hit" test of `win`/`lost`. */
module Grid {

  const N: int := 5
  const SHIP: int := 9
  const WATER: int := 2
  /** A shot-record cell that has not been shot at yet. */
  const UNKNOWN: int := 0

  type Matrix = seq<seq<int>>

  predicate IsSquare(g: Matrix) {
    |g| == N && forall i :: 0 <= i < N ==> |g[i]| == N
  }

  predicate InBounds(r: int, c: int) {
    0 <= r < N && 0 <= c < N
  }

  /** The 5x5 matrix with every cell set to `v` (`[[v] * 5 for _ in range(5)]`). */
  function Filled(v: int): (g: Matrix)
    ensures IsSquare(g)
    ensures forall i, j :: 0 <= i < N && 0 <= j < N ==> g[i][j] == v
  {
    seq(N, _ => seq(N, _ => v))
  }

  /** Python's `xs[i]` on a list of length 5 accepts -5 <= i < 5 and counts
      negative indices from the end. */
  function Wrap(i: int): (k: int)
    requires -N <= i < N
    ensures 0 <= k < N
    ensures k % N == i % N
  {
    if i < 0 then i + N else i
  }

  // ---------------------------------------------------------------------
  // Neighbourhoods and ships

  /** The two cells are equal or adjacent, diagonals included. */
  predicate Touching(r: int, c: int, r2: int, c2: int) {
    -1 <= r - r2 <= 1 && -1 <= c - c2 <= 1
  }

  /** What `near_ships(row, col)` answers: the cell is not past row or
      column 4, and no in-bounds neighbour (the cell itself excluded) is
      SHIP.  Negative coordinates are not rejected. */
  ghost predicate Isolated(g: Matrix, row: int, col: int)
    requires IsSquare(g)
  {
    row <= 4 && col <= 4 &&
    forall i, j :: InBounds(i, j) && Touching(row, col, i, j) && (i != row || j != col) ==> g[i][j] != SHIP
  }

  datatype Orientation = H | V

  /** A run of `size` cells starting at (row, col), going right (H) or down (V). */
  datatype Ship = Ship(row: int, col: int, size: nat, o: Orientation)

  /** Row and column of the `i`-th cell of the run. */
  function CellRow(s: Ship, i: int): int {
    if s.o == H then s.row else s.row + i
  }

  function CellCol(s: Ship, i: int): int {
    if s.o == H then s.col + i else s.col
  }

  predicate Occupies(s: Ship, r: int, c: int) {
    match s.o
    case H => r == s.row && s.col <= c < s.col + s.size
    case V => c == s.col && s.row <= r < s.row + s.size
  }

  /** The start cell and the whole run lie on the board. */
  predicate Inside(s: Ship) {
    InBounds(s.row, s.col) &&
    if s.o == H then s.col + s.size <= N else s.row + s.size <= N
  }

  /** What `possible(row, col, size, o)` answers: every cell of the run passes `near_ships`. */
  ghost predicate RunClear(g: Matrix, s: Ship)
    requires IsSquare(g)
  {
    forall i :: 0 <= i < s.size ==> Isolated(g, CellRow(s, i), CellCol(s, i))
  }

  /** No cell of one ship equals or touches a cell of the other. */
  ghost predicate Apart(s: Ship, t: Ship) {
    forall r, c, r2, c2 :: Occupies(s, r, c) && Occupies(t, r2, c2) ==> !Touching(r, c, r2, c2)
  }

  ghost predicate Covered(fleet: seq<Ship>, r: int, c: int) {
    exists k :: 0 <= k < |fleet| && Occupies(fleet[k], r, c)
  }

  /** The board shows exactly the ships of `fleet`: every ship lies inside
      the board, no two ships touch, and a cell is SHIP when a ship covers
      it and WATER otherwise. */
  ghost predicate Deployed(g: Matrix, fleet: seq<Ship>) {
    && IsSquare(g)
    && (forall k :: 0 <= k < |fleet| ==> Inside(fleet[k]))
    && (forall k, l :: 0 <= k < l < |fleet| ==> Apart(fleet[k], fleet[l]))
    && (forall r, c :: 0 <= r < N && 0 <= c < N ==> g[r][c] == if Covered(fleet, r, c) then SHIP else WATER)
  }

  /** A cell of a run that starts on a WATER cell and passes `possible`
      is on the board and is WATER: the cell before it has no SHIP neighbour. */
  lemma {:induction false} RunCellIsWater(g: Matrix, fleet: seq<Ship>, s: Ship, i: nat)
    requires Deployed(g, fleet)
    requires InBounds(s.row, s.col) && g[s.row][s.col] == WATER
    requires RunClear(g, s)
    requires i < s.size
    ensures InBounds(CellRow(s, i), CellCol(s, i))
    ensures g[CellRow(s, i)][CellCol(s, i)] == WATER
  {
    if i > 0 {
      RunCellIsWater(g, fleet, s, i - 1);
      var r, c := CellRow(s, i), CellCol(s, i);
      assert Isolated(g, r, c);
      assert InBounds(r, c);
      assert Isolated(g, CellRow(s, i - 1), CellCol(s, i - 1));
      assert g[r][c] != SHIP;
    }
  }

  /** A run accepted by `possible` from a WATER start lies wholly inside
      the board and covers only WATER cells. */
  lemma RunIsWater(g: Matrix, fleet: seq<Ship>, s: Ship)
    requires Deployed(g, fleet)
    requires InBounds(s.row, s.col) && g[s.row][s.col] == WATER
    requires RunClear(g, s)
    ensures Inside(s)
    ensures forall r, c :: Occupies(s, r, c) ==> InBounds(r, c) && g[r][c] == WATER
  {
    if s.size > 0 {
      RunCellIsWater(g, fleet, s, s.size - 1);
    }
    forall r, c | Occupies(s, r, c)
      ensures InBounds(r, c) && g[r][c] == WATER
    {
      RunCellIsWater(g, fleet, s, if s.o == H then c - s.col else r - s.row);
    }
  }

  /** ... and touches no ship already placed, diagonals included. */
  lemma RunIsApart(g: Matrix, fleet: seq<Ship>, s: Ship)
    requires Deployed(g, fleet)
    requires InBounds(s.row, s.col) && g[s.row][s.col] == WATER
    requires RunClear(g, s)
    ensures forall k :: 0 <= k < |fleet| ==> Apart(fleet[k], s)
  {
    forall k, r, c, r2, c2 | 0 <= k < |fleet| && Occupies(fleet[k], r, c) && Occupies(s, r2, c2)
      ensures !Touching(r, c, r2, c2)
    {
      assert InBounds(r, c) && Covered(fleet, r, c);
      RunCellIsWater(g, fleet, s, if s.o == H then c2 - s.col else r2 - s.row);
      assert Isolated(g, r2, c2);
    }
  }

  /** A run accepted by `possible` from a WATER start lies wholly inside
      the board, covers only WATER cells and touches no ship already placed. */
  lemma PlacementIsSafe(g: Matrix, fleet: seq<Ship>, s: Ship)
    requires Deployed(g, fleet)
    requires InBounds(s.row, s.col) && g[s.row][s.col] == WATER
    requires RunClear(g, s)
    ensures Inside(s)
    ensures forall r, c :: Occupies(s, r, c) ==> InBounds(r, c) && g[r][c] == WATER
    ensures forall k :: 0 <= k < |fleet| ==> Apart(fleet[k], s)
  {
    RunIsWater(g, fleet, s);
    RunIsApart(g, fleet, s);
  }

  /** `g'` is `g` with run `s` written in:  the run lies on the board,
      started on a WATER cell, covers only WATER cells of `g` and touches no
      ship of `fleet`; its cells are SHIP in `g'` and every other cell is as in `g`. */
  ghost predicate Placement(g: Matrix, g': Matrix, fleet: seq<Ship>, s: Ship)
    requires IsSquare(g) && IsSquare(g')
  {
    && Inside(s)
    && g[s.row][s.col] == WATER
    && (forall r, c :: Occupies(s, r, c) ==> g[r][c] == WATER)
    && (forall k :: 0 <= k < |fleet| ==> Apart(fleet[k], s))
    && Drawn(g, g', s)
  }

  /** `g'` is `g` with the cells of `s` set to SHIP and no other cell changed. */
  ghost predicate Drawn(g: Matrix, g': Matrix, s: Ship)
    requires IsSquare(g) && IsSquare(g')
  {
    forall r, c :: 0 <= r < N && 0 <= c < N ==> g'[r][c] == if Occupies(s, r, c) then SHIP else g[r][c]
  }

  /** One step of the writing loop of `place_ship`: with the first `i`
      cells of a run of WATER cells drawn, cell `i` is still WATER, and
      setting it to SHIP draws the first `i + 1` cells and adds one SHIP. */
  lemma DrawStep(g0: Matrix, g: Matrix, s: Ship, i: nat)
    requires IsSquare(g0) && IsSquare(g) && Inside(s) && i < s.size
    requires forall r, c :: Occupies(s, r, c) ==> g0[r][c] == WATER
    requires Drawn(g0, g, s.(size := i))
    ensures InBounds(CellRow(s, i), CellCol(s, i))
    ensures var r, c := CellRow(s, i), CellCol(s, i);
      && Drawn(g0, g[r := g[r][c := SHIP]], s.(size := i + 1))
      && ShipCount(g[r := g[r][c := SHIP]]) == ShipCount(g) + 1
  {
    var r, c := CellRow(s, i), CellCol(s, i);
    assert Occupies(s, r, c);
    ShipCountUpdate(g, r, c, SHIP);
  }

  /** Writing a safe run onto a deployed board gives the board of the
      fleet with that run added. */
  lemma PlacementDeploys(g: Matrix, g': Matrix, fleet: seq<Ship>, s: Ship)
    requires Deployed(g, fleet)
    requires Inside(s)
    requires forall k :: 0 <= k < |fleet| ==> Apart(fleet[k], s)
    requires IsSquare(g')
    requires Drawn(g, g', s)
    ensures Deployed(g', fleet + [s])
  {
    var f := fleet + [s];
    forall r, c | InBounds(r, c)
      ensures g'[r][c] == if Covered(f, r, c) then SHIP else WATER
    {
      if Covered(fleet, r, c) {
        var k :| 0 <= k < |fleet| && Occupies(fleet[k], r, c);
        assert f[k] == fleet[k];
      }
      if Occupies(s, r, c) {
        assert f[|fleet|] == s;
      }
      if Covered(f, r, c) && !Occupies(s, r, c) {
        var k :| 0 <= k < |f| && Occupies(f[k], r, c);
        assert k < |fleet| && f[k] == fleet[k];
      }
    }
    forall k, l | 0 <= k < l < |f| ensures Apart(f[k], f[l]) {
      assert f[k] == fleet[k];
      if l < |fleet| {
        assert f[l] == fleet[l];
      }
    }
  }

  // ---------------------------------------------------------------------
  // Counting SHIP cells

  function CountRow(row: seq<int>): nat {
    if row == [] then 0 else (if row[0] == SHIP then 1 else 0) + CountRow(row[1..])
  }

  /** Number of SHIP cells in the matrix. */
  function ShipCount(g: Matrix): nat {
    if g == [] then 0 else CountRow(g[0]) + ShipCount(g[1..])
  }

  function Sum(xs: seq<nat>): nat {
    if xs == [] then 0 else Sum(xs[..|xs| - 1]) + xs[|xs| - 1]
  }

  function Sizes(fleet: seq<Ship>): (r: seq<nat>)
    ensures |r| == |fleet|
    ensures forall k :: 0 <= k < |fleet| ==> r[k] == fleet[k].size
  {
    if fleet == [] then [] else Sizes(fleet[..|fleet| - 1]) + [fleet[|fleet| - 1].size]
  }

  lemma {:induction false} CountRowUpdate(row: seq<int>, c: nat, v: int)
    requires c < |row|
    ensures CountRow(row[c := v]) + (if row[c] == SHIP then 1 else 0)
         == CountRow(row) + (if v == SHIP then 1 else 0)
  {
    if c > 0 {
      assert row[c := v][1..] == row[1..][c - 1 := v];
      CountRowUpdate(row[1..], c - 1, v);
    }
  }

  /** Writing `v` into one cell changes the SHIP count by what that cell stopped and started being. */
  lemma {:induction false} ShipCountUpdate(g: Matrix, r: nat, c: nat, v: int)
    requires r < |g| && c < |g[r]|
    ensures ShipCount(g[r := g[r][c := v]]) + (if g[r][c] == SHIP then 1 else 0)
         == ShipCount(g) + (if v == SHIP then 1 else 0)
  {
    if r == 0 {
      assert g[r := g[r][c := v]][1..] == g[1..];
      CountRowUpdate(g[0], c, v);
    } else {
      assert g[r := g[r][c := v]][1..] == g[1..][r - 1 := g[r][c := v]];
      ShipCountUpdate(g[1..], r - 1, c, v);
    }
  }

  lemma {:induction false} NoShipRow(row: seq<int>)
    requires forall j :: 0 <= j < |row| ==> row[j] != SHIP
    ensures CountRow(row) == 0
  {
    if row != [] {
      NoShipRow(row[1..]);
    }
  }

  /** A matrix without SHIP cells has SHIP count 0. */
  lemma {:induction false} NoShipCount(g: Matrix)
    requires forall i, j :: 0 <= i < |g| && 0 <= j < |g[i]| ==> g[i][j] != SHIP
    ensures ShipCount(g) == 0
  {
    if g != [] {
      NoShipRow(g[0]);
      NoShipCount(g[1..]);
    }
  }

  /** The freshly reset board holds no ship. */
  lemma WaterIsEmpty()
    ensures Deployed(Filled(WATER), [])
    ensures ShipCount(Filled(WATER)) == 0
  {
    NoShipCount(Filled(WATER));
  }

  /** Python's `all(xs)`. */
  predicate AllTrue(xs: seq<bool>) {
    forall i :: 0 <= i < |xs| ==> xs[i]
  }

  lemma AllTrueAppend(xs: seq<bool>, x: bool)
    ensures AllTrue(xs + [x]) <==> AllTrue(xs) && x
  {
    assert forall i :: 0 <= i < |xs| ==> (xs + [x])[i] == xs[i];
    assert (xs + [x])[|xs|] == x;
  }

  lemma ExtendPrefix<T>(a: seq<T>, xs: seq<T>, k: nat)
    requires k < |xs|
    ensures a + xs[..k + 1] == (a + xs[..k]) + [xs[k]]
  {
    assert xs[..k + 1] == xs[..k] + [xs[k]];
  }

  lemma SizesAppend(fleet: seq<Ship>, s: Ship)
    ensures Sizes(fleet + [s]) == Sizes(fleet) + [s.size]
    ensures Sum(Sizes(fleet + [s])) == Sum(Sizes(fleet)) + s.size
  {
    assert (fleet + [s])[..|fleet|] == fleet;
    assert (Sizes(fleet) + [s.size])[..|fleet|] == Sizes(fleet);
  }

  /** The board invariant survives a placement: the new board shows the
      fleet with the run appended, and the SHIP count grows by its size. */
  lemma PlacementKeepsInvariant(g: Matrix, g': Matrix, fleet: seq<Ship>, s: Ship)
    requires Deployed(g, fleet) && ShipCount(g) == Sum(Sizes(fleet))
    requires Inside(s) && g[s.row][s.col] == WATER
    requires forall r, c :: Occupies(s, r, c) ==> g[r][c] == WATER
    requires forall k :: 0 <= k < |fleet| ==> Apart(fleet[k], s)
    requires IsSquare(g') && Drawn(g, g', s) && ShipCount(g') == ShipCount(g) + s.size
    ensures Deployed(g', fleet + [s]) && ShipCount(g') == Sum(Sizes(fleet + [s]))
  {
    PlacementDeploys(g, g', fleet, s);
    SizesAppend(fleet, s);
  }

  // ---------------------------------------------------------------------
  // Shots

  /** What `mark(row, col, hit)` leaves in the shot record: the one cell
      (row, col), with Python's negative indexing, becomes SHIP on a hit and
      WATER on a miss; every other cell keeps its code. */
  function Marked(g: Matrix, row: int, col: int, hit: bool): (m: Matrix)
    requires IsSquare(g) && -N <= row < N && -N <= col < N
    ensures IsSquare(m)
    ensures forall i, j :: 0 <= i < N && 0 <= j < N ==>
      m[i][j] == if i == Wrap(row) && j == Wrap(col) then (if hit then SHIP else WATER) else g[i][j]
  {
    var r, c := Wrap(row), Wrap(col);
    g[r := g[r][c := if hit then SHIP else WATER]]
  }

  /** Marking is idempotent, and of two marks of the same cell the last one wins. */
  lemma {:induction false} MarkLastWins(g: Matrix, row: int, col: int, first: bool, second: bool)
    requires IsSquare(g) && -N <= row < N && -N <= col < N
    ensures Marked(Marked(g, row, col, first), row, col, second) == Marked(g, row, col, second)
    ensures Marked(Marked(g, row, col, second), row, col, second) == Marked(g, row, col, second)
  {
    var a, b := Marked(Marked(g, row, col, first), row, col, second), Marked(g, row, col, second);
    assert forall i :: 0 <= i < N ==> a[i] == b[i];
    var c := Marked(Marked(g, row, col, second), row, col, second);
    assert forall i :: 0 <= i < N ==> c[i] == b[i];
  }

  /** Every cell of a shot record holds one of the three codes a shot record uses. */
  ghost predicate ShotCodes(s: Matrix)
    requires IsSquare(s)
  {
    forall i, j :: 0 <= i < N && 0 <= j < N ==> s[i][j] in {UNKNOWN, WATER, SHIP}
  }

  lemma MarkKeepsCodes(s: Matrix, row: int, col: int, hit: bool)
    requires IsSquare(s) && -N <= row < N && -N <= col < N
    ensures var m := Marked(s, row, col, hit); ShotCodes(m) <== ShotCodes(s)
  {
  }

  /** Every cell of `cells` is a cell of the board. */
  ghost predicate OnBoard(cells: seq<(int, int)>) {
    forall k :: 0 <= k < |cells| ==> 0 <= cells[k].0 < N && 0 <= cells[k].1 < N
  }

  /** The shot record `g` after one `mark` per flag, in order: the k-th
      marks `cells[k]` with `flags[k]`. */
  ghost function Marks(g: Matrix, cells: seq<(int, int)>, flags: seq<bool>): (m: Matrix)
    requires IsSquare(g) && OnBoard(cells) && |flags| <= |cells|
    ensures IsSquare(m)
    decreases |flags|
  {
    if flags == [] then g
    else
      var k := |flags| - 1;
      Marked(Marks(g, cells, flags[..k]), cells[k].0, cells[k].1, flags[k])
  }

  /** One more mark, at the next cell, is one more `mark` call. */
  lemma MarksNext(g: Matrix, cells: seq<(int, int)>, flags: seq<bool>, f: bool)
    requires IsSquare(g) && OnBoard(cells) && |flags| < |cells|
    ensures Marks(g, cells, flags + [f]) == Marked(Marks(g, cells, flags), cells[|flags|].0, cells[|flags|].1, f)
  {
    assert (flags + [f])[..|flags|] == flags;
  }

  /** The marks made depend only on the cells they were made at. */
  lemma {:induction false} MarksPrefix(g: Matrix, cells: seq<(int, int)>, more: seq<(int, int)>, flags: seq<bool>)
    requires IsSquare(g) && OnBoard(cells) && OnBoard(more) && |flags| <= |cells|
    ensures OnBoard(cells + more) && Marks(g, cells + more, flags) == Marks(g, cells, flags)
    decreases |flags|
  {
    assert forall k :: 0 <= k < |cells| ==> (cells + more)[k] == cells[k];
    assert forall k :: |cells| <= k < |cells + more| ==> (cells + more)[k] == more[k - |cells|];
    if flags != [] {
      MarksPrefix(g, cells, more, flags[..|flags| - 1]);
    }
  }

  /** A cell one more cell and flag are marked at: the record so far, marked there. */
  lemma MarksAppend(g: Matrix, cells: seq<(int, int)>, flags: seq<bool>, c: (int, int), f: bool)
    requires IsSquare(g) && OnBoard(cells) && |flags| == |cells| && InBounds(c.0, c.1)
    ensures OnBoard(cells + [c])
    ensures Marks(g, cells + [c], flags + [f]) == Marked(Marks(g, cells, flags), c.0, c.1, f)
  {
    MarksPrefix(g, cells, [c], flags);
    MarksNext(g, cells + [c], flags, f);
  }

  /** After the marks, a cell shows the code of the last mark made on it,
      and what `g` showed when none was. */
  lemma {:induction false} MarksReveal(g: Matrix, cells: seq<(int, int)>, flags: seq<bool>, i: int, j: int)
    requires IsSquare(g) && OnBoard(cells) && |flags| <= |cells| && InBounds(i, j)
    ensures (forall k :: 0 <= k < |flags| ==> cells[k] != (i, j)) ==> Marks(g, cells, flags)[i][j] == g[i][j]
    ensures forall k :: 0 <= k < |flags| && cells[k] == (i, j) && (forall l :: k < l < |flags| ==> cells[l] != (i, j)) ==>
      Marks(g, cells, flags)[i][j] == (if flags[k] then SHIP else WATER)
    decreases |flags|
  {
    if flags != [] {
      var n := |flags| - 1;
      var prev := Marks(g, cells, flags[..n]);
      MarksReveal(g, cells, flags[..n], i, j);
      assert Wrap(cells[n].0) == cells[n].0 && Wrap(cells[n].1) == cells[n].1;
      assert Marks(g, cells, flags)[i][j] == if cells[n] == (i, j) then (if flags[n] then SHIP else WATER) else prev[i][j];
    }
  }

  /** What `win()` (single player) and `lost()` (two players) answer:
      every SHIP cell of the board is SHIP in the shot record. */
  ghost predicate AllSunk(board: Matrix, shots: Matrix)
    requires IsSquare(board) && IsSquare(shots)
  {
    forall i, j :: 0 <= i < N && 0 <= j < N && board[i][j] == SHIP ==> shots[i][j] == SHIP
  }

  /** Every cell of a ship grid is WATER or SHIP. */
  ghost predicate Charted(g: Matrix) {
    IsSquare(g) && forall r, c :: 0 <= r < N && 0 <= c < N ==> g[r][c] == WATER || g[r][c] == SHIP
  }

  /** Every cell that has been shot at shows what the board holds there. */
  ghost predicate Agrees(board: Matrix, shots: Matrix)
    requires IsSquare(board) && IsSquare(shots)
  {
    forall i, j :: 0 <= i < N && 0 <= j < N && shots[i][j] != UNKNOWN ==> shots[i][j] == board[i][j]
  }
}
