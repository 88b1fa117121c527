/** The end-of-game test shared by `win()` (one player) and `lost()` (two
    players), and what the shot rules guarantee about it. */
module Rules {
  import opened Grid

  /** The double loop of `win()` / `lost()`: false at the first SHIP cell
      of `board` that `shots` does not show as SHIP, true after a full scan. */
  method AllHit(board: Matrix, shots: Matrix) returns (done: bool)
    requires IsSquare(board) && IsSquare(shots)
    ensures done == AllSunk(board, shots)
  {
    for i := 0 to N
      invariant forall i', j :: 0 <= i' < i && 0 <= j < N && board[i'][j] == SHIP ==> shots[i'][j] == SHIP
    {
      for j := 0 to N
        invariant forall i', j' :: (0 <= i' < i || (i' == i && 0 <= j' < j)) && 0 <= j' < N && board[i'][j'] == SHIP
                                  ==> shots[i'][j'] == SHIP
      {
        if board[i][j] == SHIP && shots[i][j] != SHIP {
          return false;
        }
      }
    }
    return true;
  }

  /** Marking a cell with what the board holds there keeps the shot record
      truthful. */
  lemma ShotKeepsAgreement(board: Matrix, shots: Matrix, r: int, c: int)
    requires IsSquare(board) && IsSquare(shots) && InBounds(r, c)
    requires Agrees(board, shots) && board[r][c] in {WATER, SHIP}
    ensures Agrees(board, Marked(shots, r, c, board[r][c] == SHIP))
  {
    var m := Marked(shots, r, c, board[r][c] == SHIP);
    forall i, j | InBounds(i, j) && m[i][j] != UNKNOWN
      ensures m[i][j] == board[i][j]
    {
      if i == r && j == c {
        assert Wrap(r) == r && Wrap(c) == c;
      }
    }
  }

  /** A miss never ends the game: if some ship cell was still unsunk, it still is. */
  lemma MissNeverWins(board: Matrix, shots: Matrix, r: int, c: int)
    requires IsSquare(board) && IsSquare(shots) && -N <= r < N && -N <= c < N
    requires !AllSunk(board, shots)
    ensures !AllSunk(board, Marked(shots, r, c, false))
  {
    var i, j :| 0 <= i < N && 0 <= j < N && board[i][j] == SHIP && shots[i][j] != SHIP;
    assert Marked(shots, r, c, false)[i][j] != SHIP;
  }

  /** Once every ship cell is sunk, a truthful shot record shows the fleet
      exactly: its SHIP cells are the board's SHIP cells. */
  lemma SunkShowsFleet(board: Matrix, shots: Matrix)
    requires IsSquare(board) && IsSquare(shots)
    requires Agrees(board, shots) && AllSunk(board, shots)
    ensures forall i, j :: 0 <= i < N && 0 <= j < N ==> (shots[i][j] == SHIP <==> board[i][j] == SHIP)
  {
  }

  /** With at least one ship on the board the game is not over before the first shot. */
  lemma NotSunkAtStart(board: Matrix)
    requires IsSquare(board) && ShipCount(board) > 0
    ensures !AllSunk(board, Filled(UNKNOWN))
    ensures Agrees(board, Filled(UNKNOWN))
  {
    if AllSunk(board, Filled(UNKNOWN)) {
      assert forall i, j :: 0 <= i < |board| && 0 <= j < |board[i]| ==> board[i][j] != SHIP by {
        forall i, j | 0 <= i < |board| && 0 <= j < |board[i]|
          ensures board[i][j] != SHIP
        {
          assert InBounds(i, j);
        }
      }
      NoShipCount(board);
    }
  }

  /** The ship cells of `ship` that `shot` does not show as SHIP. */
  function AfloatRow(ship: seq<int>, shot: seq<int>): nat
    requires |ship| == |shot|
    decreases |ship|
  {
    if ship == [] then 0
    else (if ship[0] == SHIP && shot[0] != SHIP then 1 else 0) + AfloatRow(ship[1..], shot[1..])
  }

  /** The ship cells of rows `r` onwards that are still afloat. */
  function Afloat(board: Matrix, shots: Matrix, r: nat): nat
    requires IsSquare(board) && IsSquare(shots) && r <= N
    decreases N - r
  {
    if r == N then 0 else AfloatRow(board[r], shots[r]) + Afloat(board, shots, r + 1)
  }

  lemma {:induction false} AfloatRowZero(ship: seq<int>, shot: seq<int>)
    requires |ship| == |shot|
    ensures AfloatRow(ship, shot) == 0 <==> forall c :: 0 <= c < |ship| && ship[c] == SHIP ==> shot[c] == SHIP
    decreases |ship|
  {
    if ship != [] {
      AfloatRowZero(ship[1..], shot[1..]);
      assert forall c :: 1 <= c < |ship| ==> ship[1..][c - 1] == ship[c] && shot[1..][c - 1] == shot[c];
    }
  }

  /** Counting the afloat ship cells agrees with `AllSunk`: none is left
      exactly when every ship cell is hit. */
  lemma {:induction false} AfloatZero(board: Matrix, shots: Matrix, r: nat)
    requires IsSquare(board) && IsSquare(shots) && r <= N
    ensures Afloat(board, shots, r) == 0
        <==> forall i, j :: r <= i < N && 0 <= j < N && board[i][j] == SHIP ==> shots[i][j] == SHIP
    ensures r == 0 ==> (Afloat(board, shots, r) == 0 <==> AllSunk(board, shots))
    decreases N - r
  {
    if r < N {
      AfloatZero(board, shots, r + 1);
      AfloatRowZero(board[r], shots[r]);
    }
  }
}
