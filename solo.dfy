/** The single-player game (`class Game` of the one-player program): one
    sea, one player, shots resolved directly against the sea. */
module Solo {
  import opened Grid
  import opened Board
  import opened Shots
  import opened Rules

  /** The player's record after the first `n` shots, at `cells[0]`,
      `cells[1]`, ... in order, starting from `start`: each shot is marked
      with what the sea holds there. */
  ghost function Record(board: Matrix, start: Matrix, cells: seq<(int, int)>, n: nat): (m: Matrix)
    requires IsSquare(board) && IsSquare(start) && OnBoard(cells) && n <= |cells|
    ensures IsSquare(m)
  {
    if n == 0 then start
    else
      var p := cells[n - 1];
      Marked(Record(board, start, cells, n - 1), p.0, p.1, board[p.0][p.1] == SHIP)
  }

  /** On a charted sea the record shows the sea at every cell shot at, and
      elsewhere what it showed before. */
  lemma {:induction false} RecordReveals(board: Matrix, start: Matrix, cells: seq<(int, int)>, n: nat, i: int, j: int)
    requires Charted(board) && IsSquare(start) && OnBoard(cells) && n <= |cells| && InBounds(i, j)
    ensures Record(board, start, cells, n)[i][j] == if (i, j) in cells[..n] then board[i][j] else start[i][j]
  {
    if n > 0 {
      RecordReveals(board, start, cells, n - 1, i, j);
      assert cells[..n] == cells[..n - 1] + [cells[n - 1]];
    }
  }

  /** The `j`-th shot ends the game: it hits, and after it no ship cell is
      left afloat. */
  ghost predicate Finishes(board: Matrix, start: Matrix, cells: seq<(int, int)>, j: int)
    requires IsSquare(board) && IsSquare(start) && OnBoard(cells) && 0 <= j < |cells|
  {
    board[cells[j].0][cells[j].1] == SHIP && Afloat(board, Record(board, start, cells, j + 1), 0) == 0
  }

  /** None of the first `n` shots ends the game. */
  ghost predicate Unfinished(board: Matrix, start: Matrix, cells: seq<(int, int)>, n: int)
    requires IsSquare(board) && IsSquare(start) && OnBoard(cells) && n <= |cells|
    decreases n
  {
    n <= 0 || (Unfinished(board, start, cells, n - 1) && !Finishes(board, start, cells, n - 1))
  }

  lemma {:induction false} UnfinishedMeans(board: Matrix, start: Matrix, cells: seq<(int, int)>, n: int)
    requires IsSquare(board) && IsSquare(start) && OnBoard(cells) && n <= |cells|
    ensures Unfinished(board, start, cells, n) <==> forall j :: 0 <= j < n ==> !Finishes(board, start, cells, j)
    decreases n
  {
    if n > 0 {
      UnfinishedMeans(board, start, cells, n - 1);
    }
  }

  /** The `k`-th shot, with `won` the outcome of `win()` tested after a hit. */
  lemma ShotStep(board: Matrix, start: Matrix, cells: seq<(int, int)>, k: nat, hit: bool, won: bool)
    requires IsSquare(board) && IsSquare(start) && OnBoard(cells) && k < |cells|
    requires Unfinished(board, start, cells, k)
    requires hit == (board[cells[k].0][cells[k].1] == SHIP)
    requires won == (hit && AllSunk(board, Record(board, start, cells, k + 1)))
    ensures won ==> Finishes(board, start, cells, k)
    ensures !won ==> Unfinished(board, start, cells, k + 1)
  {
    AfloatZero(board, Record(board, start, cells, k + 1), 0);
  }

  /** Before the shot that finishes the game the fleet is never all sunk,
      if it was not at the start: a miss sinks nothing, and a hit that
      sinks the last ship cell is the finishing shot. */
  lemma {:induction false} SunkOnlyAtFinish(board: Matrix, start: Matrix, cells: seq<(int, int)>, n: nat)
    requires IsSquare(board) && IsSquare(start) && OnBoard(cells) && n <= |cells|
    requires !AllSunk(board, start) && Unfinished(board, start, cells, n)
    ensures !AllSunk(board, Record(board, start, cells, n))
  {
    if n > 0 {
      assert Unfinished(board, start, cells, n - 1) && !Finishes(board, start, cells, n - 1);
      SunkOnlyAtFinish(board, start, cells, n - 1);
      var p := cells[n - 1];
      AfloatZero(board, Record(board, start, cells, n), 0);
      if board[p.0][p.1] != SHIP {
        MissNeverWins(board, Record(board, start, cells, n - 1), p.0, p.1);
      }
    }
  }

  /** What the loop of `run` leaves behind: no shot before the last one
      ended the game, and a won game ended on a hit that sank the fleet. */
  lemma Outcome(board: Matrix, start: Matrix, cells: seq<(int, int)>, shots: nat, won: bool)
    requires IsSquare(board) && IsSquare(start) && OnBoard(cells) && shots <= |cells|
    requires !won ==> Unfinished(board, start, cells, shots)
    requires won ==> shots > 0 && Unfinished(board, start, cells, shots - 1) && Finishes(board, start, cells, shots - 1)
    ensures forall j :: 0 <= j < shots - 1 ==> !Finishes(board, start, cells, j)
    ensures won <==> shots > 0 && Finishes(board, start, cells, shots - 1)
    ensures won ==> AllSunk(board, Record(board, start, cells, shots))
    ensures won ==> board[cells[shots - 1].0][cells[shots - 1].1] == SHIP
  {
    UnfinishedMeans(board, start, cells, if won then shots - 1 else shots);
    AfloatZero(board, Record(board, start, cells, shots), 0);
    if !won && shots > 0 {
      assert !Finishes(board, start, cells, shots - 1);
    }
  }

  class Game {
    var sea: Sea
    var player: Player

    /** The boards are well formed and every cell the player has shot at
        shows what the sea holds there. */
    ghost predicate Valid()
      reads this, sea, player
    {
      sea.Valid() && player.Valid() && Agrees(sea.board, player.shots)
    }

    /** `Game()`: a populated sea (at most `fuel` attempts) and a fresh player. */
    constructor (fuel: nat)
      ensures Valid() && fresh(sea) && fresh(player)
      ensures player.shots == Filled(UNKNOWN) && player.row == 2 && player.col == 2
      ensures sea.settled ==> Sizes(sea.fleet) == DefaultShips && !AllSunk(sea.board, player.shots)
    {
      sea := new Sea(DefaultShips, fuel);
      player := new Player();
      new;
      if sea.settled {
        DefaultTotal();
        NotSunkAtStart(sea.board);
      }
    }

    /** `win()`. */
    method Win() returns (won: bool)
      requires sea.Valid() && player.Valid()
      ensures won == AllSunk(sea.board, player.shots)
    {
      won := AllHit(sea.board, player.shots);
    }

    /** `run()` after `start()`: `aims[k]` is the tilt readings of the k-th
        `shoot`, so the shots go to the cells of `cells`, in order. Each shot
        is marked with what the sea holds at that cell; the game ends at the
        first shot that hits and leaves every ship cell hit, and only then.
        When it is not won, every shot in `aims` was fired. */
    method Run(aims: seq<seq<Tilt>>) returns (won: bool, shots: nat, ghost cells: seq<(int, int)>)
      requires Valid()
      modifies player`row, player`col, player`shots
      ensures Valid()
      ensures cells == Trail((old(player.row), old(player.col)), aims) && OnBoard(cells)
      ensures shots <= |aims| && (!won ==> shots == |aims|)
      ensures shots > 0 ==> (player.row, player.col) == cells[shots - 1]
      ensures player.shots == Record(sea.board, old(player.shots), cells, shots)
      ensures forall j :: 0 <= j < shots - 1 ==> !Finishes(sea.board, old(player.shots), cells, j)
      ensures won <==> shots > 0 && Finishes(sea.board, old(player.shots), cells, shots - 1)
      ensures won ==> AllSunk(sea.board, player.shots)
      ensures won ==> shots >= 1 && sea.board[player.row][player.col] == SHIP
      ensures !won && !old(AllSunk(sea.board, player.shots)) ==> !AllSunk(sea.board, player.shots)
    {
      ghost var start, record := (player.row, player.col), player.shots;
      cells := Trail(start, aims);
      TrailOnBoard(start, aims);
      won, shots := Play(aims, cells);
      Outcome(sea.board, record, cells, shots, won);
      if !won && !AllSunk(sea.board, record) {
        SunkOnlyAtFinish(sea.board, record, cells, shots);
      }
    }

    /** The loop of `run()`, stated shot by shot against the cells `cells`
        the aims lead to. */
    method Play(aims: seq<seq<Tilt>>, ghost cells: seq<(int, int)>) returns (won: bool, shots: nat)
      requires Valid() && cells == Trail((player.row, player.col), aims) && OnBoard(cells)
      modifies player`row, player`col, player`shots
      ensures Valid() && shots <= |aims| && (!won ==> shots == |aims|)
      ensures shots > 0 ==> (player.row, player.col) == cells[shots - 1]
      ensures player.shots == Record(sea.board, old(player.shots), cells, shots)
      ensures !won ==> Unfinished(sea.board, old(player.shots), cells, shots)
      ensures won ==> shots > 0 && Unfinished(sea.board, old(player.shots), cells, shots - 1)
      ensures won ==> shots > 0 && Finishes(sea.board, old(player.shots), cells, shots - 1)
    {
      ghost var start, record := (player.row, player.col), player.shots;
      won, shots := false, 0;
      while shots < |aims|
        invariant Valid() && shots <= |aims|
        invariant (player.row, player.col) == if shots == 0 then start else cells[shots - 1]
        invariant player.shots == Record(sea.board, record, cells, shots)
        invariant Unfinished(sea.board, record, cells, shots)
      {
        TrailStep(start, aims, shots);
        won := Turn(aims[shots], cells, record, shots);
        shots := shots + 1;
        if won {
          return;
        }
      }
    }

    /** The `k`-th pass of the loop of `run()`: the shot goes to `cells[k]`,
        and the game is won exactly when that shot finishes it. */
    method Turn(polls: seq<Tilt>, ghost cells: seq<(int, int)>, ghost record: Matrix, ghost k: nat) returns (won: bool)
      requires Valid() && IsSquare(record) && OnBoard(cells) && k < |cells|
      requires cells[k] == Aim((player.row, player.col), polls)
      requires player.shots == Record(sea.board, record, cells, k) && Unfinished(sea.board, record, cells, k)
      modifies player`row, player`col, player`shots
      ensures Valid() && (player.row, player.col) == cells[k]
      ensures player.shots == Record(sea.board, record, cells, k + 1)
      ensures won ==> Finishes(sea.board, record, cells, k)
      ensures !won ==> Unfinished(sea.board, record, cells, k + 1)
    {
      var hit := Fire(polls);
      won := false;
      if hit {
        won := Win();
      }
      ShotStep(sea.board, record, cells, k, hit, won);
    }

    /** One pass of the `while True` loop of `run()` up to the `win()`
        test: `shoot`, then `hit` and `mark` at the cursor. */
    method Fire(polls: seq<Tilt>) returns (hit: bool)
      requires Valid()
      modifies player`row, player`col, player`shots
      ensures Valid()
      ensures (player.row, player.col) == Aim((old(player.row), old(player.col)), polls)
      ensures hit == (sea.board[player.row][player.col] == SHIP)
      ensures player.shots == Marked(old(player.shots), player.row, player.col, hit)
    {
      player.Shoot(polls);
      var r, c := player.row, player.col;
      hit := sea.Hit(r, c);
      assert Wrap(r) == r && Wrap(c) == c;
      ShotKeepsAgreement(sea.board, player.shots, r, c);
      player.Mark(r, c, hit);
    }
  }
}
