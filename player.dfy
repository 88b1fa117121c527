/** The player (`class Player`): a 5x5 record of the shots fired so far
    and the cursor that the accelerometer moves across it. */
module Shots {
  import opened Grid

  /** A reading beyond this magnitude moves the cursor. */
  const THRESHOLD: int := 400

  /** The accelerometer values one pass of the `shoot` loop reads. The x
      axis is read once for the "tilted right" test and again for the
      "tilted left" test, and the y axis likewise; the two readings of an
      axis may differ. */
  datatype Tilt = Tilt(x: int, x2: int, y: int, y2: int)

  /** The move of one cursor axis in one pass of the `shoot` loop. */
  function Step(v: int, first: int, second: int): int {
    if first > THRESHOLD then (if v + 1 < 4 then v + 1 else 4)
    else if second < -THRESHOLD then (if v - 1 > 0 then v - 1 else 0)
    else v
  }

  /** From a cell of the board, a step moves one cell up (clamped at the
      last row or column) when the first reading exceeds the threshold,
      otherwise one cell down (clamped at 0) when the second reading is
      below minus the threshold, and stays put otherwise. */
  lemma StepMoves(v: int, first: int, second: int)
    ensures var w := Step(v, first, second);
      && (0 <= v < N ==> 0 <= w < N && -1 <= w - v <= 1)
      && (0 <= v < N && w > v ==> first > THRESHOLD)
      && (0 <= v < N && w < v ==> first <= THRESHOLD && second < -THRESHOLD)
      && (0 <= v < N && first > THRESHOLD ==> w == (if v < N - 1 then v + 1 else N - 1))
      && (0 <= v < N && first <= THRESHOLD && second < -THRESHOLD ==> w == (if v > 0 then v - 1 else 0))
      && (first <= THRESHOLD && second >= -THRESHOLD ==> w == v)
  {
  }

  /** Where the cursor is after the passes `polls`, starting from `start`;
      x moves the column and y the row. */
  function Aim(start: (int, int), polls: seq<Tilt>): (int, int) {
    if polls == [] then start
    else
      var p := Aim(start, polls[..|polls| - 1]);
      var t := polls[|polls| - 1];
      (Step(p.0, t.y, t.y2), Step(p.1, t.x, t.x2))
  }

  /** The cursor never leaves the board, and it moves at most one cell per
      axis per pass. */
  lemma {:induction false} AimStaysOnBoard(start: (int, int), polls: seq<Tilt>)
    requires InBounds(start.0, start.1)
    ensures var p := Aim(start, polls);
      InBounds(p.0, p.1)
      && -|polls| <= p.0 - start.0 <= |polls| && -|polls| <= p.1 - start.1 <= |polls|
  {
    if polls != [] {
      AimStaysOnBoard(start, polls[..|polls| - 1]);
      var p, t := Aim(start, polls[..|polls| - 1]), polls[|polls| - 1];
      StepMoves(p.0, t.y, t.y2);
      StepMoves(p.1, t.x, t.x2);
    }
  }

  predicate Still(t: Tilt) {
    -THRESHOLD <= t.x <= THRESHOLD && -THRESHOLD <= t.x2 <= THRESHOLD
    && -THRESHOLD <= t.y <= THRESHOLD && -THRESHOLD <= t.y2 <= THRESHOLD
  }

  /** Passes whose readings all stay inside the dead band leave the cursor where it is. */
  lemma {:induction false} AimAtRest(start: (int, int), polls: seq<Tilt>)
    requires forall k :: 0 <= k < |polls| ==> Still(polls[k])
    ensures Aim(start, polls) == start
  {
    if polls != [] {
      AimAtRest(start, polls[..|polls| - 1]);
    }
  }

  /** The cells aimed at by successive `shoot` calls, the k-th with the
      passes `aims[k]`: each shot starts where the previous one left the
      cursor, the first at `start`. */
  function Trail(start: (int, int), aims: seq<seq<Tilt>>): (cells: seq<(int, int)>)
    ensures |cells| == |aims|
    decreases |aims|
  {
    if aims == [] then []
    else
      var init := Trail(start, aims[..|aims| - 1]);
      init + [Aim(if init == [] then start else init[|init| - 1], aims[|aims| - 1])]
  }

  /** Shot by shot: the k-th cell is where the passes `aims[k]` take the
      cursor from the cell before it. */
  lemma {:induction false} TrailStep(start: (int, int), aims: seq<seq<Tilt>>, k: nat)
    requires k < |aims|
    ensures Trail(start, aims)[k] == Aim(if k == 0 then start else Trail(start, aims)[k - 1], aims[k])
    decreases |aims|
  {
    var front := aims[..|aims| - 1];
    var init := Trail(start, front);
    assert Trail(start, aims) == init + [Aim(if init == [] then start else init[|init| - 1], aims[|aims| - 1])];
    if k < |front| {
      TrailStep(start, front, k);
      assert front[k] == aims[k];
      if k > 0 {
        assert Trail(start, aims)[k - 1] == init[k - 1];
      }
    } else if k > 0 {
      assert Trail(start, aims)[k - 1] == init[k - 1];
    }
  }

  /** Every cell of a trail from a cell of the board is on the board. */
  lemma {:induction false} TrailOnBoard(start: (int, int), aims: seq<seq<Tilt>>)
    requires InBounds(start.0, start.1)
    ensures OnBoard(Trail(start, aims))
    decreases |aims|
  {
    if aims != [] {
      var init := Trail(start, aims[..|aims| - 1]);
      TrailOnBoard(start, aims[..|aims| - 1]);
      var from := if init == [] then start else init[|init| - 1];
      if init != [] {
        assert 0 <= init[|init| - 1].0 < N && 0 <= init[|init| - 1].1 < N;
      }
      AimStaysOnBoard(from, aims[|aims| - 1]);
      var cells := Trail(start, aims);
      assert forall k :: 0 <= k < |init| ==> cells[k] == init[k];
      var last := cells[|cells| - 1];
      assert last == Aim(from, aims[|aims| - 1]);
      assert InBounds(last.0, last.1);
    }
  }

  class Player {
    var shots: Matrix
    var row: int
    var col: int
    /** "PLAYER_1", "PLAYER_2", or "" before roles are chosen (two-player game only). */
    var number: string

    ghost predicate Valid()
      reads this
    {
      IsSquare(shots) && ShotCodes(shots) && InBounds(row, col)
    }

    /** `Player()`: nothing shot yet, the cursor at the centre cell (2, 2). */
    constructor ()
      ensures Valid()
      ensures shots == Filled(UNKNOWN) && row == 2 && col == 2 && number == ""
    {
      shots := Filled(UNKNOWN);
      row, col := 2, 2;
      number := "";
    }

    /** One pass of the `shoot` loop. */
    method Poll(t: Tilt)
      modifies this`row, this`col
      ensures row == Step(old(row), t.y, t.y2) && col == Step(old(col), t.x, t.x2)
    {
      if t.x > THRESHOLD {
        col := if col + 1 < 4 then col + 1 else 4;
      } else if t.x2 < -THRESHOLD {
        col := if col - 1 > 0 then col - 1 else 0;
      }
      if t.y > THRESHOLD {
        row := if row + 1 < 4 then row + 1 else 4;
      } else if t.y2 < -THRESHOLD {
        row := if row - 1 > 0 then row - 1 else 0;
      }
    }

    /** `shoot()`: one pass per element of `polls` until button A is
        pressed; only the cursor moves. */
    method Shoot(polls: seq<Tilt>)
      requires Valid()
      modifies this`row, this`col
      ensures Valid()
      ensures (row, col) == Aim((old(row), old(col)), polls)
    {
      for k := 0 to |polls|
        invariant (row, col) == Aim((old(row), old(col)), polls[..k])
        invariant InBounds(row, col)
      {
        assert polls[..k + 1][..k] == polls[..k];
        Poll(polls[k]);
      }
      assert polls[..|polls|] == polls;
    }

    /** `mark(row, col, hit)`: records the outcome of a shot in one cell. */
    method Mark(r: int, c: int, hit: bool)
      requires Valid() && -N <= r < N && -N <= c < N
      modifies this`shots
      ensures Valid()
      ensures shots == Marked(old(shots), r, c, hit)
    {
      MarkKeepsCodes(shots, r, c, hit);
      if hit {
        shots := shots[Wrap(r) := shots[Wrap(r)][Wrap(c) := SHIP]];
      } else {
        shots := shots[Wrap(r) := shots[Wrap(r)][Wrap(c) := WATER]];
      }
    }
  }
}
