/** The two-player game (`class Game` of the multiplayer program): each
    micro:bit holds its own sea, its record of its shots (`me`) and its
    record of the opponent's shots at its sea (`opponent`), and talks to
    the other micro:bit by radio. */
module Duel {
  import opened Grid
  import opened Text
  import opened Wire
  import opened Board
  import opened Shots
  import opened Rules

  const PlayerOne: string := "PLAYER_1"
  const PlayerTwo: string := "PLAYER_2"
  const OneReady: string := "PLAYER_1 READY"
  const TwoReady: string := "PLAYER_2 READY"

  /** One radio action of this micro:bit: a message it sent, or a message
      it took out of its receive queue. */
  datatype Event = Sent(text: string) | Received(text: string)

  /** How a routine ends: normally, waiting for input that the modelled
      input never supplies (the radio stays silent, or the player fires no
      more shots), or with the exception Python raises. */
  datatype Status = Done | Stalled | Crashed

  /** The button that `choose_players` sees pressed first (A when both are). */
  datatype Button = A | B

  /** The receive queue as `while not response: response = radio.receive()`
      finds it: `radio.receive()` answers None when the queue is empty and
      an empty message is falsy, so leading empty messages are dropped. */
  function Unread(inbox: seq<string>): (rest: seq<string>)
    ensures rest == [] || rest[0] != ""
  {
    if inbox == [] || inbox[0] != "" then inbox else Unread(inbox[1..])
  }

  /** What `Unread` drops is exactly the run of empty messages at the front. */
  lemma {:induction false} UnreadDropsEmpty(inbox: seq<string>)
    ensures var rest := Unread(inbox);
      |rest| <= |inbox| && rest == inbox[|inbox| - |rest|..]
      && forall i :: 0 <= i < |inbox| - |rest| ==> inbox[i] == ""
  {
    if inbox != [] && inbox[0] == "" {
      UnreadDropsEmpty(inbox[1..]);
    }
  }

  /** Position of event `i` of a game within a round as PLAYER_1 sees it;
      PLAYER_2 is half a round behind. */
  function Phase(i: nat, first: bool): int {
    (i + (if first then 0 else 2)) % 4
  }

  /** One event after position `p < 3` of a round, a log stands at `p + 1`. */
  lemma PhaseNext(log: seq<Event>, log': seq<Event>, base: nat, first: bool)
    requires base <= |log| && Phase(|log| - base, first) < 3 && |log'| == |log| + 1
    ensures Phase(|log'| - base, first) == Phase(|log| - base, first) + 1
  {
    var i := |log| - base;
    var k := i + (if first then 0 else 2);
    assert k == 4 * (k / 4) + Phase(i, first);
    assert k + 1 == 4 * (k / 4) + (Phase(i, first) + 1);
  }

  /** A round, as PLAYER_1 sees it: send (the shot), receive (the reply),
      receive (the opponent's shot), send (the reply). */
  predicate Expected(e: Event, phase: int) {
    if phase == 0 || phase == 3 then e.Sent? else e.Received?
  }

  /** The events of `log` from `base` on keep the turn order of `run`. */
  ghost predicate InTurn(log: seq<Event>, base: nat, first: bool)
    decreases |log|
  {
    base <= |log|
    && (|log| == base
        || (InTurn(log[..|log| - 1], base, first) && Expected(log[|log| - 1], Phase(|log| - 1 - base, first))))
  }

  /** Read event by event: every event from `base` on has the kind its
      position in the round calls for. */
  lemma {:induction false} InTurnMeans(log: seq<Event>, base: nat, first: bool)
    requires InTurn(log, base, first)
    ensures forall i :: base <= i < |log| ==> Expected(log[i], Phase(i - base, first))
    decreases |log|
  {
    if |log| > base {
      var init := log[..|log| - 1];
      InTurnMeans(init, base, first);
      assert forall i :: base <= i < |init| ==> log[i] == init[i];
    }
  }

  /** PLAYER_1 opens with a send, PLAYER_2 with a receive. */
  lemma FirstMove(log: seq<Event>, base: nat, first: bool)
    requires InTurn(log, base, first) && |log| > base
    ensures log[base].Sent? <==> first
  {
    InTurnMeans(log, base, first);
    assert Expected(log[base], Phase(0, first));
  }

  lemma InTurnStep(log: seq<Event>, e: Event, base: nat, first: bool)
    requires InTurn(log, base, first) && Expected(e, Phase(|log| - base, first))
    ensures InTurn(log + [e], base, first)
  {
    assert (log + [e])[..|log|] == log;
  }

  /** The last event is a reply whose second flag says the opponent has lost. */
  ghost predicate ReportsWin(log: seq<Event>) {
    |log| > 0 && log[|log| - 1].Received? && SaysLost(log[|log| - 1].text)
  }

  /** The last event is a reply this micro:bit sent, announcing its own fleet sunk. */
  ghost predicate ReportsLoss(log: seq<Event>) {
    |log| > 0 && log[|log| - 1].Sent? && SaysLost(log[|log| - 1].text)
  }

  /** No event of `log` from `base` on carries a message announcing a sunk fleet. */
  ghost predicate Quiet(log: seq<Event>, base: nat)
    decreases |log|
  {
    base <= |log|
    && (|log| == base || (Quiet(log[..|log| - 1], base) && !SaysLost(log[|log| - 1].text)))
  }

  /** The game has ended at the last event: there is one from `base` on, and no earlier one announced a sunk fleet. */
  ghost predicate Ends(log: seq<Event>, base: nat) {
    base < |log| && Quiet(log[..|log| - 1], base)
  }

  /** `receive_shot` raises on this shot: it is not two integers, or its
      cell is off the 5x5 display that `blink` lights. */
  ghost predicate BadShot(request: string) {
    ParseShot(request).None? || !InBounds(ParseShot(request).value.0, ParseShot(request).value.1)
  }

  /** After `n` shots of its own, this micro:bit is waiting for a message:
      the reply to its `n`-th shot, or the opponent's next shot. */
  ghost predicate Waiting(log: seq<Event>, base: nat, first: bool, n: nat) {
    var k := |log| - base - 4 * n - (if first then 0 else 2);
    k == -3 || k == -2
  }

  /** After `n` shots of its own, the last event is a read that made
      Python raise: the reply to the `n`-th shot did not split into two
      fields, or the opponent's next shot was bad. */
  ghost predicate CrashedOn(log: seq<Event>, base: nat, first: bool, n: nat) {
    var k := |log| - base - 4 * n - (if first then 0 else 2);
    && |log| > base && log[|log| - 1].Received?
    && ((k == -2 && ParseReply(log[|log| - 1].text).None?) || (k == -1 && BadShot(log[|log| - 1].text)))
  }

  /** Where the log stands after this micro:bit's `n + 1`-th shot: waiting
      for the reply when none came, crashed on a reply that does not split
      into two fields, and just before the opponent's shot otherwise. */
  lemma AfterShot(log: seq<Event>, log': seq<Event>, base: nat, first: bool, n: nat,
                  status: Status, shot: string, response: string)
    requires base <= |log| && |log| - base == 4 * n + (if first then 0 else 2)
    requires log' == log + [Sent(shot)] + (if status == Stalled then [] else [Received(response)])
    requires status == Crashed ==> ParseReply(response).None?
    ensures status == Stalled ==> Waiting(log', base, first, n + 1)
    ensures status == Crashed ==> CrashedOn(log', base, first, n + 1)
    ensures status == Done ==> |log'| - base == 4 * (n + 1) + (if first then -2 else 0)
  {
    if status != Stalled {
      assert log'[|log'| - 1] == Received(response);
    }
  }

  /** The loop of `run` goes on: no message so far announced a sunk
      fleet, and the log stands `n` shots into the game, just before this
      player's shot when `attacking` and just before the opponent's
      otherwise. */
  ghost predicate Going(log: seq<Event>, base: nat, first: bool, n: nat, attacking: bool) {
    Quiet(log, base)
    && |log| - base == 4 * n + (if attacking then (if first then 0 else 2) else (if first then -2 else 0))
  }

  /** The loop of `run` has stopped with `status` after `n` of `count`
      shots, with the receive queue `inbox` and the records `board` and
      `oppshots` of the sea and of the opponent's shots:
      - `Stalled`: nothing was announced, and either the queue ran dry
        while waiting for a message or every aim was used;
      - `Crashed`: at the read `CrashedOn` names;
      - `Done` with `won`: on a reply read announcing the opponent's fleet sunk;
      - `Done` without `won`: on a reply sent announcing this player's
        fleet sunk, and it is. */
  ghost predicate Halted(log: seq<Event>, inbox: seq<string>, board: Matrix, oppshots: Matrix,
                         status: Status, won: bool, base: nat, first: bool, n: nat, count: nat)
  {
    && (status == Stalled ==> !won && Quiet(log, base)
                              && ((inbox == [] && Waiting(log, base, first, n))
                                  || (n == count && |log| - base == 4 * n + (if first then 0 else 2))))
    && (status != Stalled ==> Ends(log, base))
    && (status == Crashed ==> !won && CrashedOn(log, base, first, n))
    && (status == Done && won ==> ReportsWin(log))
    && (status == Done && !won ==> ReportsLoss(log) && IsSquare(board) && IsSquare(oppshots) && AllSunk(board, oppshots))
  }

  /** This player's half of a round, as the log shows it. With no aim
      left (`fired == n`) nothing happens and the loop stops waiting for
      button A. Otherwise the `n + 1`-th shot went out: the loop goes on
      after a reply that is no win, and stops otherwise. */
  lemma OwnHalfEnds(log: seq<Event>, log': seq<Event>, inbox': seq<string>, board: Matrix, oppshots: Matrix,
                    base: nat, first: bool, n: nat, fired: nat, count: nat,
                    status: Status, won: bool, shot: string, response: string)
    requires Going(log, base, first, n, true) && n <= count
    requires fired == n ==> n == count && status == Stalled && !won && log' == log
    requires fired == n + 1 ==> n < count && log' == log + [Sent(shot)] + (if status == Stalled then [] else [Received(response)])
    requires fired == n || fired == n + 1
    requires status == Stalled && fired == n + 1 ==> inbox' == []
    requires status == Crashed ==> ParseReply(response).None?
    requires status == Done ==> (won <==> ReportsWin(log'))
    requires status != Done ==> !won
    requires !won ==> Quiet(log', base)
    requires status != Stalled ==> Ends(log', base)
    ensures status == Done && !won ==> Going(log', base, first, fired, false)
    ensures status != Done || won ==> Halted(log', inbox', board, oppshots, status, won, base, first, fired, count)
  {
    if fired == n + 1 {
      AfterShot(log, log', base, first, n, status, shot, response);
    }
  }

  /** Where this micro:bit's `k`-th shot stands in a game begun at `base`;
      the reply to it comes next. */
  function OwnAt(base: nat, first: bool, k: nat): nat {
    base + 4 * k + (if first then 0 else 2)
  }

  /** Where the opponent's `j`-th shot stands in a game begun at `base`;
      this micro:bit's answer comes next. */
  function TheirAt(base: nat, first: bool, j: nat): nat {
    base + 4 * j + (if first then 2 else 0)
  }

  /** This micro:bit's `k`-th shot went out as the text of the cell `c`. */
  ghost predicate ShotAt(log: seq<Event>, base: nat, first: bool, k: nat, c: (int, int)) {
    OwnAt(base, first, k) < |log| && log[OwnAt(base, first, k)] == Sent(ShotMessage(c.0, c.1))
  }

  /** The reply to this micro:bit's `k`-th shot was read and splits into
      two fields, the first with hit flag `hit`. */
  ghost predicate ReplyAt(log: seq<Event>, base: nat, first: bool, k: nat, hit: bool) {
    && OwnAt(base, first, k) + 1 < |log| && log[OwnAt(base, first, k) + 1].Received?
    && ParseReply(log[OwnAt(base, first, k) + 1].text).Some?
    && ParseReply(log[OwnAt(base, first, k) + 1].text).value.0 == hit
  }

  /** The first `n` shots of this micro:bit went out at the cells `cells[k]`. */
  ghost predicate ShotsOut(log: seq<Event>, base: nat, first: bool, cells: seq<(int, int)>, n: nat) {
    n <= |cells| && forall k :: 0 <= k < n ==> ShotAt(log, base, first, k, cells[k])
  }

  /** The replies to the first `|hits|` shots of this micro:bit were read
      with hit flags `hits[k]`. */
  ghost predicate Replies(log: seq<Event>, base: nat, first: bool, hits: seq<bool>) {
    forall k :: 0 <= k < |hits| ==> ReplyAt(log, base, first, k, hits[k])
  }

  /** The first `n` shots of this micro:bit went out at the cells
      `cells[k]`, and the first `|hits|` of them got a reply with hit flag
      `hits[k]`. */
  ghost predicate Fired(log: seq<Event>, base: nat, first: bool, cells: seq<(int, int)>, n: nat, hits: seq<bool>) {
    |hits| <= n && ShotsOut(log, base, first, cells, n) && Replies(log, base, first, hits)
  }

  /** The opponent's last shot of `targets` was read as the text of its
      cell and answered with what `board` holds there, the last of
      `answers`, and with whether the record `start` marked with all of
      `answers` shows the whole fleet sunk. */
  ghost predicate AnsweredLast(log: seq<Event>, base: nat, first: bool, board: Matrix, start: Matrix,
                               targets: seq<(int, int)>, answers: seq<bool>)
    requires IsSquare(board) && IsSquare(start) && OnBoard(targets) && |answers| == |targets| > 0
  {
    var j := |targets| - 1;
    && TheirAt(base, first, j) + 1 < |log| && log[TheirAt(base, first, j)].Received?
    && ParseShot(log[TheirAt(base, first, j)].text) == Some(targets[j])
    && answers[j] == (board[targets[j].0][targets[j].1] == SHIP)
    && log[TheirAt(base, first, j) + 1] == Sent(ReplyMessage(answers[j], AllSunk(board, Marks(start, targets, answers))))
  }

  /** The shots of the opponent, all at cells of the board, were read and
      answered one by one as `targets` and `answers`, each as
      `AnsweredLast` says of the shots up to it. */
  ghost predicate Answered(log: seq<Event>, base: nat, first: bool, board: Matrix, start: Matrix,
                           targets: seq<(int, int)>, answers: seq<bool>)
    requires IsSquare(board) && IsSquare(start)
    decreases |targets|
  {
    && OnBoard(targets) && |answers| == |targets|
    && (targets == []
        || (var k := |targets| - 1;
            assert OnBoard(targets[..k]) by { assert forall i :: 0 <= i < k ==> targets[..k][i] == targets[i]; }
            && Answered(log, base, first, board, start, targets[..k], answers[..k])
            && AnsweredLast(log, base, first, board, start, targets, answers)))
  }

  /** `log'` begins with `log`: events are only ever added at the end. */
  ghost predicate Grows(log: seq<Event>, log': seq<Event>) {
    |log| <= |log'| && forall i :: 0 <= i < |log| ==> log'[i] == log[i]
  }

  /** Events added at the end of the log leave the ones before in place. */
  lemma Appended(log: seq<Event>, a: seq<Event>, b: seq<Event>)
    ensures Grows(log, log) && Grows(log, log + a) && Grows(log, log + a + b)
  {
  }

  /** What was sent and read stays so as the log grows. */
  lemma {:induction false} FiredLater(log: seq<Event>, log': seq<Event>, base: nat, first: bool,
                                      cells: seq<(int, int)>, n: nat, hits: seq<bool>)
    requires Fired(log, base, first, cells, n, hits) && Grows(log, log')
    ensures Fired(log', base, first, cells, n, hits)
  {
    ShotsOutLater(log, log', base, first, cells, n);
    RepliesLater(log, log', base, first, hits);
  }

  lemma ShotsOutLater(log: seq<Event>, log': seq<Event>, base: nat, first: bool, cells: seq<(int, int)>, n: nat)
    requires ShotsOut(log, base, first, cells, n) && Grows(log, log')
    ensures ShotsOut(log', base, first, cells, n)
  {
    forall k | 0 <= k < n
      ensures ShotAt(log', base, first, k, cells[k])
    {
      ShotAtLater(log, log', base, first, k, cells[k]);
    }
  }

  lemma ShotAtLater(log: seq<Event>, log': seq<Event>, base: nat, first: bool, k: nat, c: (int, int))
    requires ShotAt(log, base, first, k, c) && Grows(log, log')
    ensures ShotAt(log', base, first, k, c)
  {
    var i := OwnAt(base, first, k);
    assert log'[i] == log[i];
  }

  lemma RepliesLater(log: seq<Event>, log': seq<Event>, base: nat, first: bool, hits: seq<bool>)
    requires Replies(log, base, first, hits) && Grows(log, log')
    ensures Replies(log', base, first, hits)
  {
    forall k | 0 <= k < |hits|
      ensures ReplyAt(log', base, first, k, hits[k])
    {
      assert ReplyAt(log, base, first, k, hits[k]);
      var i := OwnAt(base, first, k) + 1;
      assert log'[i] == log[i];
    }
  }

  lemma {:induction false} AnsweredLater(log: seq<Event>, log': seq<Event>, base: nat, first: bool, board: Matrix, start: Matrix,
                                         targets: seq<(int, int)>, answers: seq<bool>)
    requires IsSquare(board) && IsSquare(start)
    requires Answered(log, base, first, board, start, targets, answers) && Grows(log, log')
    ensures Answered(log', base, first, board, start, targets, answers)
    decreases |targets|
  {
    if targets != [] {
      var k := |targets| - 1;
      AnsweredLater(log, log', base, first, board, start, targets[..k], answers[..k]);
      assert log'[TheirAt(base, first, k)] == log[TheirAt(base, first, k)];
      assert log'[TheirAt(base, first, k) + 1] == log[TheirAt(base, first, k) + 1];
    }
  }

  /** This micro:bit's next shot, at `cells[n]`, went out; its reply, when
      one was read and split into two fields, adds its hit flag. */
  lemma FiredOne(log: seq<Event>, log': seq<Event>, base: nat, first: bool, cells: seq<(int, int)>, n: nat, hits: seq<bool>,
                 status: Status, response: string)
    requires Fired(log, base, first, cells, n, hits) && |hits| == n && n < |cells| && |log| == OwnAt(base, first, n)
    requires log' == log + [Sent(ShotMessage(cells[n].0, cells[n].1))] + (if status == Stalled then [] else [Received(response)])
    requires status == Done ==> ParseReply(response).Some?
    ensures Fired(log', base, first, cells, n + 1, if status == Done then hits + [ParseReply(response).value.0] else hits)
  {
    var shot := Sent(ShotMessage(cells[n].0, cells[n].1));
    Appended(log, [shot], if status == Stalled then [] else [Received(response)]);
    FiredLater(log, log', base, first, cells, n, hits);
    assert log'[|log|] == shot;
    assert ShotAt(log', base, first, n, cells[n]);
    if status == Done {
      var hits' := hits + [ParseReply(response).value.0];
      assert log'[|log| + 1] == Received(response);
      forall k | 0 <= k < |hits'|
        ensures ReplyAt(log', base, first, k, hits'[k])
      {
        if k < n {
          assert hits'[k] == hits[k];
        }
      }
    }
  }

  /** The opponent's next shot was read as the text of `cell`, on the
      board, and answered with what `board` holds there and whether the
      record shows the fleet sunk after its mark. */
  lemma AnsweredOne(log: seq<Event>, log': seq<Event>, base: nat, first: bool, board: Matrix, start: Matrix,
                    targets: seq<(int, int)>, answers: seq<bool>, request: string, cell: (int, int), hit: bool, lost: bool)
    requires IsSquare(board) && IsSquare(start)
    requires Answered(log, base, first, board, start, targets, answers) && |log| == TheirAt(base, first, |targets|)
    requires ParseShot(request) == Some(cell) && InBounds(cell.0, cell.1) && hit == (board[cell.0][cell.1] == SHIP)
    requires lost == AllSunk(board, Marks(start, targets + [cell], answers + [hit]))
    requires log' == log + [Received(request)] + [Sent(ReplyMessage(hit, lost))]
    ensures Answered(log', base, first, board, start, targets + [cell], answers + [hit])
  {
    var targets', answers' := targets + [cell], answers + [hit];
    MarksPrefix(start, targets, [cell], []);
    Appended(log, [Received(request)], [Sent(ReplyMessage(hit, lost))]);
    AnsweredLater(log, log', base, first, board, start, targets, answers);
    assert targets'[..|targets|] == targets && answers'[..|targets|] == answers;
    assert log'[TheirAt(base, first, |targets|)] == Received(request);
    assert log'[TheirAt(base, first, |targets|) + 1] == Sent(ReplyMessage(hit, lost));
  }

  /** No reply after the first `|hits|` was read, except one that does not
      split into two fields, on which `send_shot` raises before marking:
      every reply that was read and split is among `hits`. */
  ghost predicate NoLaterReply(log: seq<Event>, base: nat, first: bool, hits: seq<bool>) {
    || |log| <= OwnAt(base, first, |hits|) + 1
    || (|log| == OwnAt(base, first, |hits|) + 2 && ParseReply(log[|log| - 1].text).None?)
  }

  /** This micro:bit's own shots so far, in a game begun at `base`: the
      first `n` went to `cells`, the first `|hits|` replies were read with
      hit flags `hits`, every later reply read made Python raise, and the
      record `myshots` is `mine` marked with exactly those flags. */
  ghost predicate OwnTally(log: seq<Event>, base: nat, first: bool, cells: seq<(int, int)>,
                           mine: Matrix, myshots: Matrix, n: nat, hits: seq<bool>)
  {
    && IsSquare(mine) && OnBoard(cells)
    && Fired(log, base, first, cells, n, hits) && n <= |hits| + 1 && NoLaterReply(log, base, first, hits)
    && myshots == Marks(mine, cells, hits)
  }

  /** No shot of the opponent after the first `|targets|` was read,
      except one on which `receive_shot` raises before marking: every
      shot that was read, parsed and on the board is among `targets`. */
  ghost predicate NoLaterShot(log: seq<Event>, base: nat, first: bool, targets: seq<(int, int)>) {
    || |log| <= TheirAt(base, first, |targets|)
    || (|log| == TheirAt(base, first, |targets|) + 1 && BadShot(log[|log| - 1].text))
  }

  /** The opponent's shots so far, in a game begun at `base`: they were
      read as `targets` and answered with `answers`, every later shot read
      made Python raise, and the record `oppshots` is `theirs` marked with
      exactly those shots. */
  ghost predicate TheirTally(log: seq<Event>, base: nat, first: bool, board: Matrix,
                             theirs: Matrix, oppshots: Matrix, targets: seq<(int, int)>, answers: seq<bool>)
  {
    && IsSquare(theirs) && IsSquare(board)
    && Answered(log, base, first, board, theirs, targets, answers)
    && NoLaterShot(log, base, first, targets)
    && oppshots == Marks(theirs, targets, answers)
  }

  /** Events added without a further reply read and split keep the tally. */
  lemma OwnTallyKept(log: seq<Event>, log': seq<Event>, base: nat, first: bool, cells: seq<(int, int)>,
                     mine: Matrix, myshots: Matrix, n: nat, hits: seq<bool>)
    requires OwnTally(log, base, first, cells, mine, myshots, n, hits)
    requires Grows(log, log') && NoLaterReply(log', base, first, hits)
    ensures OwnTally(log', base, first, cells, mine, myshots, n, hits)
  {
    FiredLater(log, log', base, first, cells, n, hits);
  }

  /** Events added without a further shot of the opponent read and
      answered keep its tally. */
  lemma TheirTallyKept(log: seq<Event>, log': seq<Event>, base: nat, first: bool, board: Matrix,
                       theirs: Matrix, oppshots: Matrix, targets: seq<(int, int)>, answers: seq<bool>)
    requires TheirTally(log, base, first, board, theirs, oppshots, targets, answers)
    requires Grows(log, log') && NoLaterShot(log', base, first, targets)
    ensures TheirTally(log', base, first, board, theirs, oppshots, targets, answers)
  {
    AnsweredLater(log, log', base, first, board, theirs, targets, answers);
  }

  /** This micro:bit's shot at `cells[n]` keeps its tally: a reply read
      and split into two fields adds its hit flag, which is marked. */
  lemma OwnTallied(log: seq<Event>, log': seq<Event>, base: nat, first: bool, cells: seq<(int, int)>,
                   mine: Matrix, myshots: Matrix, myshots': Matrix, n: nat, hits: seq<bool>, status: Status, response: string)
    requires OwnTally(log, base, first, cells, mine, myshots, n, hits)
    requires |hits| == n && n < |cells| && |log| == OwnAt(base, first, n)
    requires log' == log + [Sent(ShotMessage(cells[n].0, cells[n].1))] + (if status == Stalled then [] else [Received(response)])
    requires status == Crashed ==> ParseReply(response).None?
    requires status == Done ==> ParseReply(response).Some?
                                && myshots' == Marked(myshots, cells[n].0, cells[n].1, ParseReply(response).value.0)
    requires status != Done ==> myshots' == myshots
    ensures OwnTally(log', base, first, cells, mine, myshots', n + 1,
                     hits + (if status == Done then [ParseReply(response).value.0] else []))
  {
    FiredOne(log, log', base, first, cells, n, hits, status, response);
    if status == Done {
      MarksNext(mine, cells, hits, ParseReply(response).value.0);
    } else {
      assert hits + [] == hits;
    }
  }

  /** The opponent's shot, read as a cell of the board and answered,
      keeps its tally: the cell and the answer are added and marked. */
  lemma TheirTallied(log: seq<Event>, log': seq<Event>, base: nat, first: bool, board: Matrix,
                     theirs: Matrix, oppshots: Matrix, oppshots': Matrix, targets: seq<(int, int)>, answers: seq<bool>,
                     request: string, cell: (int, int), hit: bool, lost: bool)
    requires TheirTally(log, base, first, board, theirs, oppshots, targets, answers)
    requires |log| == TheirAt(base, first, |targets|)
    requires ParseShot(request) == Some(cell) && InBounds(cell.0, cell.1) && hit == (board[cell.0][cell.1] == SHIP)
    requires oppshots' == Marked(oppshots, cell.0, cell.1, hit) && lost == AllSunk(board, oppshots')
    requires log' == log + [Received(request)] + [Sent(ReplyMessage(hit, lost))]
    ensures TheirTally(log', base, first, board, theirs, oppshots', targets + [cell], answers + [hit])
  {
    MarksAppend(theirs, targets, answers, cell, hit);
    AnsweredOne(log, log', base, first, board, theirs, targets, answers, request, cell, hit, lost);
  }

  /** What the loop of `run` has done so far, in a game begun at `base`
      from the cursor `start` and the records `mine` and `theirs`: the turn
      order holds, the cursor stands at the cell of the last of the `n`
      shots fired (the trail of the aims), and both records are tallied. */
  ghost predicate Progress(log: seq<Event>, board: Matrix, myshots: Matrix, oppshots: Matrix, cursor: (int, int),
                           aims: seq<seq<Tilt>>, base: nat, first: bool, start: (int, int), mine: Matrix, theirs: Matrix,
                           n: nat, hits: seq<bool>, targets: seq<(int, int)>, answers: seq<bool>)
  {
    && InTurn(log, base, first) && n <= |aims|
    && cursor == (if n == 0 then start else Trail(start, aims)[n - 1])
    && OwnTally(log, base, first, Trail(start, aims), mine, myshots, n, hits)
    && TheirTally(log, base, first, board, theirs, oppshots, targets, answers)
  }

  /** This player's `n + 1`-th shot, aimed with `aims[n]` from the cursor
      and sent, keeps the progress: the cursor moves to the next cell of
      the trail, and a reply read and split into two fields adds its hit
      flag, which is marked there. */
  lemma OwnProgress(log: seq<Event>, log': seq<Event>, board: Matrix, myshots: Matrix, myshots': Matrix, oppshots: Matrix,
                    cursor: (int, int), cursor': (int, int),
                    aims: seq<seq<Tilt>>, base: nat, first: bool, start: (int, int), mine: Matrix, theirs: Matrix,
                    n: nat, hits: seq<bool>, targets: seq<(int, int)>, answers: seq<bool>, status: Status, response: string)
    requires Progress(log, board, myshots, oppshots, cursor, aims, base, first, start, mine, theirs, n, hits, targets, answers)
    requires n < |aims| && |hits| == n && |log| == OwnAt(base, first, n) && TheirAt(base, first, |targets|) == |log| + 2
    requires cursor' == Aim(cursor, aims[n]) && InTurn(log', base, first) && IsSquare(myshots) && InBounds(cursor'.0, cursor'.1)
    requires log' == log + [Sent(ShotMessage(cursor'.0, cursor'.1))] + (if status == Stalled then [] else [Received(response)])
    requires status == Crashed ==> ParseReply(response).None?
    requires status == Done ==> ParseReply(response).Some?
                                && myshots' == Marked(myshots, cursor'.0, cursor'.1, ParseReply(response).value.0)
    requires status != Done ==> myshots' == myshots
    ensures Progress(log', board, myshots', oppshots, cursor', aims, base, first, start, mine, theirs, n + 1,
                     hits + (if status == Done then [ParseReply(response).value.0] else []), targets, answers)
  {
    OwnTallyNext(log, log', start, aims, base, first, cursor, cursor', mine, myshots, myshots', n, hits, status, response);
    Appended(log, [Sent(ShotMessage(cursor'.0, cursor'.1))], if status == Stalled then [] else [Received(response)]);
    TheirTallyKept(log, log', base, first, board, theirs, oppshots, targets, answers);
  }

  /** The own half of `OwnProgress`: the shot goes to the next cell of the
      trail, and its tally grows by the hit flag of the reply, if any. */
  lemma OwnTallyNext(log: seq<Event>, log': seq<Event>, start: (int, int), aims: seq<seq<Tilt>>, base: nat, first: bool,
                     cursor: (int, int), cursor': (int, int), mine: Matrix, myshots: Matrix, myshots': Matrix,
                     n: nat, hits: seq<bool>, status: Status, response: string)
    requires n < |aims| && |hits| == n && |log| == OwnAt(base, first, n)
    requires cursor == (if n == 0 then start else Trail(start, aims)[n - 1]) && cursor' == Aim(cursor, aims[n])
    requires IsSquare(myshots) && InBounds(cursor'.0, cursor'.1)
    requires OwnTally(log, base, first, Trail(start, aims), mine, myshots, n, hits)
    requires log' == log + [Sent(ShotMessage(cursor'.0, cursor'.1))] + (if status == Stalled then [] else [Received(response)])
    requires status == Crashed ==> ParseReply(response).None?
    requires status == Done ==> ParseReply(response).Some?
                                && myshots' == Marked(myshots, cursor'.0, cursor'.1, ParseReply(response).value.0)
    requires status != Done ==> myshots' == myshots
    ensures cursor' == Trail(start, aims)[n]
    ensures OwnTally(log', base, first, Trail(start, aims), mine, myshots', n + 1,
                     hits + (if status == Done then [ParseReply(response).value.0] else []))
  {
    var cells := Trail(start, aims);
    TrailStep(start, aims, n);
    OwnTallied(log, log', base, first, cells, mine, myshots, myshots', n, hits, status, response);
  }

  /** The opponent's shot keeps the progress: one read as a cell of the
      board and answered adds that cell and the answer, which is marked;
      a stall or a crash adds nothing. */
  lemma TheirProgress(log: seq<Event>, log': seq<Event>, board: Matrix, myshots: Matrix, oppshots: Matrix, oppshots': Matrix,
                      cursor: (int, int), aims: seq<seq<Tilt>>, base: nat, first: bool, start: (int, int), mine: Matrix, theirs: Matrix,
                      n: nat, hits: seq<bool>, targets: seq<(int, int)>, answers: seq<bool>,
                      status: Status, request: string, cell: Option<(int, int)>, hit: bool, lost: bool)
    requires Progress(log, board, myshots, oppshots, cursor, aims, base, first, start, mine, theirs, n, hits, targets, answers)
    requires |hits| == n && |log| + 2 == OwnAt(base, first, n) && |log| == TheirAt(base, first, |targets|)
    requires InTurn(log', base, first)
    requires status == Stalled ==> log' == log
    requires status == Crashed ==> log' == log + [Received(request)] && BadShot(request)
    requires status != Done ==> oppshots' == oppshots
    requires status == Done ==> && cell.Some? && ParseShot(request) == cell && InBounds(cell.value.0, cell.value.1)
                                && hit == (board[cell.value.0][cell.value.1] == SHIP)
                                && oppshots' == Marked(oppshots, cell.value.0, cell.value.1, hit)
                                && lost == AllSunk(board, oppshots')
                                && log' == log + [Received(request)] + [Sent(ReplyMessage(hit, lost))]
    ensures Progress(log', board, myshots, oppshots', cursor, aims, base, first, start, mine, theirs, n, hits,
                     if status == Done then targets + [cell.value] else targets,
                     if status == Done then answers + [hit] else answers)
  {
    Appended(log, [Received(request)], if status == Done then [Sent(ReplyMessage(hit, lost))] else []);
    OwnTallyKept(log, log', base, first, Trail(start, aims), mine, myshots, n, hits);
    if status == Done {
      TheirTallied(log, log', base, first, board, theirs, oppshots, oppshots', targets, answers, request, cell.value, hit, lost);
    } else {
      TheirTallyKept(log, log', base, first, board, theirs, oppshots, targets, answers);
    }
  }

  lemma QuietStep(log: seq<Event>, e: Event, base: nat)
    requires Quiet(log, base)
    ensures !SaysLost(e.text) ==> Quiet(log + [e], base)
    ensures Ends(log + [e], base)
  {
    assert (log + [e])[..|log|] == log;
  }

  /** The non-empty messages of a receive queue, oldest first: the ones a
      `while not response` loop can return. */
  function NonEmpty(queue: seq<string>): seq<string> {
    if queue == [] then [] else (if queue[0] == "" then [] else [queue[0]]) + NonEmpty(queue[1..])
  }

  /** The texts of the messages read, oldest first. */
  function Heard(log: seq<Event>): seq<string> {
    if log == [] then []
    else Heard(log[..|log| - 1]) + (if log[|log| - 1].Received? then [log[|log| - 1].text] else [])
  }

  lemma HeardAppend(log: seq<Event>, e: Event)
    ensures Heard(log + [e]) == Heard(log) + (if e.Received? then [e.text] else [])
  {
    assert (log + [e])[..|log|] == log;
  }

  /** Between two states of a micro:bit, every non-empty message of the
      queue has been read in order or is still queued: none was skipped and
      none was invented. */
  ghost predicate Relayed(log: seq<Event>, inbox: seq<string>, log0: seq<Event>, inbox0: seq<string>) {
    Heard(log) + NonEmpty(inbox) == Heard(log0) + NonEmpty(inbox0)
  }

  /** This player's shot went out and no reply came. */
  lemma ShotUnanswered(log: seq<Event>, log': seq<Event>, base: nat, first: bool, shot: string)
    requires InTurn(log, base, first) && Phase(|log| - base, first) == 0 && Quiet(log, base)
    requires !SaysLost(shot) && log' == log + [Sent(shot)]
    ensures InTurn(log', base, first) && Quiet(log', base)
  {
    InTurnStep(log, Sent(shot), base, first);
    QuietStep(log, Sent(shot), base);
  }

  /** This player's shot at `(row, col)` went out, and the reply, if one
      came, was read: the turn order holds, a reply ends the exchange, and
      the game is won exactly when the reply reports the win. */
  lemma ShotOut(log: seq<Event>, log': seq<Event>, base: nat, first: bool, row: int, col: int,
                status: Status, won: bool, response: string)
    requires InTurn(log, base, first) && Phase(|log| - base, first) == 0 && Quiet(log, base)
    requires log' == log + [Sent(ShotMessage(row, col))] + (if status == Stalled then [] else [Received(response)])
    requires status == Crashed <==> status != Stalled && ParseReply(response) == None
    requires status == Done ==> won == ParseReply(response).value.1
    requires status != Done ==> !won
    ensures InTurn(log', base, first)
    ensures status == Done ==> (won <==> ReportsWin(log'))
    ensures !won ==> Quiet(log', base)
    ensures status != Stalled ==> Ends(log', base)
  {
    ShotNotLost(row, col);
    if status == Stalled {
      ShotUnanswered(log, log', base, first, ShotMessage(row, col));
    } else {
      ShotAnswered(log, log', base, first, ShotMessage(row, col), response);
      LostParses(response);
      if status == Done {
        LostFlagMeans(response);
      }
    }
  }

  /** This player's shot went out and `reply` came back: the game ends
      there, and with a win exactly when the reply reads as one. */
  lemma ShotAnswered(log: seq<Event>, log': seq<Event>, base: nat, first: bool, shot: string, reply: string)
    requires InTurn(log, base, first) && Phase(|log| - base, first) == 0 && Quiet(log, base)
    requires !SaysLost(shot) && log' == log + [Sent(shot)] + [Received(reply)]
    ensures InTurn(log', base, first) && Ends(log', base)
    ensures ReportsWin(log') <==> SaysLost(reply)
    ensures !SaysLost(reply) ==> Quiet(log', base)
  {
    var sent := log + [Sent(shot)];
    ShotUnanswered(log, sent, base, first, shot);
    PhaseNext(log, sent, base, first);
    InTurnStep(sent, Received(reply), base, first);
    QuietStep(sent, Received(reply), base);
  }

  /** The opponent's shot was read and raised. */
  lemma ShotGarbled(log: seq<Event>, log': seq<Event>, base: nat, first: bool, request: string)
    requires InTurn(log, base, first) && Phase(|log| - base, first) == 2 && Quiet(log, base)
    requires log' == log + [Received(request)]
    ensures InTurn(log', base, first) && Ends(log', base)
  {
    InTurnStep(log, Received(request), base, first);
    QuietStep(log, Received(request), base);
  }

  /** The opponent's shot was read, and it is no announcement. */
  lemma ShotRead(log: seq<Event>, log': seq<Event>, base: nat, first: bool, request: string)
    requires InTurn(log, base, first) && Phase(|log| - base, first) == 2 && Quiet(log, base)
    requires !SaysLost(request) && log' == log + [Received(request)]
    ensures InTurn(log', base, first) && Quiet(log', base)
  {
    InTurnStep(log, Received(request), base, first);
    QuietStep(log, Received(request), base);
  }

  /** The answer to the opponent's shot went out: the game ends there,
      and it announces this player's fleet sunk exactly when the answer
      says so. */
  lemma ReplySent(log: seq<Event>, log': seq<Event>, base: nat, first: bool, reply: string)
    requires InTurn(log, base, first) && Phase(|log| - base, first) == 3 && Quiet(log, base)
    requires log' == log + [Sent(reply)]
    ensures InTurn(log', base, first) && Ends(log', base)
    ensures ReportsLoss(log') <==> SaysLost(reply)
    ensures !SaysLost(reply) ==> Quiet(log', base)
  {
    InTurnStep(log, Sent(reply), base, first);
    QuietStep(log, Sent(reply), base);
  }

  /** The opponent's shot was read and answered: the shot is no
      announcement, and the answer is one exactly when it says so. */
  lemma ShotReplied(log: seq<Event>, log': seq<Event>, base: nat, first: bool, request: string, reply: string)
    requires InTurn(log, base, first) && Phase(|log| - base, first) == 2 && Quiet(log, base)
    requires !SaysLost(request) && log' == log + [Received(request)] + [Sent(reply)]
    ensures InTurn(log', base, first) && Ends(log', base)
    ensures ReportsLoss(log') <==> SaysLost(reply)
    ensures !SaysLost(reply) ==> Quiet(log', base)
  {
    var read := log + [Received(request)];
    ShotRead(log, read, base, first, request);
    PhaseNext(log, read, base, first);
    InTurnStep(read, Sent(reply), base, first);
    QuietStep(read, Sent(reply), base);
  }

  /** The opponent's half of a round as it shows in the log: nothing on a
      silent radio, the shot alone when it raised, and the shot and its
      answer otherwise; the answer is an announcement exactly when `lost`. */
  lemma ShotTaken(log: seq<Event>, log': seq<Event>, base: nat, first: bool,
                  status: Status, request: string, hit: bool, lost: bool)
    requires InTurn(log, base, first) && Phase(|log| - base, first) == 2 && Quiet(log, base)
    requires status == Stalled ==> log' == log
    requires status == Crashed ==> log' == log + [Received(request)]
    requires status == Done ==> ParseShot(request).Some? && log' == log + [Received(request)] + [Sent(ReplyMessage(hit, lost))]
    ensures InTurn(log', base, first)
    ensures |log'| == |log| + (if status == Stalled then 0 else if status == Done then 2 else 1)
    ensures status == Done ==> (lost <==> ReportsLoss(log'))
    ensures status == Stalled || (status == Done && !lost) ==> Quiet(log', base)
    ensures status != Stalled ==> Ends(log', base)
  {
    if status == Done {
      LostIsNoShot(request);
      ReplySaysLost(hit, lost);
      ShotReplied(log, log', base, first, request, ReplyMessage(hit, lost));
    } else if status == Crashed {
      ShotGarbled(log, log', base, first, request);
    }
  }

  class Game {
    const sea: Sea
    const me: Player
    const opponent: Player
    var winner: string
    /** Messages sent by the other micro:bit and not yet read, oldest first. */
    var inbox: seq<string>
    /** This micro:bit's radio actions so far, oldest first. */
    var log: seq<Event>

    ghost predicate Valid()
      reads sea, me, opponent
    {
      me != opponent && Charted(sea.board) && me.Valid() && opponent.Valid()
      && Agrees(sea.board, opponent.shots)
    }

    /** `Game()`: a populated sea (at most `fuel` attempts), two fresh shot
        records, no winner; `inbox` is what the other micro:bit will send. */
    constructor (fuel: nat, incoming: seq<string>)
      ensures Valid() && sea.Valid() && fresh(sea) && fresh(me) && fresh(opponent)
      ensures me.shots == Filled(UNKNOWN) && opponent.shots == Filled(UNKNOWN)
      ensures me.number == "" && opponent.number == ""
      ensures winner == "" && inbox == incoming && log == []
      ensures sea.settled ==> Sizes(sea.fleet) == DefaultShips
    {
      sea := new Sea(DefaultShips, fuel);
      me := new Player();
      opponent := new Player();
      winner := "";
      inbox := incoming;
      log := [];
    }

    /** `radio.send(message)`. */
    method Send(message: string)
      modifies this`log
      ensures log == old(log) + [Sent(message)]
      ensures Relayed(log, inbox, old(log), inbox)
    {
      HeardAppend(log, Sent(message));
      log := log + [Sent(message)];
    }

    /** `response = None; while not response: response = radio.receive()`:
        the first non-empty message, or `ok == false` when none is left. */
    method Receive() returns (ok: bool, message: string)
      modifies this`inbox, this`log
      ensures ok == (Unread(old(inbox)) != [])
      ensures ok ==> message == Unread(old(inbox))[0] && message != ""
                     && inbox == Unread(old(inbox))[1..] && log == old(log) + [Received(message)]
      ensures !ok ==> inbox == [] && log == old(log)
      ensures NonEmpty(old(inbox)) == (if ok then [message] else []) + NonEmpty(inbox)
      ensures Relayed(log, inbox, old(log), old(inbox))
    {
      while inbox != [] && inbox[0] == ""
        invariant Unread(inbox) == Unread(old(inbox)) && log == old(log)
        invariant NonEmpty(inbox) == NonEmpty(old(inbox))
        decreases |inbox|
      {
        assert NonEmpty(inbox) == [] + NonEmpty(inbox[1..]);
        inbox := inbox[1..];
      }
      if inbox == [] {
        return false, "";
      }
      message := inbox[0];
      assert NonEmpty(inbox) == [message] + NonEmpty(inbox[1..]);
      inbox := inbox[1..];
      HeardAppend(log, Received(message));
      log := log + [Received(message)];
      assert Heard(log) + NonEmpty(inbox) == Heard(old(log)) + ([message] + NonEmpty(inbox));
      return true, message;
    }

    /** `lost()`. */
    method Lost() returns (lost: bool)
      requires IsSquare(sea.board) && opponent.Valid()
      ensures lost == AllSunk(sea.board, opponent.shots)
    {
      lost := AllHit(sea.board, opponent.shots);
    }

    /** `send_shot()`: aim with `polls`, send the cell, wait for the reply,
        mark its hit flag at the cell and return its won flag. Python raises
        when the reply does not split into exactly two fields. */
    method SendShot(polls: seq<Tilt>) returns (status: Status, won: bool, response: string)
      requires Valid()
      modifies me`row, me`col, me`shots, this`inbox, this`log
      ensures Valid() && Relayed(log, inbox, old(log), old(inbox))
      ensures (me.row, me.col) == Aim((old(me.row), old(me.col)), polls)
      ensures log == old(log) + [Sent(ShotMessage(me.row, me.col))]
                     + (if status == Stalled then [] else [Received(response)])
      ensures status == Stalled <==> Unread(old(inbox)) == []
      ensures status == Stalled ==> inbox == []
      ensures status != Stalled ==> response == Unread(old(inbox))[0] && inbox == Unread(old(inbox))[1..]
      ensures status == Crashed <==> status != Stalled && ParseReply(response) == None
      ensures status == Done ==> won == ParseReply(response).value.1
                                 && me.shots == Marked(old(me.shots), me.row, me.col, ParseReply(response).value.0)
      ensures status != Done ==> !won && me.shots == old(me.shots)
    {
      me.Shoot(polls);
      Send(ShotMessage(me.row, me.col));
      var ok;
      ok, response := Receive();
      if !ok {
        return Stalled, false, response;
      }
      var reply := ParseReply(response);
      if reply.None? {
        return Crashed, false, response;
      }
      me.Mark(me.row, me.col, reply.value.0);
      return Done, reply.value.1, response;
    }

    /** `receive_shot()`: wait for the opponent's shot, look it up in the
        sea, mark it in the opponent's record and send back the hit flag
        and `lost()`. Python raises when the message does not split into
        two integers, and `blink` raises for a cell off the 5x5 display. */
    method ReceiveShot() returns (status: Status, hit: bool, lost: bool, request: string, cell: Option<(int, int)>)
      requires Valid()
      modifies opponent`shots, this`inbox, this`log
      ensures Valid() && Relayed(log, inbox, old(log), old(inbox))
      ensures status == Stalled <==> Unread(old(inbox)) == []
      ensures status == Stalled ==> inbox == []
      ensures status != Stalled ==> request == Unread(old(inbox))[0] && inbox == Unread(old(inbox))[1..] && cell == ParseShot(request)
      ensures status == Crashed <==> status != Stalled && BadShot(request)
      ensures status == Done ==>
        hit == (sea.board[cell.value.0][cell.value.1] == SHIP) && opponent.shots == Marked(old(opponent.shots), cell.value.0, cell.value.1, hit)
      ensures status == Done ==> lost == AllSunk(sea.board, opponent.shots)
                                 && log == old(log) + [Received(request)] + [Sent(ReplyMessage(hit, lost))]
      ensures status != Done ==> !hit && !lost && opponent.shots == old(opponent.shots)
      ensures status == Stalled ==> log == old(log)
      ensures status == Crashed ==> log == old(log) + [Received(request)]
    {
      var ok;
      ok, request := Receive();
      if !ok {
        return Stalled, false, false, request, None;
      }
      cell := ParseShot(request);
      if cell.None? || !(0 <= cell.value.0 < N && 0 <= cell.value.1 < N) {
        return Crashed, false, false, request, cell;
      }
      hit, lost := Answer(cell.value.0, cell.value.1);
      return Done, hit, lost, request, cell;
    }

    /** The part of `receive_shot()` after the shot is read: look the cell
        up, mark it in the opponent's record, and send back the hit flag and
        `lost()`. */
    method Answer(r: int, c: int) returns (hit: bool, lost: bool)
      requires Valid() && InBounds(r, c)
      modifies opponent`shots, this`log
      ensures Valid() && Relayed(log, inbox, old(log), inbox)
      ensures hit == (sea.board[r][c] == SHIP)
      ensures opponent.shots == Marked(old(opponent.shots), r, c, hit)
      ensures lost == AllSunk(sea.board, opponent.shots)
      ensures log == old(log) + [Sent(ReplyMessage(hit, lost))]
    {
      hit := sea.Hit(r, c);
      assert Wrap(r) == r && Wrap(c) == c;
      ShotKeepsAgreement(sea.board, opponent.shots, r, c);
      opponent.Mark(r, c, hit);
      lost := Lost();
      Send(ReplyMessage(hit, lost));
    }

    /** The inner `while True` of `choose_players`: read messages, ignoring
        all but `expected`, until `expected` arrives. It arrives exactly
        when it is among the queued messages; everything read before it is
        discarded, and what follows it stays queued. */
    method Await(expected: string) returns (ok: bool)
      modifies this`inbox, this`log
      ensures Relayed(log, inbox, old(log), old(inbox))
      ensures ok <==> expected in NonEmpty(old(inbox))
      ensures |log| >= |old(log)| && log[..|old(log)|] == old(log)
      ensures forall i :: |old(log)| <= i < |log| ==> log[i].Received?
      ensures forall i :: |old(log)| <= i < |log| - 1 ==> log[i].text != expected
      ensures ok ==> |log| > |old(log)| && log[|log| - 1] == Received(expected)
      ensures !ok ==> inbox == [] && (|log| > |old(log)| ==> log[|log| - 1].text != expected)
    {
      ghost var heard: seq<string> := [];
      while true
        invariant |log| >= |old(log)| && log[..|old(log)|] == old(log)
        invariant forall i :: |old(log)| <= i < |log| ==> log[i].Received? && log[i].text != expected
        invariant Relayed(log, inbox, old(log), old(inbox))
        invariant heard + NonEmpty(inbox) == NonEmpty(old(inbox)) && expected !in heard
        decreases |inbox|
      {
        ghost var before := log;
        UnreadDropsEmpty(inbox);
        var got, message := Receive();
        if !got {
          assert heard + [] == heard;
          return false;
        }
        assert log[..|before|] == before;
        assert (heard + [message]) + NonEmpty(inbox) == NonEmpty(old(inbox));
        if message == expected {
          assert NonEmpty(old(inbox))[|heard|] == expected;
          return true;
        }
        heard := heard + [message];
      }
    }

    /** `choose_players()` once a button is pressed: with A, announce
        PLAYER_1 and wait for PLAYER_2's answer; with B, wait for PLAYER_1's
        announcement and answer it. Either way the two records get distinct
        numbers, and `me` is PLAYER_1 exactly when A was pressed. It
        succeeds exactly when the awaited announcement is queued. */
    method ChooseRoles(button: Button) returns (status: Status)
      requires Valid()
      modifies me`number, opponent`number, this`inbox, this`log
      ensures Valid() && Relayed(log, inbox, old(log), old(inbox))
      ensures status != Crashed
      ensures status == Done <==> (if button == A then TwoReady else OneReady) in NonEmpty(old(inbox))
      ensures status == Done ==> me.number != opponent.number
                                 && {me.number, opponent.number} == {PlayerOne, PlayerTwo}
                                 && (me.number == PlayerOne <==> button == A)
      ensures status == Done && button == A ==>
        |log| >= |old(log)| + 2 && log[|old(log)|] == Sent(OneReady) && log[|log| - 1] == Received(TwoReady)
      ensures status == Done && button == B ==>
        |log| >= |old(log)| + 2 && log[|log| - 2] == Received(OneReady) && log[|log| - 1] == Sent(TwoReady)
      ensures status == Stalled ==> inbox == [] && me.number == old(me.number) && opponent.number == old(opponent.number)
      ensures button == A ==> |log| > |old(log)| && log[|old(log)|] == Sent(OneReady)
      ensures button == B && status == Stalled ==> forall i :: |old(log)| <= i < |log| ==> log[i].Received?
    {
      ghost var start := log;
      if button == A {
        Send(OneReady);
        var ok := Await(TwoReady);
        assert log[|start|] == log[..|start| + 1][|start|];
        if !ok {
          return Stalled;
        }
        me.number, opponent.number := PlayerOne, PlayerTwo;
      } else {
        var ok := Await(OneReady);
        if !ok {
          return Stalled;
        }
        Send(TwoReady);
        me.number, opponent.number := PlayerTwo, PlayerOne;
      }
      return Done;
    }

    /** This player's shot within `run` (`send_shot()`), with the turn order
        and the announcements carried along: the shot message is never an
        announcement, and the reply is one exactly when it reports the win. */
    method Attack(polls: seq<Tilt>, ghost base: nat, ghost first: bool) returns (status: Status, won: bool, response: string)
      requires Valid() && InTurn(log, base, first) && Phase(|log| - base, first) == 0 && Quiet(log, base)
      modifies me`row, me`col, me`shots, this`inbox, this`log
      ensures Valid() && InTurn(log, base, first) && Relayed(log, inbox, old(log), old(inbox))
      ensures (me.row, me.col) == Aim((old(me.row), old(me.col)), polls)
      ensures status == Stalled <==> Unread(old(inbox)) == []
      ensures status == Stalled ==> inbox == []
      ensures status != Stalled ==> response == Unread(old(inbox))[0]
      ensures log == old(log) + [Sent(ShotMessage(me.row, me.col))]
                     + (if status == Stalled then [] else [Received(response)])
      ensures |log| == |old(log)| + (if status == Stalled then 1 else 2)
      ensures status == Crashed <==> status != Stalled && ParseReply(response).None?
      ensures status == Done ==> won == ParseReply(response).value.1
                                 && me.shots == Marked(old(me.shots), me.row, me.col, ParseReply(response).value.0)
      ensures status != Done ==> me.shots == old(me.shots)
      ensures status == Done ==> (won <==> ReportsWin(log))
      ensures status != Done ==> !won
      ensures !won ==> Quiet(log, base)
      ensures status != Stalled ==> Ends(log, base)
    {
      status, won, response := SendShot(polls);
      ShotOut(old(log), log, base, first, me.row, me.col, status, won, response);
    }

    /** The opponent's shot within `run` (`receive_shot()`), with the turn
        order and the announcements carried along: a shot that is read
        without raising is never an announcement, and the reply is one
        exactly when this player has lost. */
    method Defend(ghost base: nat, ghost first: bool) returns (status: Status, hit: bool, lost: bool, request: string, cell: Option<(int, int)>)
      requires Valid() && InTurn(log, base, first) && Phase(|log| - base, first) == 2 && Quiet(log, base)
      modifies opponent`shots, this`inbox, this`log
      ensures Valid() && InTurn(log, base, first) && Relayed(log, inbox, old(log), old(inbox))
      ensures status == Stalled <==> Unread(old(inbox)) == []
      ensures status != Stalled ==> request == Unread(old(inbox))[0] && cell == ParseShot(request)
      ensures status == Crashed <==> status != Stalled && BadShot(request)
      ensures status == Done ==> hit == (sea.board[cell.value.0][cell.value.1] == SHIP)
                                 && opponent.shots == Marked(old(opponent.shots), cell.value.0, cell.value.1, hit)
      ensures status != Done ==> opponent.shots == old(opponent.shots)
      ensures status == Done ==> lost == AllSunk(sea.board, opponent.shots)
      ensures status != Done ==> !lost
      ensures status == Stalled ==> inbox == [] && log == old(log)
      ensures status == Crashed ==> log == old(log) + [Received(request)]
      ensures status == Done ==> log == old(log) + [Received(request)] + [Sent(ReplyMessage(hit, lost))]
      ensures |log| == |old(log)| + (if status == Stalled then 0 else if status == Done then 2 else 1)
      ensures status == Done ==> (lost <==> ReportsLoss(log))
      ensures status == Stalled || (status == Done && !lost) ==> Quiet(log, base)
      ensures status != Stalled ==> Ends(log, base)
    {
      status, hit, lost, request, cell := ReceiveShot();
      ShotTaken(old(log), log, base, first, status, request, hit, lost);
    }

    /** `run()` after `choose_players()`: `aims[k]` is the tilt readings of
        this player's k-th shot, and `n` is the number of shots fired. With
        a role, the game ends as `Ended` says: PLAYER_1 shoots and then
        answers a shot in every round, PLAYER_2 answers first and then
        shoots, and the game ends at the first message announcing a sunk
        fleet, a crash, or a wait that never ends. The shots fired go to
        the trail of the aims and are marked in `me` with the hit flags
        `hits` read back; the shots read from the opponent are the cells
        `targets`, answered with `answers` and marked in `opponent`. With
        any other number the source loops forever without touching the
        radio. */
    method Run(aims: seq<seq<Tilt>>)
      returns (status: Status, won: bool, n: nat, ghost hits: seq<bool>, ghost targets: seq<(int, int)>, ghost answers: seq<bool>)
      requires Valid()
      modifies me`row, me`col, me`shots, opponent`shots, this`inbox, this`log, this`winner
      ensures Valid() && Relayed(log, inbox, old(log), old(inbox))
      // `== true` has the verifier check `Ended` as one fact, not clause by clause.
      ensures me.number in {PlayerOne, PlayerTwo} ==>
        Ended(aims, |old(log)|, me.number == PlayerOne, (old(me.row), old(me.col)), old(me.shots), old(opponent.shots),
              n, status, won, hits, targets, answers) == true
      ensures status == Done ==> |hits| == n
      ensures me.number !in {PlayerOne, PlayerTwo} ==>
        status == Stalled && !won && n == 0 && log == old(log) && inbox == old(inbox)
        && me.shots == old(me.shots) && opponent.shots == old(opponent.shots)
      ensures status == Done ==> winner == (if won then me.number else opponent.number)
      ensures status != Done ==> winner == old(winner) && !won
    {
      var first := me.number == PlayerOne;
      if !first && me.number != PlayerTwo {
        return Stalled, false, 0, [], [], [];
      }
      status, won, n, hits, targets, answers := Rounds(aims, first);
      if status == Done {
        winner := if won then me.number else opponent.number;
      }
    }

    /** This player's half of a round in the loop of `run`: shoot with the
        passes `aims[n]` as `Attack` does, or wait forever for button A
        when no aim is left. It and `OpponentTurn` are the two halves of
        the loop body, kept apart so that each proof stays small. */
    method OwnTurn(aims: seq<seq<Tilt>>, n: nat, ghost base: nat, ghost first: bool)
      returns (status: Status, won: bool, over: bool, fired: nat, response: string)
      requires Valid() && InTurn(log, base, first) && n <= |aims| && Going(log, base, first, n, true)
      modifies me`row, me`col, me`shots, this`inbox, this`log
      ensures Valid() && InTurn(log, base, first) && Relayed(log, inbox, old(log), old(inbox))
      ensures fired <= |aims| && (fired == n <==> n == |aims|) && (fired == n || fired == n + 1)
      ensures fired == n ==> status == Stalled && !won && log == old(log) && inbox == old(inbox)
                             && (me.row, me.col) == (old(me.row), old(me.col)) && me.shots == old(me.shots)
      ensures fired == n + 1 ==> (me.row, me.col) == Aim((old(me.row), old(me.col)), aims[n])
                                 && log == old(log) + [Sent(ShotMessage(me.row, me.col))]
                                           + (if status == Stalled then [] else [Received(response)])
      ensures fired == n + 1 ==> (status == Stalled <==> Unread(old(inbox)) == [])
      ensures fired == n + 1 && status != Stalled ==> response == Unread(old(inbox))[0]
      ensures status == Crashed <==> status != Stalled && ParseReply(response).None?
      ensures status == Done ==> won == ParseReply(response).value.1
                                 && me.shots == Marked(old(me.shots), me.row, me.col, ParseReply(response).value.0)
      ensures status != Done ==> me.shots == old(me.shots) && !won
      ensures !over ==> !won && fired == n + 1 && Going(log, base, first, fired, false)
      ensures over ==> Halted(log, inbox, sea.board, opponent.shots, status, won, base, first, fired, |aims|)
      ensures over <==> n == |aims| || Unread(old(inbox)) == [] || ParseReply(Unread(old(inbox))[0]).None?
                        || ParseReply(Unread(old(inbox))[0]).value.1
    {
      if n == |aims| {
        status, won, over, fired, response := Stalled, false, true, n, "";
      } else {
        status, won, response := Attack(aims[n], base, first);
        over, fired := status != Done || won, n + 1;
      }
      OwnHalfEnds(old(log), log, inbox, sea.board, opponent.shots, base, first, n, fired, |aims|,
                  status, won, ShotMessage(me.row, me.col), response);
    }

    /** The opponent's half of a round in the loop of `run`: answer its
        shot as `Defend` does. */
    method OpponentTurn(ghost base: nat, ghost first: bool, ghost n: nat, ghost count: nat)
      returns (status: Status, over: bool, hit: bool, lost: bool, request: string, cell: Option<(int, int)>)
      requires Valid() && InTurn(log, base, first) && n <= count && Going(log, base, first, n, false)
      modifies opponent`shots, this`inbox, this`log
      ensures Valid() && InTurn(log, base, first) && Relayed(log, inbox, old(log), old(inbox))
      ensures status == Stalled <==> Unread(old(inbox)) == []
      ensures status != Stalled ==> request == Unread(old(inbox))[0] && cell == ParseShot(request)
      ensures status == Crashed <==> status != Stalled && BadShot(request)
      ensures status == Done ==> cell.Some? && InBounds(cell.value.0, cell.value.1)
                                 && hit == (sea.board[cell.value.0][cell.value.1] == SHIP)
                                 && opponent.shots == Marked(old(opponent.shots), cell.value.0, cell.value.1, hit)
                                 && lost == AllSunk(sea.board, opponent.shots)
      ensures status != Done ==> opponent.shots == old(opponent.shots) && !lost
      ensures status == Stalled ==> log == old(log)
      ensures status == Crashed ==> log == old(log) + [Received(request)]
      ensures status == Done ==> log == old(log) + [Received(request)] + [Sent(ReplyMessage(hit, lost))]
      ensures !over ==> Going(log, base, first, n, true)
      ensures over ==> Halted(log, inbox, sea.board, opponent.shots, status, false, base, first, n, count)
      ensures over <==> Unread(old(inbox)) == [] || BadShot(Unread(old(inbox))[0]) || AllSunk(sea.board, opponent.shots)
    {
      status, hit, lost, request, cell := Defend(base, first);
      over := status != Done || lost;
    }

    /** `Progress` of the loop of `run` on this game's state. */
    ghost predicate Tracked(aims: seq<seq<Tilt>>, base: nat, first: bool, start: (int, int), mine: Matrix, theirs: Matrix,
                            n: nat, hits: seq<bool>, targets: seq<(int, int)>, answers: seq<bool>)
      reads this`log, sea, me, opponent
    {
      Valid() && Progress(log, sea.board, me.shots, opponent.shots, (me.row, me.col),
                          aims, base, first, start, mine, theirs, n, hits, targets, answers)
    }

    /** The loop of `run` goes on after `n` shots, with every reply read so
        far, about to shoot when `attacking` and about to answer otherwise. */
    ghost predicate Live(aims: seq<seq<Tilt>>, base: nat, first: bool, start: (int, int), mine: Matrix, theirs: Matrix,
                         n: nat, attacking: bool, hits: seq<bool>, targets: seq<(int, int)>, answers: seq<bool>)
      reads this`log, sea, me, opponent
    {
      && Tracked(aims, base, first, start, mine, theirs, n, hits, targets, answers)
      && Going(log, base, first, n, attacking) && |hits| == n
      && TheirAt(base, first, |targets|) == |log| + (if attacking then 2 else 0)
    }

    /** The loop of `run` has stopped with `status` after `n` shots. */
    ghost predicate Ended(aims: seq<seq<Tilt>>, base: nat, first: bool, start: (int, int), mine: Matrix, theirs: Matrix,
                          n: nat, status: Status, won: bool, hits: seq<bool>, targets: seq<(int, int)>, answers: seq<bool>)
      reads this`log, this`inbox, sea, me, opponent
    {
      && Tracked(aims, base, first, start, mine, theirs, n, hits, targets, answers)
      && Halted(log, inbox, sea.board, opponent.shots, status, won, base, first, n, |aims|)
    }

    /** A pass of the loop of `run` on this player's turn: `OwnTurn`, with
        the tally of the game carried along. */
    method OwnHalf(aims: seq<seq<Tilt>>, n: nat, ghost base: nat, ghost first: bool, ghost start: (int, int),
                   ghost mine: Matrix, ghost theirs: Matrix,
                   ghost hits: seq<bool>, ghost targets: seq<(int, int)>, ghost answers: seq<bool>)
      returns (status: Status, won: bool, over: bool, fired: nat, ghost hits': seq<bool>)
      requires Live(aims, base, first, start, mine, theirs, n, true, hits, targets, answers)
      modifies me`row, me`col, me`shots, this`inbox, this`log
      ensures Relayed(log, inbox, old(log), old(inbox))
      ensures !over ==> !won && fired == n + 1 && Live(aims, base, first, start, mine, theirs, fired, false, hits', targets, answers)
      ensures over ==> Ended(aims, base, first, start, mine, theirs, fired, status, won, hits', targets, answers)
      ensures status == Done ==> |hits'| == fired
    {
      ghost var before, mark, cursor := log, me.shots, (me.row, me.col);
      var response;
      status, won, over, fired, response := OwnTurn(aims, n, base, first);
      hits' := hits;
      if fired == n + 1 {
        OwnProgress(before, log, sea.board, mark, me.shots, opponent.shots, cursor, (me.row, me.col),
                    aims, base, first, start, mine, theirs, n, hits, targets, answers, status, response);
        hits' := hits + (if status == Done then [ParseReply(response).value.0] else []);
      }
    }

    /** A pass of the loop of `run` on the opponent's turn: `OpponentTurn`,
        with the tally of the game carried along. */
    method OpponentHalf(ghost aims: seq<seq<Tilt>>, ghost base: nat, ghost first: bool, ghost start: (int, int), ghost n: nat,
                        ghost mine: Matrix, ghost theirs: Matrix,
                        ghost hits: seq<bool>, ghost targets: seq<(int, int)>, ghost answers: seq<bool>)
      returns (status: Status, over: bool, ghost targets': seq<(int, int)>, ghost answers': seq<bool>)
      requires Live(aims, base, first, start, mine, theirs, n, false, hits, targets, answers)
      modifies opponent`shots, this`inbox, this`log
      ensures Relayed(log, inbox, old(log), old(inbox))
      ensures !over ==> Live(aims, base, first, start, mine, theirs, n, true, hits, targets', answers')
      ensures over ==> Ended(aims, base, first, start, mine, theirs, n, status, false, hits, targets', answers')
    {
      ghost var before, mark := log, opponent.shots;
      var hit, lost, request, cell;
      status, over, hit, lost, request, cell := OpponentTurn(base, first, n, |aims|);
      TheirProgress(before, log, sea.board, me.shots, mark, opponent.shots, (me.row, me.col),
                    aims, base, first, start, mine, theirs, n, hits, targets, answers, status, request, cell, hit, lost);
      targets', answers' := targets, answers;
      if status == Done {
        targets', answers' := targets + [cell.value], answers + [hit];
      }
    }

    /** The loop of `run()`, one half of a round per iteration. The shots
        of this player go to the cells of the trail its aims lead to from
        the cursor, and the first `|hits|` of them got a reply read with
        hit flag `hits[k]`, all `n` of them when the game ended in `Done`;
        the shots of the opponent were read as the cells `targets` and
        answered with `answers`. Both records are their old contents
        marked with exactly those shots. */
    method Rounds(aims: seq<seq<Tilt>>, first: bool)
      returns (status: Status, won: bool, n: nat, ghost hits: seq<bool>, ghost targets: seq<(int, int)>, ghost answers: seq<bool>)
      requires Valid()
      modifies me`row, me`col, me`shots, opponent`shots, this`inbox, this`log
      ensures Relayed(log, inbox, old(log), old(inbox))
      // `== true` has the verifier check `Ended` as one fact, not clause by clause.
      ensures Ended(aims, |old(log)|, first, (old(me.row), old(me.col)), old(me.shots), old(opponent.shots),
                    n, status, won, hits, targets, answers) == true
      ensures status == Done ==> |hits| == n
    {
      ghost var base, start, mine, theirs := |log|, (me.row, me.col), me.shots, opponent.shots;
      TrailOnBoard(start, aims);
      status, won, n := Stalled, false, 0;
      hits, targets, answers := [], [], [];
      var attacking, over := first, false;
      while true
        invariant Relayed(log, inbox, old(log), old(inbox)) && n <= |aims| && !won
        invariant attacking ==> Live(aims, base, first, start, mine, theirs, n, true, hits, targets, answers)
        invariant !attacking ==> Live(aims, base, first, start, mine, theirs, n, false, hits, targets, answers)
        decreases 2 * (|aims| - n) + (if attacking then 1 else 2)
      {
        if attacking {
          status, won, over, n, hits := OwnHalf(aims, n, base, first, start, mine, theirs, hits, targets, answers);
        } else {
          status, over, targets, answers := OpponentHalf(aims, base, first, start, n, mine, theirs, hits, targets, answers);
        }
        if over {
          return;
        }
        attacking := !attacking;
      }
    }
  }
}
