# Battleship on the micro:bit — a Dafny model of the game logic

The repository holds Battleship for the BBC micro:bit in two versions. One is
a single-player program: the micro:bit hides a fleet and the player shoots at
it. The other is a two-player program in which two micro:bits play each other
over the radio. Two templates hold the one-player program's pieces on their
own: the sea (`template_1.py`) and the player (`template_2.py`).

The model covers the logic behind the display, the buttons and the radio:

- **The sea** (`class Sea`, module `Board`). A 5×5 grid of cell codes,
  WATER = 2 and SHIP = 9.
  - `near_ships` and `possible` are the placement tests.
  - `place_ship` writes one ship at a random WATER cell with a random
    orientation.
  - `populate_board` retries until every ship of `[4, 3, 2]` fits, and
    resets the board before each retry.
  - `hit` looks up one cell.

  The three copies of `Sea` are the same code, so one model serves the
  multiplayer program, the single-player program and `template_1.py`.
  The rows below cite whichever copy shows a step best.
- **The player** (`class Player`, module `Shots`). The shot record starts at all 0 (UNKNOWN). `mark` writes 9 for a hit and 2 for a miss. The cursor starts at (2, 2); each pass of `shoot` moves it one cell per axis, clamped to [0, 4], when a tilt reading passes ±400.
- **The rules** (module `Rules`). `win` (one player) and `lost` (two players) run the same double loop: every SHIP cell of the sea must be SHIP in the shot record.
- **The single-player game** (module `Solo`). Each round shoots, looks the cell up, marks it, and after a hit tests `win`.
- **The two-player game** (module `Duel`).
  - `choose_players` assigns the roles.
  - `send_shot` and `receive_shot` exchange `"<row> <col>"` and
    `"<hit> <lost>"` (module `Wire`, over the string functions of `Text`).
  - `run` alternates the turns.
- **The frame string** (module `Picture`). `show` hands `Image` the rows of digits joined by `':'`.

Modelling choices:

- **Grids.** Each grid is a `seq<seq<int>>` field. The methods replace one
  cell at a time, as the Python code does to its lists.
- **Ghost fleet.** The sea carries a ghost `fleet`, the ships placed so far.
  - Its invariant `Deployed` says the board shows exactly those ships: inside
    the board, never touching, diagonals included.
  - `Valid` adds that the SHIP count equals the sum of the ships' sizes.
- **Random choices.** `random.choice` is a nondeterministic choice (`:|`).
- **Inputs.** The accelerometer readings, the button presses and the other
  micro:bit's messages are parameters.
- **Python exceptions.** A wrong number of fields in `split`, a non-numeric
  `int()`, and a `set_pixel` off the display all become the status `Crashed`.
- **Waiting.** A wait that would never end (e.g. a silent radio) becomes the
  status `Stalled`.
- **Radio.** The radio is a lossless, ordered queue of strings (`inbox`). A
  `log` records every message this micro:bit sends or reads. Turn order and
  outcomes are stated over the log.
- **Negative indices.** Python accepts indices -5..-1 on a 5-element list.
  `Grid.Wrap` models this where the source indexes with values it did not
  check itself (`hit`, `mark`).

## Model

| member | source | states |
|---|---|---|
| Board.DefaultTotal | battleship-multiplayer/multiplayer_complete.py:19 | the default fleet `[4, 3, 2]` occupies 9 cells |
| Board.Sea.constructor | battleship-single-player/template_1.py:14-19 | the board starts all WATER and `populate_board` runs on it; the result keeps the fleet invariant and holds only WATER and SHIP; a successful run leaves exactly the requested ships, an unsuccessful one the empty fleet on an all-WATER board; it is unsuccessful exactly when `fuel` attempts failed, and `misses` holds each of them with a ship that found no place (`Misses`) |
| Board.Sea.NearShips | battleship-multiplayer/multiplayer_complete.py:26-38 | false when row > 4 or col > 4; otherwise true exactly when no in-bounds neighbour, diagonals included and the cell itself excluded, is SHIP |
| Board.Sea.Possible | battleship-single-player/single_player_complete.py:40-53 | true exactly when every one of the `size` cells along the orientation passes `near_ships` |
| Board.Sea.Hit | battleship-multiplayer/multiplayer_complete.py:102-106 | on a board that keeps the fleet invariant, a hit exactly when a placed ship covers the cell (negative indices counted from the end) |
| Board.Sea.WaterCells | battleship-single-player/template_1.py:59-64 | the candidate list holds every WATER cell and nothing else |
| Board.Sea.ChooseRun | battleship-single-player/template_1.py:66-75 | a run it returns starts on a WATER cell and passes `possible`; when the candidates run out, every WATER cell has an orientation whose run fails `possible` |
| Board.Sea.PlaceShip | battleship-multiplayer/multiplayer_complete.py:55-86 | on success the fleet grows by one ship of `size` whose start cell and run were WATER; the run lies inside the board and touches no earlier ship; its cells become SHIP and nothing else changes. On failure the board is unchanged and every WATER cell is blocked. Either way `Tried` records the step, and the fleet invariant is kept |
| Board.Sea.WriteRun | battleship-single-player/single_player_complete.py:80-84 | the run's cells become SHIP, every other cell is unchanged, and the SHIP count grows by `size` |
| Board.Sea.PlaceAll | battleship-single-player/template_1.py:92-94 | one result per ship, each ship tried on the board the ships before it left, from the board before the call to the one after (`Tries`): a true result drew a clear run of that size, a false one left the board unchanged with every WATER cell blocked for that size; when all are true the fleet has grown by exactly these ships in order; the invariant is kept |
| Board.Sea.PopulateBoard | battleship-multiplayer/multiplayer_complete.py:88-100 | on success the fleet's sizes are `ships` and the SHIP count is their sum; when the attempts run out the fleet is empty and the board is either untouched or all WATER (each retry resets it); every cell is WATER or SHIP; it fails exactly when `fuel` attempts failed, and `misses` holds every failed attempt in order, the first from the given board and the rest from an all-WATER one, each a full chain of `place_ship` steps in which some ship found no place (`Misses`) |
| Board.TriesNext | battleship-multiplayer/multiplayer_complete.py:95 | the list comprehension's next step, trying the next ship on the board the previous ones left, extends the chain of an attempt |
| Board.FailedMeansStuck | battleship-multiplayer/multiplayer_complete.py:95-97 | when `all(placed_ships)` is false, some ship `k` found no place: every WATER cell of the board the ships before it left is blocked for its size |
| Board.MissesAppend | battleship-multiplayer/multiplayer_complete.py:94-100 | a failed attempt on the board the reset leaves, all WATER, extends the record of failed attempts |
| Grid.PlacementIsSafe | battleship-single-player/single_player_complete.py:69-75 | a run that starts on WATER and passes `possible` lies inside the board, covers only WATER and touches no placed ship |
| Grid.PlacementKeepsInvariant | battleship-multiplayer/multiplayer_complete.py:80-86 | writing such a run keeps the fleet invariant for the fleet with the run appended, and the SHIP count equals the new size sum |
| Grid.WaterIsEmpty | battleship-single-player/template_1.py:97 | the reset board shows the empty fleet and has SHIP count 0 |
| Grid.Marked | battleship-single-player/template_2.py:37-44 | after `mark` the one cell is SHIP for a hit and WATER for a miss; every other cell is unchanged |
| Grid.MarkLastWins | battleship-single-player/template_2.py:41-44 | marking the same cell twice: the second mark wins, and repeating a mark changes nothing |
| Grid.MarkKeepsCodes | battleship-single-player/template_2.py:20-44 | `mark` keeps every code of the shot record in {0, 2, 9} |
| Shots.Step | battleship-multiplayer/multiplayer_complete.py:169-177 | one pass of the `shoot` loop on one axis; what it does is stated by `Shots.StepMoves` |
| Shots.StepMoves | battleship-multiplayer/multiplayer_complete.py:169-177 | from a cell on the board an axis stays in [0, 4] and moves by at most one. A first reading above 400 moves it up by one, clamped at 4. Otherwise a second reading below -400 moves it down by one, clamped at 0. Otherwise it stays where it is |
| Shots.Aim | battleship-multiplayer/multiplayer_complete.py:166-177 | the cursor after the passes of `shoot`: each pass moves the column by the x readings and the row by the y readings; its properties are stated by `AimStaysOnBoard` and `AimAtRest` |
| Shots.AimStaysOnBoard | battleship-multiplayer/multiplayer_complete.py:166-177 | over any number of passes the cursor stays on the board, moving at most one cell per axis per pass |
| Shots.AimAtRest | battleship-single-player/single_player_complete.py:152-165 | passes whose readings all lie within ±400 leave the cursor where it was |
| Shots.Trail | battleship-single-player/single_player_complete.py:258-259 | one cell per call of `shoot` in the loop of `run`; the cells are pinned down by `Shots.TrailStep` |
| Shots.TrailStep | battleship-single-player/single_player_complete.py:258-259 | the k-th shot is aimed from the cell of the shot before it (from the starting cursor for the first) with the k-th readings, because `shoot` does not move the cursor back between shots |
| Shots.TrailOnBoard | battleship-single-player/single_player_complete.py:258-259 | from a cursor on the board every shot of the game lands on the board |
| Shots.Player.constructor | battleship-single-player/template_2.py:16-23 | shots all 0 and the cursor at the centre (2, 2) |
| Shots.Player.Poll | battleship-single-player/single_player_complete.py:155-163 | one pass moves the column by the x readings and the row by the y readings, as `Step` says |
| Shots.Player.Shoot | battleship-multiplayer/multiplayer_complete.py:157-179 | the cursor ends where `Aim` says the passes take it, and the player stays well formed |
| Shots.Player.Mark | battleship-single-player/single_player_complete.py:169-176 | the shot record becomes `Marked(old, row, col, hit)` and the cursor does not move; codes stay in {0, 2, 9} |
| Text.Str | battleship-multiplayer/multiplayer_complete.py:316 | Python's `str(n)`: a '-' for a negative number, then the decimal digits without leading zeros; its inverse is stated by `Text.ParseStr` |
| Text.ParseInt | battleship-multiplayer/multiplayer_complete.py:357-358 | Python's `int(s)` on an optional sign and at least one digit, `None` where `int` raises; stated against `Str` by `Text.ParseStr` |
| Text.Split | battleship-multiplayer/multiplayer_complete.py:324 | Python's `split(" ")`: the pieces between separators, empty ones kept, at least one piece; stated by `Text.SplitPair` |
| Text.Join | battleship-single-player/template_1.py:111 | Python's `":".join(parts)`; stated by `Text.JoinLayout` |
| Text.ParseStr | battleship-multiplayer/multiplayer_complete.py:357-358 | `int(str(n)) == n` for every integer |
| Text.SplitPair | battleship-multiplayer/multiplayer_complete.py:324 | splitting `a + " " + b` gives `[a, b]` when neither holds a space |
| Text.JoinLayout | battleship-single-player/template_1.py:111 | joining five-character rows puts row r at offset 6r with a separator after every row but the last |
| Wire.ShotMessage | battleship-multiplayer/multiplayer_complete.py:316 | the shot text `str(row) + " " + str(col)`; stated by `Wire.ShotRoundTrip` and `Wire.ShotNotLost` |
| Wire.ParseShot | battleship-multiplayer/multiplayer_complete.py:356-358 | two fields after `split(" ")`, each read by `int()`; `None` where Python raises; stated by `Wire.ShotRoundTrip` and `Wire.LostIsNoShot` |
| Wire.ReplyMessage | battleship-multiplayer/multiplayer_complete.py:366 | the reply text `str(hit) + " " + str(lost)`; stated by `Wire.ReplyRoundTrip` and `Wire.ReplySaysLost` |
| Wire.ParseReply | battleship-multiplayer/multiplayer_complete.py:324-326 | two fields after `split(" ")`, each flag true exactly when its field is "True"; `None` where the unpacking raises; stated by `Wire.ReplyRoundTrip` and `Wire.LostFlagMeans` |
| Wire.ShotRoundTrip | battleship-multiplayer/multiplayer_complete.py:356-358 | reading the shot message `str(row) + " " + str(col)` gives back `(row, col)` |
| Wire.ReplyRoundTrip | battleship-multiplayer/multiplayer_complete.py:324-326 | reading the reply `str(hit) + " " + str(lost)` gives back `(hit, lost)` |
| Wire.LostFlagMeans | battleship-multiplayer/multiplayer_complete.py:326 | for a reply that splits into two fields, the won flag is true exactly when the text ends in " True" after a space-free first field |
| Wire.ReplySaysLost | battleship-multiplayer/multiplayer_complete.py:366-367 | the reply the defender sends says "won" exactly when the defender computed `lost` |
| Wire.ShotNotLost | battleship-multiplayer/multiplayer_complete.py:316 | a shot message ends in a digit, so it never reads as a reply announcing a sunk fleet |
| Wire.LostParses | battleship-multiplayer/multiplayer_complete.py:324 | a message announcing a sunk fleet splits into exactly two fields, so reading it as a reply does not raise |
| Wire.LostIsNoShot | battleship-multiplayer/multiplayer_complete.py:356-358 | reading a message announcing a sunk fleet as a shot raises, because "True" is not an integer |
| Picture.RowText | battleship-single-player/template_1.py:111 | `"".join(str(point) for point in line)`; stated by `Picture.RowTextDigits` |
| Picture.Frame | battleship-single-player/template_1.py:111 | the rows' texts joined by ':'; stated by `Picture.FrameLayout` |
| Picture.RowTextDigits | battleship-single-player/template_2.py:52 | a row of single-digit codes is written as one digit per cell, in order |
| Picture.FrameLayout | battleship-single-player/template_1.py:109-113 | the frame of a 5×5 grid of digits is 29 characters long, has ':' at 5, 11, 17 and 23, and shows cell (r, c) at 6r + c |
| Rules.AllHit | battleship-single-player/single_player_complete.py:239-243 | true exactly when every SHIP cell of the board is SHIP in the shot record |
| Rules.ShotKeepsAgreement | battleship-single-player/single_player_complete.py:261-262 | marking a cell with what the board holds there keeps every shot-at cell equal to the board |
| Rules.MissNeverWins | battleship-single-player/single_player_complete.py:264-273 | marking a miss never makes an unsunk fleet sunk |
| Rules.SunkShowsFleet | battleship-multiplayer/multiplayer_complete.py:292-302 | once all is sunk, a truthful shot record's SHIP cells are exactly the board's |
| Rules.NotSunkAtStart | battleship-single-player/single_player_complete.py:204-205 | with a ship on the board the game is not won before the first shot, and the fresh record is truthful |
| Rules.AfloatRowZero | battleship-single-player/single_player_complete.py:239-243 | no ship cell of one row is left unhit exactly when every SHIP cell of the row is SHIP in the record's row |
| Rules.AfloatZero | battleship-single-player/single_player_complete.py:238-243 | counting the unhit ship cells from row r on gives 0 exactly when each such cell is SHIP in the record; from row 0 that is exactly the `win()` condition |
| Solo.Game.constructor | battleship-single-player/single_player_complete.py:195-205 | a populated sea and a fresh player with the cursor at (2, 2); when population succeeded the game is not already won |
| Solo.Game.Win | battleship-single-player/single_player_complete.py:233-243 | `win()` is true exactly when every SHIP cell of the sea is SHIP in the shot record |
| Solo.Record | battleship-single-player/single_player_complete.py:261-262 | the shot record after the first n shots, each marked with what the sea holds there; pinned down by `Solo.RecordReveals` |
| Solo.RecordReveals | battleship-single-player/single_player_complete.py:261-262 | on a sea of WATER and SHIP, the record after n shots shows the sea's code at every cell shot at and its starting code everywhere else |
| Solo.UnfinishedMeans | battleship-single-player/single_player_complete.py:264-270 | "no shot among the first n ended the game" means exactly that none of them hit and left no ship cell unhit |
| Solo.ShotStep | battleship-single-player/single_player_complete.py:261-270 | a shot whose hit is the sea's cell and whose `win()` is tested only after a hit ends the game exactly when it finishes it (hits and leaves no ship cell unhit) |
| Solo.SunkOnlyAtFinish | battleship-single-player/single_player_complete.py:261-270 | before the finishing shot the fleet is never all sunk, if it was not at the start |
| Solo.Outcome | battleship-single-player/single_player_complete.py:258-270 | a loop that stops at the first finishing shot: no earlier shot finished, it is won exactly when its last shot finished, and a won game ends on a hit with every ship cell sunk |
| Solo.Game.Run | battleship-single-player/single_player_complete.py:258-270 | the shots land on the cells the readings aim at, each from the cell of the shot before. The record is the starting record with every shot marked with what the sea holds there. The game is won exactly when the last shot fired hits and leaves no ship cell unhit, and no earlier shot did so; a won game ends on a hit with the fleet all sunk. Without a win every aim was used and an unsunk fleet is still unsunk |
| Solo.Game.Play | battleship-single-player/single_player_complete.py:258-270 | the loop of `run`: after each shot the record is that of the shots so far; it stops right after the first shot that finishes the game, or when the aims run out with none finishing it |
| Solo.Game.Turn | battleship-single-player/single_player_complete.py:259-270 | one pass of the loop: the cursor moves to the next cell of the trail, the record gains that shot, and it reports a win exactly when this shot finishes the game |
| Solo.Game.Fire | battleship-single-player/single_player_complete.py:259-262 | `shoot`, `hit` and `mark`: the cursor goes where `Aim` takes it, the hit is the sea's cell being SHIP, and the record is marked with it at the cursor |
| Duel.Unread | battleship-multiplayer/multiplayer_complete.py:319-322 | the queue as a `while not response` loop finds it: what is left starts with a non-empty message or is empty |
| Duel.UnreadDropsEmpty | battleship-multiplayer/multiplayer_complete.py:319-322 | waiting for a response skips exactly the leading empty messages |
| Duel.InTurnMeans | battleship-multiplayer/multiplayer_complete.py:392-406 | a log in turn order has, at every position, the kind of event (send or receive) that the position in the round calls for |
| Duel.FirstMove | battleship-multiplayer/multiplayer_complete.py:393-401 | PLAYER_1's first message in `run` is a send, PLAYER_2's a receive |
| Duel.ShotUnanswered | battleship-multiplayer/multiplayer_complete.py:314-322 | a shot sent with no reply yet keeps the turn order and announces nothing |
| Duel.ShotAnswered | battleship-multiplayer/multiplayer_complete.py:316-326 | a shot that is no announcement, sent, and a reply read keep the turn order; the game ends at the reply, in a win exactly when the reply announces the opponent's fleet sunk (its text ends in " True"), and nothing was announced before it otherwise |
| Duel.ShotGarbled | battleship-multiplayer/multiplayer_complete.py:351-358 | a shot request read that raises ends the game there, in turn order |
| Duel.ShotRead | battleship-multiplayer/multiplayer_complete.py:351-358 | a shot request read that is no announcement keeps the turn order and announces nothing |
| Duel.ReplySent | battleship-multiplayer/multiplayer_complete.py:364-367 | the reply sent keeps the turn order and ends the game there; it announces this player's loss exactly when its text ends in " True" |
| Duel.ShotReplied | battleship-multiplayer/multiplayer_complete.py:351-367 | a shot read that is no announcement and its answer keep the turn order; the game ends at the answer, in this player's loss exactly when the answer ends in " True", and nothing was announced before it otherwise |
| Duel.ShotTaken | battleship-multiplayer/multiplayer_complete.py:339-367 | `receive_shot` as the log shows it: no event on a silent radio, the shot alone when it raised, the shot and `"<hit> <lost>"` when it parsed. The turn order holds, the game ends at any event added, and the answer announces a loss exactly when `lost` holds |
| Duel.AfterShot | battleship-multiplayer/multiplayer_complete.py:394-396 | after this player's `n + 1`-th shot: on a silent radio it is waiting for the reply, a crash is on a reply that does not split into two fields, and otherwise the log stands just before the opponent's next shot |
| Duel.Game.constructor | battleship-multiplayer/multiplayer_complete.py:207-221 | a populated sea keeping the fleet invariant, two fresh shot records, no roles and no winner |
| Duel.Game.Send | battleship-multiplayer/multiplayer_complete.py:317 | the message is appended to the log |
| Duel.Game.Receive | battleship-multiplayer/multiplayer_complete.py:351-354 | a message is read exactly when a non-empty one is queued; it is the first of them, the empty ones before it are dropped, and it is logged. With none left the queue is drained and the log unchanged. No message is skipped or invented |
| Duel.Game.Lost | battleship-multiplayer/multiplayer_complete.py:292-302 | `lost()` is true exactly when every SHIP cell of the sea is SHIP in the opponent's record |
| Duel.Game.SendShot | battleship-multiplayer/multiplayer_complete.py:304-337 | the cursor is aimed, its cell is sent as `"<row> <col>"` and the reply is read. It stalls exactly when no non-empty message is queued, and crashes exactly when the reply does not split into two fields. Otherwise its hit flag is marked at the cell and its won flag returned; the record changes only then |
| Duel.Game.ReceiveShot | battleship-multiplayer/multiplayer_complete.py:339-376 | it stalls exactly when no non-empty message is queued; the first one is read as the shot and parsed. It crashes exactly when a field is not an integer or the cell is off the board. Otherwise the hit is the sea's cell, it is marked in the opponent's record, `lost` is `lost()` after the mark, and `"<hit> <lost>"` is sent back; the record changes only then |
| Duel.Game.Answer | battleship-multiplayer/multiplayer_complete.py:360-367 | hit is the sea's cell being SHIP, the opponent's record is marked with it, lost is `lost()` after the mark, and the reply carries both |
| Duel.Game.Await | battleship-multiplayer/multiplayer_complete.py:254-261 | the expected message arrives exactly when it is among the queued non-empty messages. Every message read is logged in order as received, none before the last is the expected one, and on arrival the last is it. When it is not queued the queue is drained. No message is skipped or invented |
| Duel.Game.ChooseRoles | battleship-multiplayer/multiplayer_complete.py:242-276 | it succeeds exactly when the awaited announcement is queued (PLAYER_2's for A, PLAYER_1's for B); otherwise it stalls with the queue drained and the numbers unchanged. On success `me` and `opponent` hold distinct numbers, one PLAYER_1 and one PLAYER_2, and `me` is PLAYER_1 exactly when A was pressed. A always sends its announcement first and, on success, last hears the answer; B sends nothing while it waits, and on success hears the announcement and then answers |
| Duel.Game.Attack | battleship-multiplayer/multiplayer_complete.py:394-396 | the cursor moves where the readings take it and its cell goes out as the shot. It stalls exactly when no non-empty message is queued; otherwise the first one is read as the reply, and it crashes exactly when that does not split into two fields. The log grows by exactly these events, in turn order. Otherwise the reply's hit flag is marked at the cell (the record changes only then), the game ends at the reply, and it is won exactly when the reply's won flag is set, which is exactly when the reply announces the opponent's fleet sunk |
| Duel.Game.Defend | battleship-multiplayer/multiplayer_complete.py:397-399 | it stalls exactly when no non-empty message is queued, with the log unchanged; otherwise the first one is read as the shot, and it crashes exactly when the shot does not parse or is off the board, the log then growing by the shot alone. Otherwise the hit is the sea's cell, it is marked in the opponent's record (which changes only then), and the log grows by exactly the shot and `"<hit> <lost>"`, in turn order. `lost` holds exactly when every ship cell of the sea is sunk, and the answer announces a loss exactly then |
| Duel.Game.OwnTurn | battleship-multiplayer/multiplayer_complete.py:394-396 | this player's half of a round (also lines 404-406). With no aim left it fires nothing and stalls with the log, queue, cursor and record unchanged. Otherwise the cursor moves to `Aim` of the next aim, its cell goes out as `"<row> <col>"`, and the first non-empty queued message is read as the reply: a stall exactly when none is queued, a crash exactly when it does not split into two fields, and otherwise the record is marked with its hit flag and `won` is its won flag. The loop goes on exactly when an aim was left and the reply was read, split and not a win; it then stands just before the opponent's shot, and when it stops the log is as `Halted` says |
| Duel.Game.OpponentTurn | battleship-multiplayer/multiplayer_complete.py:397-399 | the opponent's half of a round (also lines 401-403). It stalls with the log unchanged exactly when no non-empty message is queued; otherwise the first one is read and parsed as the shot. It crashes, with only the read logged, exactly when the shot does not parse or is off the board. Otherwise the hit is the sea's cell being SHIP, the opponent's record is marked with it, `lost` is the fleet all sunk after the mark, and `"<hit> <lost>"` is logged as sent. The loop goes on exactly when the shot was answered and the fleet is not all sunk; it then stands just before this player's next shot, and when it stops the log is as `Halted` says |
| Duel.Game.Rounds | battleship-multiplayer/multiplayer_complete.py:392-406 | the loop ends as `Ended` says. The turn order holds from the first event on. This player's `n` shots went out as the texts of the first `n` cells of the trail the aims lead to from the starting cursor, and the cursor stands on the last of them. The first `|hits|` replies were read with hit flags `hits`. The only later reply that can have been read is one that does not split into two fields, the read that crashed. On `Done`, every one of the `n` shots has its reply marked (`|hits| == n`), the winning reply included. The opponent's shots were read as the board cells `targets` and answered with `answers`, each the sea's cell there plus whether the fleet was all sunk after its mark. The only later shot that can have been read is a bad one, the read that crashed. Both records are their starting contents marked with exactly those shots. It stops as `Halted` says: a stall with nothing announced, either with the queue drained while waiting (`Waiting`) or with every aim used exactly 4n events (PLAYER_1) or 4n + 2 (PLAYER_2) into the game; otherwise the last event is the first announcement; a crash on the read `CrashedOn` names; a win on a reply read announcing the opponent's fleet sunk; a loss on a reply sent announcing this player's, with the sea all sunk |
| Duel.Game.Run | battleship-multiplayer/multiplayer_complete.py:378-408 | with the role PLAYER_1 or PLAYER_2, everything `Rounds` states, PLAYER_1 shooting first; on `Done` every shot fired has its reply marked. With any other number it stalls with no shot fired and the log, queue and both records unchanged. `winner` becomes this player's number on a win and the opponent's on a loss, and is unchanged when the game did not end in `Done` |
| Duel.Game.OwnHalf | battleship-multiplayer/multiplayer_complete.py:394-396 | one own half of the loop keeps the loop's progress: when the loop goes on, the shot is the next cell of the trail, its hit flag is added and marked, and the log stands before the opponent's shot; when it stops, the loop ends as `Ended` says; on `Done` the reply to this shot is among the hit flags and marked |
| Duel.Game.OpponentHalf | battleship-multiplayer/multiplayer_complete.py:397-399 | one opponent half of the loop keeps the loop's progress: when the loop goes on, the shot read and its answer are added and marked, and the log stands before this player's next shot; when it stops, the loop ends as `Ended` says |
| Duel.OwnHalfEnds | battleship-multiplayer/multiplayer_complete.py:394-396 | with no aim left the loop stops in a stall; otherwise it goes on after a reply read, split and not a win, and stops as `Halted` says after any other outcome of the shot |
| Duel.ShotOut | battleship-multiplayer/multiplayer_complete.py:314-326 | a shot sent in its place in the round, with its reply if one was read, keeps the turn order; the game is won exactly when that reply reports the win, nothing is announced otherwise, and a reply read ends the exchange |
| Duel.FiredOne | battleship-multiplayer/multiplayer_complete.py:314-326 | the next shot sent as the text of the next cell, with its reply read and split, extends the record of shots sent by that cell and of replies read by its hit flag |
| Duel.AnsweredOne | battleship-multiplayer/multiplayer_complete.py:351-367 | a shot read as an on-board cell and answered with the sea's cell there and whether the fleet is all sunk after its mark extends the record of shots answered by that cell and answer |
| Duel.OwnTallied | battleship-multiplayer/multiplayer_complete.py:314-328 | after the next own shot the record is the starting one marked with every hit flag read so far, in order; a reply read that is not among them is one that did not split into two fields |
| Duel.TheirTallied | battleship-multiplayer/multiplayer_complete.py:351-367 | after the opponent's next shot is answered the opponent's record is the starting one marked with every answer so far, in order, and no further shot has been read |
| Duel.OwnTallyNext | battleship-multiplayer/multiplayer_complete.py:394-396 | the cursor after the next aim is the next cell of the trail, and the own tally grows by that shot and its hit flag, if read |
| Duel.OwnProgress | battleship-multiplayer/multiplayer_complete.py:394-396 | this player's next shot keeps the loop's progress: the turn order, the cursor on the trail, and both tallies with this one grown by the shot |
| Duel.TheirProgress | battleship-multiplayer/multiplayer_complete.py:397-399 | the opponent's next shot keeps the loop's progress: an answered shot adds its cell and answer, a stall or crash adds nothing, and the own tally is unchanged |
| Text.NatStrDigits | battleship-multiplayer/multiplayer_complete.py:316 | `str(n)` of a natural number is made of decimal digits only |

## Left out

- Display output is left out because it has no effect on the game state. That covers `display`, `Image` (apart from the frame string `show` builds), `music`, `sleep`, `Game.start`, `Game.end` and both `blink` animations. The one effect kept from `Sea.blink` is its exception for a cell off the display, which `receive_shot` raises before `hit` is reached.
- `radio.on` and `radio.config` are left out because the channel is modelled only as a lossless, ordered queue of strings. Loss, duplication and cross-talk cannot be seen in the code.
- The simultaneous button race of `choose_players` is left out because it is a matter of concurrency. The button seen first is a parameter of `ChooseRoles`.
- The accelerometer is replaced by explicit readings. Each pass reads two values per axis, because the source calls `get_x()` and `get_y()` once for each test. Button A ending `shoot` is modelled by the length of the reading sequence.
- Board.Sea.PopulateBoard: the unbounded retry loop is cut off after `fuel` attempts. Its termination, which depends on random choices, is not modelled; when the attempts run out the result is the empty fleet on an all-WATER board. It requires an empty ghost fleet, which holds at its only call site, `__init__`.
- Board.Sea.ChooseRun: when the candidates run out it states that every WATER cell has a failing orientation, not that it is the orientation that was drawn.
- Board.Sea.Hit: the link to the fleet is stated for boards that keep the fleet invariant; on other boards it is just the lookup.
- Duel.Game.Run: with a role string other than the two numbers, the source spins forever without using the radio. That case is modelled as `Stalled` with the log unchanged.
- Duel.Game.Run: its invariant carries only "every cell is WATER or SHIP" for the sea, not the full fleet invariant. The constructor establishes the fleet invariant and no operation of the two-player game writes the sea.
- `int()` accepts only an optional sign followed by decimal digits. Python also takes surrounding whitespace, underscores and non-ASCII digits; a message with those is treated as a crash here. None of the messages the game sends contains them.
- The `shoot` stub and the random-hit driver loop of `template_2.py` are left out: the stub does nothing, and the loop only calls `mark` and `show`, which are modelled.
- `cheat_sheet.py`, `examples/` and `exercises/` are left out: they are hardware demos with no game logic. The pixel clamp in them is the cursor step modelled by `Shots.Step`.
- The single-player `Game.__init__` doc comment says the player starts at the top-left corner. The code puts the cursor at (2, 2), the centre, and the model follows the code.
