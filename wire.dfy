/** The two message shapes the players exchange over the radio: a shot
    `"<row> <col>"` and its reply `"<hit> <lost>"`, each written with
    Python's `str` and read back with `split(" ")`. */
module Wire {
  import opened Text

  /** `str(row) + " " + str(col)`. */
  function ShotMessage(row: int, col: int): string {
    Str(row) + " " + Str(col)
  }

  /** `row, col = message.split(" ")` followed by `int(row)` and `int(col)`;
      `None` where Python raises (not exactly two fields, or a field that
      is not an integer). */
  function ParseShot(message: string): Option<(int, int)> {
    var fields := Split(message, ' ');
    if |fields| != 2 then None
    else match (ParseInt(fields[0]), ParseInt(fields[1]))
      case (Some(row), Some(col)) => Some((row, col))
      case _ => None
  }

  /** Python's `str` of a boolean. */
  function BoolText(b: bool): string {
    if b then "True" else "False"
  }

  /** `field == "True"`, compared character by character. */
  predicate IsTrue(field: string) {
    |field| == 4 && field[0] == 'T' && field[1] == 'r' && field[2] == 'u' && field[3] == 'e'
  }

  /** `str(hit) + " " + str(lost)`. */
  function ReplyMessage(hit: bool, lost: bool): string {
    BoolText(hit) + " " + BoolText(lost)
  }

  /** `hit, won = response.split(" ")` followed by the two `== "True"`
      tests; `None` where the unpacking raises. Any field other than
      "True" reads as false. */
  function ParseReply(message: string): Option<(bool, bool)> {
    var fields := Split(message, ' ');
    if |fields| != 2 then None else Some((IsTrue(fields[0]), IsTrue(fields[1])))
  }

  lemma StrHasNoSpace(n: int)
    ensures ' ' !in Str(n)
  {
    NatStrDigits(if n < 0 then -n else n);
    assert ' ' !in NatStr(if n < 0 then -n else n);
  }

  /** Reading a shot message gives back the cell it was written from. */
  lemma ShotRoundTrip(row: int, col: int)
    ensures ParseShot(ShotMessage(row, col)) == Some((row, col))
  {
    StrHasNoSpace(row);
    StrHasNoSpace(col);
    assert ShotMessage(row, col) == Str(row) + [' '] + Str(col);
    SplitPair(Str(row), Str(col), ' ');
    ParseStr(row);
    ParseStr(col);
  }

  /** Reading a reply gives back the two flags it was written from. */
  lemma ReplyRoundTrip(hit: bool, lost: bool)
    ensures ParseReply(ReplyMessage(hit, lost)) == Some((hit, lost))
  {
    assert ReplyMessage(hit, lost) == BoolText(hit) + [' '] + BoolText(lost);
    SplitPair(BoolText(hit), BoolText(lost), ' ');
  }

  /** The reply reports the opponent's fleet sunk exactly when its text is a
      first field without a space followed by " True". */
  ghost predicate SaysLost(reply: string) {
    |reply| >= 5 && reply[|reply| - 5..] == " True" && ' ' !in reply[..|reply| - 5]
  }

  lemma {:induction false} LostFlagMeans(reply: string)
    requires ParseReply(reply).Some?
    ensures ParseReply(reply).value.1 <==> SaysLost(reply)
  {
    var fields := Split(reply, ' ');
    SplitTwo(reply, ' ');
    if ParseReply(reply).value.1 {
      assert fields[1] == "True";
      assert reply == fields[0] + " True";
    }
    if SaysLost(reply) {
      var first := reply[..|reply| - 5];
      assert reply == first + [' '] + "True";
      SplitPair(first, "True", ' ');
    }
  }

  /** The reply the defender sends reports the attacker's win exactly when
      the defender computed `lost`: over a channel that delivers the text
      unchanged, the `won` that `send_shot` returns is the `lost` that
      `receive_shot` computed. */
  lemma ReplySaysLost(hit: bool, lost: bool)
    ensures SaysLost(ReplyMessage(hit, lost)) <==> lost
  {
    ReplyRoundTrip(hit, lost);
    LostFlagMeans(ReplyMessage(hit, lost));
  }

  /** The last character of `str(n)` is a decimal digit. */
  lemma StrEndsInDigit(n: int)
    ensures |Str(n)| >= 1 && IsDigit(Str(n)[|Str(n)| - 1])
  {
    NatStrDigits(if n < 0 then -n else n);
    if n < 0 {
      var t := NatStr(-n);
      assert Str(n)[|Str(n)| - 1] == t[|t| - 1];
    }
  }

  /** A shot message never reads as a reply announcing a sunk fleet: it ends in a digit. */
  lemma ShotNotLost(row: int, col: int)
    ensures !SaysLost(ShotMessage(row, col))
  {
    var s := ShotMessage(row, col);
    StrEndsInDigit(col);
    assert s[|s| - 1] == Str(col)[|Str(col)| - 1];
  }

  /** A message announcing a sunk fleet splits into two fields, so reading it as a reply does not raise. */
  lemma LostParses(reply: string)
    ensures SaysLost(reply) ==> ParseReply(reply).Some?
  {
    if SaysLost(reply) {
      var first := reply[..|reply| - 5];
      assert reply == first + [' '] + "True";
      SplitPair(first, "True", ' ');
    }
  }

  /** ... and reading it as a shot raises, since "True" is not an integer. */
  lemma LostIsNoShot(message: string)
    ensures SaysLost(message) ==> ParseShot(message).None?
  {
    if SaysLost(message) {
      var first := message[..|message| - 5];
      assert message == first + [' '] + "True";
      SplitPair(first, "True", ' ');
      assert !IsDigit("True"[0]);
      assert ParseInt("True").None?;
    }
  }
}
