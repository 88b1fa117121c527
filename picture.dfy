/** The string `show` hands to `Image`: each row's codes written as
    decimal digits, the rows joined by ':'. */
module Picture {
  import opened Grid
  import opened Text

  /** `"".join(str(point) for point in line)`. */
  function RowText(line: seq<int>): string {
    if line == [] then "" else RowText(line[..|line| - 1]) + Str(line[|line| - 1])
  }

  /** `":".join([... for line in g])`. */
  function Frame(g: Matrix): string {
    Join(seq(|g|, i requires 0 <= i < |g| => RowText(g[i])), ':')
  }

  /** Every cell holds a single decimal digit (true of a board, which holds
      WATER and SHIP, and of a shot record, which adds 0). */
  ghost predicate SingleDigits(g: Matrix)
    requires IsSquare(g)
  {
    forall r, c :: InBounds(r, c) ==> 0 <= g[r][c] <= 9
  }

  lemma {:induction false} RowTextDigits(line: seq<int>)
    requires forall c :: 0 <= c < |line| ==> 0 <= line[c] <= 9
    ensures |RowText(line)| == |line|
    ensures forall c :: 0 <= c < |line| ==> RowText(line)[c] == DigitChar(line[c])
  {
    if line != [] {
      RowTextDigits(line[..|line| - 1]);
    }
  }

  /** The frame of a 5x5 grid of digits is 29 characters long, has ':' at
      positions 5, 11, 17 and 23, and shows cell (r, c) at position 6 * r + c. */
  lemma FrameLayout(g: Matrix)
    requires IsSquare(g) && SingleDigits(g)
    ensures |Frame(g)| == 29
    ensures forall k :: k in {5, 11, 17, 23} ==> Frame(g)[k] == ':'
    ensures forall r, c :: InBounds(r, c) ==> Frame(g)[6 * r + c] == DigitChar(g[r][c])
  {
    var rows := seq(|g|, i requires 0 <= i < |g| => RowText(g[i]));
    forall r | 0 <= r < N
      ensures |rows[r]| == N
      ensures forall c :: 0 <= c < N ==> rows[r][c] == DigitChar(g[r][c])
    {
      RowTextDigits(g[r]);
    }
    JoinLayout(rows, ':');
    assert Frame(g) == Join(rows, ':');
    assert 5 == 6 * 0 + 5 && 11 == 6 * 1 + 5 && 17 == 6 * 2 + 5 && 23 == 6 * 3 + 5;
  }
}
