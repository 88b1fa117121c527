/** The few pieces of Python's string handling the game relies on:
    `str()` of an integer, `int()` of a decimal field, `str.split(sep)` and
    `sep.join(parts)`. */
module Text {

  datatype Option<T> = None | Some(value: T)

  predicate IsDigit(ch: char) {
    '0' <= ch <= '9'
  }

  predicate AllDigits(s: string) {
    forall i :: 0 <= i < |s| ==> IsDigit(s[i])
  }

  function DigitChar(d: int): (ch: char)
    requires 0 <= d <= 9
    ensures IsDigit(ch)
  {
    (d + '0' as int) as char
  }

  function DigitValue(ch: char): (d: int)
    requires IsDigit(ch)
    ensures 0 <= d <= 9 && DigitChar(d) == ch
  {
    ch as int - '0' as int
  }

  /** Decimal digits of `n`, most significant first, without leading zeros. */
  function NatStr(n: nat): (s: string)
    ensures |s| >= 1
  {
    if n < 10 then [DigitChar(n)] else NatStr(n / 10) + [DigitChar(n % 10)]
  }

  /** Every character of `NatStr(n)` is a decimal digit. */
  lemma {:induction false} NatStrDigits(n: nat)
    ensures AllDigits(NatStr(n))
  {
    if n >= 10 {
      NatStrDigits(n / 10);
      var s := NatStr(n);
      assert forall i :: 0 <= i < |s| - 1 ==> s[i] == NatStr(n / 10)[i];
    }
  }

  /** Python's `str(n)` for an integer. */
  function Str(n: int): string {
    if n < 0 then "-" + NatStr(-n) else NatStr(n)
  }

  /** The number a string of decimal digits denotes. */
  function DigitsValue(s: string): nat
    requires AllDigits(s)
  {
    if s == [] then 0 else DigitsValue(s[..|s| - 1]) * 10 + DigitValue(s[|s| - 1])
  }

  /** Python's `int(s)` on the decimal forms: an optional sign followed by
      at least one digit; anything else raises, modelled as `None`. */
  function ParseInt(s: string): Option<int> {
    if |s| >= 2 && (s[0] == '-' || s[0] == '+') && AllDigits(s[1..]) then
      var v: int := DigitsValue(s[1..]);
      Some(if s[0] == '-' then -v else v)
    else if |s| >= 1 && AllDigits(s) then
      Some(DigitsValue(s))
    else
      None
  }

  lemma {:induction false} NatStrValue(n: nat)
    ensures AllDigits(NatStr(n)) && DigitsValue(NatStr(n)) == n
  {
    NatStrDigits(n);
    if n >= 10 {
      var s := NatStr(n);
      assert s[..|s| - 1] == NatStr(n / 10);
      NatStrValue(n / 10);
    }
  }

  /** `int(str(n)) == n` for every integer. */
  lemma ParseStr(n: int)
    ensures ParseInt(Str(n)) == Some(n)
  {
    var s := Str(n);
    if n < 0 {
      var digits := NatStr(-n);
      assert s[1..] == digits;
      NatStrValue(-n);
      assert |s| >= 2 && s[0] == '-' && AllDigits(s[1..]) && DigitsValue(s[1..]) == -n;
    } else {
      NatStrValue(n);
      assert IsDigit(s[0]) && AllDigits(s) && DigitsValue(s) == n;
    }
  }

  /** Python's `s.split(sep)` with an explicit one-character separator: the
      pieces between consecutive occurrences of `sep`, empty pieces kept. */
  function Split(s: string, sep: char): (parts: seq<string>)
    ensures |parts| >= 1
  {
    if s == [] then [""]
    else
      var rest := Split(s[1..], sep);
      if s[0] == sep then [""] + rest else [[s[0]] + rest[0]] + rest[1..]
  }

  lemma {:induction false} SplitNone(s: string, sep: char)
    requires sep !in s
    ensures Split(s, sep) == [s]
  {
    if s != [] {
      SplitNone(s[1..], sep);
      assert [s[0]] + s[1..] == s;
    }
  }

  /** Splitting `a + sep + b` gives back `[a, b]` when neither piece holds `sep`. */
  lemma {:induction false} SplitPair(a: string, b: string, sep: char)
    requires sep !in a && sep !in b
    ensures Split(a + [sep] + b, sep) == [a, b]
  {
    if a == [] {
      assert (a + [sep] + b)[1..] == b;
      SplitNone(b, sep);
    } else {
      assert (a + [sep] + b)[1..] == a[1..] + [sep] + b;
      SplitPair(a[1..], b, sep);
      assert [a[0]] + a[1..] == a;
    }
  }

  /** A string that splits into one piece holds no separator and is that piece. */
  lemma {:induction false} SplitOne(s: string, sep: char)
    requires |Split(s, sep)| == 1
    ensures Split(s, sep) == [s] && sep !in s
  {
    if s != [] {
      SplitOne(s[1..], sep);
      assert [s[0]] + s[1..] == s;
    }
  }

  /** A string that splits into two pieces is those pieces around its only separator. */
  lemma {:induction false} SplitTwo(s: string, sep: char)
    requires |Split(s, sep)| == 2
    ensures var parts := Split(s, sep);
      s == parts[0] + [sep] + parts[1] && sep !in parts[0] && sep !in parts[1]
  {
    var rest := Split(s[1..], sep);
    if s[0] == sep {
      SplitOne(s[1..], sep);
      assert s == [] + [sep] + s[1..];
    } else {
      SplitTwo(s[1..], sep);
      assert s == [s[0]] + s[1..];
    }
  }

  /** Python's `sep.join(parts)` with a one-character separator. */
  function Join(parts: seq<string>, sep: char): string {
    if parts == [] then ""
    else if |parts| == 1 then parts[0]
    else Join(parts[..|parts| - 1], sep) + [sep] + parts[|parts| - 1]
  }

  /** Joining five-character pieces puts piece `r` at offset `6 * r`
      and a separator right after every piece but the last. */
  lemma {:induction false} JoinLayout(parts: seq<string>, sep: char)
    requires |parts| >= 1
    requires forall r :: 0 <= r < |parts| ==> |parts[r]| == 5
    ensures |Join(parts, sep)| == 6 * |parts| - 1
    ensures forall r, c :: 0 <= r < |parts| && 0 <= c < 5 ==> Join(parts, sep)[6 * r + c] == parts[r][c]
    ensures forall r :: 0 <= r < |parts| - 1 ==> Join(parts, sep)[6 * r + 5] == sep
  {
    var n := |parts|;
    if n > 1 {
      var init := parts[..n - 1];
      JoinLayout(init, sep);
      var j := Join(parts, sep);
      assert j == Join(init, sep) + [sep] + parts[n - 1];
      forall r, c | 0 <= r < n && 0 <= c < 5
        ensures j[6 * r + c] == parts[r][c]
      {
        if r < n - 1 {
          assert init[r] == parts[r];
        }
      }
    }
  }
}
