/**
 * The string helpers the archiver leans on: Python 2's `str.rstrip()`,
 * `str()` of an integer and POSIX `os.path.join` of two components.
 */
module Text {

  /** The characters Python 2's `str.rstrip()` removes when given no argument. */
  predicate IsSpace(c: char) {
    c == ' ' || c == '\t' || c == '\n' || c == '\r' || c == '\U{000B}' || c == '\U{000C}'
  }

  /** `s.rstrip()`: the longest prefix of `s` that does not end in whitespace. */
  function RStrip(s: string): (r: string)
    ensures |r| <= |s| && r == s[..|r|]
    ensures forall k :: |r| <= k < |s| ==> IsSpace(s[k])
    ensures r == [] || !IsSpace(r[|r| - 1])
    ensures r == [] <==> forall k :: 0 <= k < |s| ==> IsSpace(s[k])
    decreases |s|
  {
    if |s| > 0 && IsSpace(s[|s| - 1]) then RStrip(s[..|s| - 1]) else s
  }

  function DigitChar(d: nat): (c: char)
    requires d < 10
    ensures '0' <= c <= '9'
  {
    "0123456789"[d]
  }

  /** Decimal digits of a natural number, most significant first, without leading zeros. */
  function NatToString(n: nat): (r: string)
    ensures |r| > 0
    ensures forall k :: 0 <= k < |r| ==> '0' <= r[k] <= '9'
    ensures r[0] == '0' ==> r == "0"
    decreases n
  {
    if n < 10 then [DigitChar(n)] else NatToString(n / 10) + [DigitChar(n % 10)]
  }

  /** `str(i)` for a Python integer. */
  function IntToString(i: int): (r: string)
    ensures |r| > 0
  {
    if i < 0 then "-" + NatToString(-i) else NatToString(i)
  }

  /** The value of a decimal digit character. */
  function DigitValue(c: char): (d: nat)
    requires '0' <= c <= '9'
    ensures d < 10
  {
    (c as int) - ('0' as int)
  }

  /** The value of a string of decimal digits, most significant first; the empty string is 0. */
  function DecimalValue(s: string): (v: nat)
    requires forall k :: 0 <= k < |s| ==> '0' <= s[k] <= '9'
  {
    if s == [] then 0 else DecimalValue(s[..|s| - 1]) * 10 + DigitValue(s[|s| - 1])
  }

  /** `int(s)` for the text `str` produces: an optional minus sign, then decimal digits. */
  function ParseInt(s: string): int
    requires |s| > 0
    requires forall k :: 0 < k < |s| ==> '0' <= s[k] <= '9'
    requires s[0] == '-' || '0' <= s[0] <= '9'
  {
    if s[0] == '-' then -(DecimalValue(s[1..]) as int) else DecimalValue(s)
  }

  lemma DigitRoundTrip(d: nat)
    requires d < 10
    ensures DigitValue(DigitChar(d)) == d
  {
  }

  /** Reading back the digits of `NatToString(n)` gives `n`. */
  lemma {:induction false} NatToStringRoundTrip(n: nat)
    ensures DecimalValue(NatToString(n)) == n
    decreases n
  {
    var r := NatToString(n);
    if n < 10 {
      DigitRoundTrip(n);
      assert r[..0] == [];
    } else {
      var front := NatToString(n / 10);
      assert r == front + [DigitChar(n % 10)];
      assert r[..|r| - 1] == front;
      DigitRoundTrip(n % 10);
      NatToStringRoundTrip(n / 10);
    }
  }

  /** `str(i)` is the decimal text of `i`: a '-' exactly for negatives, then the digits of `|i|`, which read back as `i`. */
  lemma IntToStringRoundTrip(i: int)
    ensures IntToString(i)[0] == '-' <==> i < 0
    ensures ParseInt(IntToString(i)) == i
  {
    if i < 0 {
      NegativeText(-i);
      assert IntToString(i) == "-" + NatToString(-i);
    } else {
      NonNegativeText(i);
      assert IntToString(i) == NatToString(i);
    }
  }

  /** `str` of a non-negative number: its digits, which read back as the number. */
  lemma NonNegativeText(n: nat)
    ensures NatToString(n)[0] != '-'
    ensures ParseInt(NatToString(n)) == n
  {
    NatToStringRoundTrip(n);
  }

  /** Everything after the first character of `str(i)` is a decimal digit. */
  lemma IntToStringDigits(i: int)
    ensures forall k :: 0 < k < |IntToString(i)| ==> '0' <= IntToString(i)[k] <= '9'
  {
    if i < 0 {
      NegativeText(-i);
    }
  }

  /** `str` of a negative number: a '-', then the digits of its magnitude. */
  lemma NegativeText(m: nat)
    requires m > 0
    ensures var r := "-" + NatToString(m);
            && r[0] == '-'
            && (forall k :: 0 < k < |r| ==> '0' <= r[k] <= '9')
            && r[1..] == NatToString(m)
            && ParseInt(r) == -(m as int)
  {
    var digits := NatToString(m);
    var r := "-" + digits;
    assert r[1..] == digits;
    NatToStringRoundTrip(m);
  }

  /**
   * POSIX `os.path.join(a, b)`: an absolute `b` replaces `a`; otherwise `b`
   * is appended, with a separating '/' unless `a` is empty or already ends in one.
   */
  function Join(a: string, b: string): string {
    if |b| > 0 && b[0] == '/' then b
    else if a == [] || a[|a| - 1] == '/' then a + b
    else a + "/" + b
  }

  /**
   * The two cases of `Join`: an absolute `b` is the whole result; otherwise
   * the result is `a`, then exactly one '/' when `a` is non-empty and does not
   * already end in one, then `b`.
   */
  lemma JoinCases(a: string, b: string)
    ensures |b| > 0 && b[0] == '/' ==> Join(a, b) == b
    ensures !(|b| > 0 && b[0] == '/') ==>
              var r := Join(a, b);
              var gap := if a != [] && a[|a| - 1] != '/' then 1 else 0;
              && |r| == |a| + gap + |b|
              && r[..|a|] == a
              && r[|a| + gap..] == b
              && (gap == 1 ==> r[|a|] == '/')
  {
  }
}
