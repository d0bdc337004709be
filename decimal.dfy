/**
 * Python's `str()` of an integer (decimal digits, a leading '-' when
 * negative) together with the parser that inverts it, and the '-'-joined
 * date label built from three such strings.
 */
module Decimal {
  import opened Wrappers

  predicate IsDigit(c: char) {
    '0' <= c <= '9'
  }

  predicate AllDigits(s: string) {
    forall k :: 0 <= k < |s| ==> IsDigit(s[k])
  }

  /** A digit string as `str()` writes one: non-empty, no leading zero unless it is "0". */
  predicate Canonical(s: string) {
    |s| > 0 && AllDigits(s) && (s[0] == '0' ==> |s| == 1)
  }

  function DigitChar(d: nat): (c: char)
    requires d < 10
    ensures IsDigit(c)
  {
    ('0' as int + d) as char
  }

  function DigitValue(c: char): (d: nat)
    requires IsDigit(c)
    ensures d < 10 && DigitChar(d) == c
  {
    c as int - '0' as int
  }

  /** `str(n)` for `n >= 0`. */
  function NatToString(n: nat): (s: string)
    ensures Canonical(s)
    ensures s[0] == '0' <==> n == 0
  {
    if n < 10 then [DigitChar(n)] else NatToString(n / 10) + [DigitChar(n % 10)]
  }

  /** `str(n)` for any Python int. */
  function IntToString(n: int): (s: string)
    ensures n >= 0 ==> Canonical(s)
    ensures n < 0 ==> |s| > 1 && s[0] == '-' && Canonical(s[1..]) && s[1] != '0'
  {
    if n < 0 then "-" + NatToString(-n) else NatToString(n)
  }

  /** The value of a string of decimal digits. */
  function ParseNat(s: string): nat
    requires AllDigits(s)
  {
    if s == [] then 0 else ParseNat(s[..|s| - 1]) * 10 + DigitValue(s[|s| - 1])
  }

  /** The inverse of `IntToString`: a canonical digit string, optionally after '-'. */
  function ParseInt(s: string): Option<int> {
    if |s| > 1 && s[0] == '-' && s[1] != '0' && Canonical(s[1..]) then Some(-(ParseNat(s[1..]) as int))
    else if Canonical(s) then Some(ParseNat(s))
    else None
  }

  lemma {:induction false} NatRoundTrip(n: nat)
    ensures ParseNat(NatToString(n)) == n
  {
    if n >= 10 {
      NatRoundTrip(n / 10);
      var s := NatToString(n);
      assert s[..|s| - 1] == NatToString(n / 10);
    }
  }

  /** A digit string that does not start with '0' denotes a positive number. */
  lemma {:induction false} ParseNatPositive(s: string)
    requires |s| > 0 && AllDigits(s) && s[0] != '0'
    ensures ParseNat(s) >= 1
  {
    if |s| > 1 {
      ParseNatPositive(s[..|s| - 1]);
    }
  }

  lemma {:induction false} CanonicalRoundTrip(s: string)
    requires Canonical(s)
    ensures NatToString(ParseNat(s)) == s
  {
    if |s| > 1 {
      var p := s[..|s| - 1];
      CanonicalRoundTrip(p);
      ParseNatPositive(p);
      var n := ParseNat(s);
      assert n / 10 == ParseNat(p) && n % 10 == DigitValue(s[|s| - 1]);
      assert s == p + [s[|s| - 1]];
    }
  }

  /** Parsing undoes `str()` on every integer. */
  lemma IntRoundTrip(n: int)
    ensures ParseInt(IntToString(n)) == Some(n)
  {
    var s := IntToString(n);
    if n < 0 {
      assert s[1..] == NatToString(-n);
      NatRoundTrip(-n);
    } else {
      NatRoundTrip(n);
    }
  }

  /** `IntToString` prints every string `ParseInt` accepts: the two are mutually inverse. */
  lemma ParseIntRoundTrip(s: string)
    requires ParseInt(s).Some?
    ensures IntToString(ParseInt(s).value) == s
  {
    if |s| > 1 && s[0] == '-' && s[1] != '0' && Canonical(s[1..]) {
      CanonicalRoundTrip(s[1..]);
      ParseNatPositive(s[1..]);
    } else {
      CanonicalRoundTrip(s);
    }
  }

  /** The pieces of `s` between occurrences of `sep`, like Python's `s.split(sep)`. */
  function SplitOn(s: string, sep: char): (parts: seq<string>)
    ensures |parts| >= 1
    decreases |s|
  {
    if s == [] then [""]
    else
      var rest := SplitOn(s[1..], sep);
      if s[0] == sep then [""] + rest else [[s[0]] + rest[0]] + rest[1..]
  }

  lemma {:induction false} SplitNoSeparator(a: string, sep: char)
    requires sep !in a
    ensures SplitOn(a, sep) == [a]
  {
    if a != [] {
      SplitNoSeparator(a[1..], sep);
      assert [a[0]] + a[1..] == a;
    }
  }

  lemma {:induction false} SplitFirst(a: string, sep: char, b: string)
    requires sep !in a
    ensures SplitOn(a + [sep] + b, sep) == [a] + SplitOn(b, sep)
  {
    var s := a + [sep] + b;
    if a == [] {
      assert s[1..] == b;
    } else {
      assert s[1..] == a[1..] + [sep] + b;
      SplitFirst(a[1..], sep, b);
      assert [a[0]] + a[1..] == a;
    }
  }

  /** The record date stamp `f"{d}-{m}-{y}"`. */
  function DateLabel(d: int, m: int, y: int): string {
    IntToString(d) + "-" + IntToString(m) + "-" + IntToString(y)
  }

  /** Reads a date stamp back: three canonical digit strings joined by '-'. */
  function ParseLabel(s: string): Option<(int, int, int)> {
    var parts := SplitOn(s, '-');
    if |parts| == 3 && Canonical(parts[0]) && Canonical(parts[1]) && Canonical(parts[2]) then
      Some((ParseNat(parts[0]), ParseNat(parts[1]), ParseNat(parts[2])))
    else
      None
  }

  /** For the non-negative day, month and year the page accepts, the stamp
      determines the period it was made for. */
  lemma LabelRoundTrip(d: int, m: int, y: int)
    requires d >= 0 && m >= 0 && y >= 0
    ensures ParseLabel(DateLabel(d, m, y)) == Some((d, m, y))
  {
    var sd, sm, sy := NatToString(d), NatToString(m), NatToString(y);
    assert DateLabel(d, m, y) == sd + ['-'] + (sm + ['-'] + sy);
    SplitFirst(sd, '-', sm + ['-'] + sy);
    SplitFirst(sm, '-', sy);
    SplitNoSeparator(sy, '-');
    NatRoundTrip(d);
    NatRoundTrip(m);
    NatRoundTrip(y);
  }

  /** The stamp of 9 December 2024 is "9-12-2024". */
  lemma DateLabelExample()
    ensures DateLabel(9, 12, 2024) == "9-12-2024"
  {
    assert NatToString(2024) == NatToString(202) + ['4'];
    assert NatToString(202) == NatToString(20) + ['2'];
    assert NatToString(20) == NatToString(2) + ['0'];
    assert NatToString(12) == NatToString(1) + ['2'];
  }
}
