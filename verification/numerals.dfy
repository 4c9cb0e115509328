/**
  Decimal numerals as Python reads and writes them: `int()` of a string and `str()` of
  an integer, over ASCII digits.
 */
module Numerals {
  import opened Wrappers
  import opened Strings

  predicate IsDigit(c: char) { '0' <= c <= '9' }

  predicate AllDigits(x: string) { x != "" && forall i :: 0 <= i < |x| ==> IsDigit(x[i]) }

  /** The value of a string of ASCII digits, as `int()` reads it. */
  function DigitsValue(d: string): nat
    requires forall i :: 0 <= i < |d| ==> IsDigit(d[i])
  {
    if d == [] then 0
    else
      assert IsDigit(d[|d| - 1]);
      10 * DigitsValue(d[..|d| - 1]) + (d[|d| - 1] as int - '0' as int)
  }

  function DigitChar(d: nat): (c: char)
    requires d < 10
    ensures IsDigit(c) && c as int - '0' as int == d
  {
    ('0' as int + d) as char
  }

  /** `str(n)` for a non-negative integer: digits only, and no leading zero. */
  function NatToString(n: nat): (s: string)
    ensures AllDigits(s)
    ensures s[0] == '0' <==> n == 0
    ensures |s| > 1 ==> s[0] != '0'
  {
    if n < 10 then [DigitChar(n)] else NatToString(n / 10) + [DigitChar(n % 10)]
  }

  /** `str(n)` for any integer. */
  function IntToString(n: int): string {
    if n < 0 then "-" + NatToString(-n) else NatToString(n)
  }

  /** Digits with single underscores between them, which `int()` accepts. */
  predicate DigitGroups(b: string)
    ensures DigitGroups(b) ==> b != [] && forall i :: 0 <= i < |b| ==> IsDigit(b[i]) || b[i] == '_'
    decreases |b|
  {
    && b != [] && IsDigit(b[0])
    && (|b| == 1 || DigitGroups(if b[1] == '_' then b[2..] else b[1..]))
  }

  function DropUnderscores(b: string): (r: string)
    requires forall i :: 0 <= i < |b| ==> IsDigit(b[i]) || b[i] == '_'
    ensures forall i :: 0 <= i < |r| ==> IsDigit(r[i])
  {
    if b == [] then [] else (if b[0] == '_' then [] else [b[0]]) + DropUnderscores(b[1..])
  }

  /** `int(s)` for a string: surrounding white space is ignored, one sign may lead, and
      `None` stands for the `ValueError` raised on anything else. */
  function PyInt(s: string): (r: Option<int>)
    ensures r.Some? ==> Strip(s) != []
  {
    Signed(Strip(s))
  }

  function Signed(t: string): (r: Option<int>)
    ensures r.Some? ==> t != []
  {
    if t != [] && t[0] == '-' then
      (match Unsigned(t[1..]) case Some(v) => Some(-(v as int)) case None => None)
    else if t != [] && t[0] == '+' then
      (match Unsigned(t[1..]) case Some(v) => Some(v as int) case None => None)
    else
      (match Unsigned(t) case Some(v) => Some(v as int) case None => None)
  }

  function Unsigned(b: string): (r: Option<nat>)
    ensures r.Some? ==> b != []
  {
    if DigitGroups(b) then Some(DigitsValue(DropUnderscores(b))) else None
  }

  /** `int(str(n)) == n`. */
  lemma PyIntOfString(n: int)
    ensures PyInt(IntToString(n)) == Some(n)
  {
    if n < 0 {
      var m: nat := -n;
      var d := NatToString(m);
      NatToStringValue(m);
      NegativeString(n, IntToString(n), d);
    } else {
      var s := IntToString(n);
      assert s == NatToString(n);
      NatToStringValue(n);
      PyIntOfDigits(s);
    }
  }

  lemma NegativeString(n: int, s: string, d: string)
    requires n < 0 && AllDigits(d) && DigitsValue(d) == -n
    requires s != [] && s[0] == '-' && s[1..] == d
    ensures PyInt(s) == Some(n)
  {
    PyIntOfNegative(s, d);
  }

  /** `s` is `"-" + d`. */
  lemma PyIntOfNegative(s: string, d: string)
    requires AllDigits(d)
    requires s != [] && s[0] == '-' && s[1..] == d
    ensures PyInt(s) == Some(-(DigitsValue(d) as int))
  {
    StripNoSpace(s);
    UnsignedOfDigits(d);
  }

  /** A plain string of digits reads as its value. */
  lemma PyIntOfDigits(s: string)
    requires AllDigits(s)
    ensures PyInt(s) == Some(DigitsValue(s))
  {
    StripNoSpace(s);
    assert !(s[0] == '+' || s[0] == '-');
    UnsignedOfDigits(s);
  }

  lemma UnsignedOfDigits(d: string)
    requires AllDigits(d)
    ensures Unsigned(d) == Some(DigitsValue(d))
  {
    DigitsAreGroups(d);
    DropNoUnderscores(d);
  }

  lemma {:induction false} DigitsAreGroups(d: string)
    requires AllDigits(d)
    ensures DigitGroups(d)
  {
    if |d| > 1 {
      assert IsDigit(d[1]);
      DigitsAreGroups(d[1..]);
    }
  }

  lemma {:induction false} NatToStringValue(n: nat)
    ensures DigitsValue(NatToString(n)) == n
  {
    if n >= 10 {
      NatToStringValue(n / 10);
      var s := NatToString(n);
      assert s[..|s| - 1] == NatToString(n / 10);
    }
  }

  lemma {:induction false} DropNoUnderscores(d: string)
    requires forall i :: 0 <= i < |d| ==> IsDigit(d[i])
    ensures DropUnderscores(d) == d
  {
    if d != [] {
      DropNoUnderscores(d[1..]);
      assert [d[0]] + d[1..] == d;
    }
  }

  lemma StripNoSpace(s: string)
    requires s != [] && !IsSpace(s[0]) && !IsSpace(s[|s| - 1])
    ensures Strip(s) == s
  {
  }
}
