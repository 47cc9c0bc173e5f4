/**
 * Decimal text of integers, as `Integer.toString`, `Long.toString` and the
 * `"%02d"` format produce it (with ASCII digits), together with the value a
 * run of digits spells, so that every rendering can be read back.
 */
module Decimal {

  predicate IsDigit(c: char) {
    '0' <= c <= '9'
  }

  predicate IsDigits(s: string) {
    forall i :: 0 <= i < |s| ==> IsDigit(s[i])
  }

  function DigitChar(d: nat): (c: char)
    requires d < 10
    ensures IsDigit(c) && c as int - '0' as int == d
  {
    ('0' as int + d) as char
  }

  function DigitValue(c: char): (d: nat)
    requires IsDigit(c)
    ensures d < 10 && DigitChar(d) == c
  {
    c as int - '0' as int
  }

  /** The number a run of decimal digits spells, most significant digit first. */
  function DigitsValue(s: string): nat
    requires IsDigits(s)
  {
    if s == [] then 0 else DigitsValue(s[..|s| - 1]) * 10 + DigitValue(s[|s| - 1])
  }

  /** The decimal text of a non-negative number: no sign, no leading zero. */
  function NatToString(n: nat): (s: string)
    ensures IsDigits(s) && 1 <= |s|
    ensures |s| == 1 <==> n < 10
    ensures s[0] == '0' ==> n == 0
  {
    if n < 10 then [DigitChar(n)] else NatToString(n / 10) + [DigitChar(n % 10)]
  }

  /** `Integer.toString`: a minus sign exactly for negative numbers. */
  function IntToString(i: int): (s: string)
    ensures 1 <= |s|
    ensures s[0] == '-' <==> i < 0
    ensures i >= 0 ==> IsDigits(s)
  {
    if i < 0 then "-" + NatToString(-i) else NatToString(i)
  }

  /** `String.format("%02d", n)` for n >= 0: at least two digits, zero-padded on the left. */
  function Pad2(n: nat): (s: string)
    ensures IsDigits(s) && DigitsValue(s) == n
    ensures |s| >= 2 && (n < 100 ==> |s| == 2)
    ensures n >= 10 ==> s[0] != '0'
  {
    if n < 100 then
      var tens := [DigitChar(n / 10)];
      assert DigitsValue(tens) == n / 10 by { assert tens[..0] == []; }
      DigitsValueSnoc(tens, DigitChar(n % 10));
      tens + [DigitChar(n % 10)]
    else
      DigitsValueSnoc(Pad2(n / 10), DigitChar(n % 10));
      Pad2(n / 10) + [DigitChar(n % 10)]
  }

  lemma DigitsValueSnoc(s: string, c: char)
    requires IsDigits(s) && IsDigit(c)
    ensures IsDigits(s + [c])
    ensures DigitsValue(s + [c]) == DigitsValue(s) * 10 + DigitValue(c)
  {
    assert (s + [c])[..|s|] == s;
  }

  /** Reading back the text of a number gives the number. */
  lemma {:induction false} NatToStringRoundTrip(n: nat)
    ensures DigitsValue(NatToString(n)) == n
  {
    if n >= 10 {
      NatToStringRoundTrip(n / 10);
      DigitsValueSnoc(NatToString(n / 10), DigitChar(n % 10));
    }
  }

  /** `Integer.parseInt` on well-formed text: an optional minus sign, then digits. */
  function ParseInt(s: string): int {
    if |s| > 0 && s[0] == '-' && IsDigits(s[1..]) then -(DigitsValue(s[1..]) as int)
    else if IsDigits(s) then DigitsValue(s)
    else 0
  }

  /** Parsing the text of a number gives the number back. */
  lemma IntToStringRoundTrip(i: int)
    ensures ParseInt(IntToString(i)) == i
  {
    var s := IntToString(i);
    if i < 0 {
      assert s[1..] == NatToString(-i);
      NatToStringRoundTrip(-i);
    } else {
      assert s[0] != '-';
      NatToStringRoundTrip(i);
    }
  }

  /** Different numbers have different texts, so the text identifies the number. */
  lemma IntToStringInjective(a: int, b: int)
    ensures IntToString(a) == IntToString(b) <==> a == b
  {
    IntToStringRoundTrip(a);
    IntToStringRoundTrip(b);
  }

  /**
   * Where the pieces of a "<a><sep><b><unit>" text sit, counted from its end,
   * when `sep` has two characters, `b` two digits and `unit` one letter.
   */
  lemma TwoFieldLayout(a: string, sep: string, b: string, unit: string)
    requires |sep| == 2 && |b| == 2 && |unit| == 1
    ensures var t := a + sep + b + unit; var n := |t|;
      && n == |a| + 5
      && t[..n - 5] == a && t[n - 5..n - 3] == sep && t[n - 3..n - 1] == b && t[n - 1..] == unit
  {
    var t := a + sep + b + unit;
    var n := |t|;
    assert t[..n - 5] == a;
    assert t[n - 5..n - 3] == sep;
    assert t[n - 3..n - 1] == b;
  }

  /** The same for "<a><sep1><b><sep2><c><unit>", with `b` and `c` of two digits. */
  lemma ThreeFieldLayout(a: string, sep1: string, b: string, sep2: string, c: string, unit: string)
    requires |sep1| == 2 && |b| == 2 && |sep2| == 2 && |c| == 2 && |unit| == 1
    ensures var t := a + sep1 + b + sep2 + c + unit; var n := |t|;
      && n == |a| + 9
      && t[..n - 9] == a && t[n - 9..n - 7] == sep1 && t[n - 7..n - 5] == b
      && t[n - 5..n - 3] == sep2 && t[n - 3..n - 1] == c && t[n - 1..] == unit
  {
    var t := a + sep1 + b + sep2 + c + unit;
    var n := |t|;
    assert t[..n - 9] == a;
    assert t[n - 9..n - 7] == sep1;
    assert t[n - 7..n - 5] == b;
    assert t[n - 5..n - 3] == sep2;
    assert t[n - 3..n - 1] == c;
  }
}
