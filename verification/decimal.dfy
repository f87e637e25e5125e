/** Decimal integers as text: Python's `'%d'` and `'%0<w>d'` formatting and
    its `int(s)` parsing, restricted to ASCII digits. */
module Decimal {
  import opened Results

  predicate IsDigit(c: char) {
    '0' <= c <= '9'
  }

  predicate AllDigits(s: string) {
    forall i :: 0 <= i < |s| ==> IsDigit(s[i])
  }

  function DigitValue(c: char): (d: nat)
    requires IsDigit(c)
    ensures d < 10
  {
    (c as int) - ('0' as int)
  }

  function DigitChar(d: nat): (c: char)
    requires d < 10
    ensures IsDigit(c) && DigitValue(c) == d
  {
    (('0' as int) + d) as char
  }

  /** The number a string of digits denotes, most significant digit first. */
  function DigitsValue(s: string): nat
    requires AllDigits(s)
  {
    if s == [] then 0
    else DigitsValue(s[..|s| - 1]) * 10 + DigitValue(s[|s| - 1])
  }

  /** `'%d' % n` for a non-negative `n`: the shortest digit string denoting `n`. */
  function NatToDecimal(n: nat): (s: string)
    ensures |s| >= 1 && AllDigits(s)
    ensures DigitsValue(s) == n
    ensures |s| > 1 ==> s[0] != '0'
  {
    if n < 10 then [DigitChar(n)]
    else
      var s := NatToDecimal(n / 10) + [DigitChar(n % 10)];
      assert s[..|s| - 1] == NatToDecimal(n / 10);
      s
  }

  /** `'%d' % n` for any integer `n`. */
  function IntToDecimal(n: int): (s: string)
    ensures |s| >= 1
  {
    if n < 0 then "-" + NatToDecimal(-n) else NatToDecimal(n)
  }

  function Zeros(k: nat): (s: string)
    ensures |s| == k && AllDigits(s)
  {
    if k == 0 then "" else "0" + Zeros(k - 1)
  }

  /** Leading zeros do not change the value of a digit string. */
  lemma {:induction false} LeadingZeros(k: nat, s: string)
    requires AllDigits(s)
    ensures AllDigits(Zeros(k) + s)
    ensures DigitsValue(Zeros(k) + s) == DigitsValue(s)
  {
    if k == 0 {
      assert Zeros(k) + s == s;
    } else {
      var shorter := Zeros(k - 1) + s;
      assert Zeros(k) + s == "0" + shorter;
      LeadingZeros(k - 1, s);
      ZeroPrefix(shorter);
    }
  }

  lemma {:induction false} ZeroPrefix(s: string)
    requires AllDigits(s)
    ensures AllDigits("0" + s)
    ensures DigitsValue("0" + s) == DigitsValue(s)
  {
    if s != [] {
      var t := "0" + s;
      assert t[..|t| - 1] == "0" + s[..|s| - 1];
      ZeroPrefix(s[..|s| - 1]);
    }
  }

  /** `'%0<width>d' % n` for a non-negative `n`: the decimal digits of `n`,
      padded on the left with zeros to at least `width` characters. */
  function ZeroPad(n: nat, width: nat): (s: string)
    ensures |s| >= width && |s| >= |NatToDecimal(n)|
    ensures |s| == width || |s| == |NatToDecimal(n)|
    ensures AllDigits(s) && DigitsValue(s) == n
  {
    var digits := NatToDecimal(n);
    var pad := if width > |digits| then width - |digits| else 0;
    LeadingZeros(pad, digits);
    Zeros(pad) + digits
  }

  /** The prefixes `int()` accepts in front of the digits. */
  predicate IsSign(p: string) {
    p == "" || p == "+" || p == "-"
  }

  /** An integer literal: a sign prefix `s[..k]` followed by at least one digit. */
  ghost predicate IsIntLiteral(s: string) {
    exists k :: 0 <= k < |s| && IsSign(s[..k]) && AllDigits(s[k..])
  }

  /** `int(s)`, or `None` where Python raises `ValueError`. Accepted text is
      an optional `+` or `-` followed by one or more ASCII digits, leading
      zeros allowed; the value is the digits' value, negated after `-`. */
  function ParseInt(s: string): (r: Option<int>)
    ensures r.Some? <==> IsIntLiteral(s)
    ensures forall k :: 0 <= k < |s| && IsSign(s[..k]) && AllDigits(s[k..]) ==>
      r == Some(if s[..k] == "-" then -(DigitsValue(s[k..]) as int) else DigitsValue(s[k..]))
  {
    if |s| >= 2 && (s[0] == '+' || s[0] == '-') && AllDigits(s[1..]) then
      assert IsSign(s[..1]);
      Some(if s[0] == '-' then -(DigitsValue(s[1..]) as int) else DigitsValue(s[1..]))
    else if |s| >= 1 && AllDigits(s) then
      assert IsSign(s[..0]) && s[0..] == s;
      Some(DigitsValue(s))
    else
      assert forall k :: 0 <= k < |s| && IsSign(s[..k]) ==> k == 0 || (k == 1 && s[..1] == [s[0]]);
      None
  }

  /** Parsing inverts `'%d'` formatting, on every integer. */
  lemma ParseFormatted(n: int)
    ensures ParseInt(IntToDecimal(n)) == Some(n)
  {
    var s := IntToDecimal(n);
    if n < 0 {
      assert s[..1] == "-" && s[1..] == NatToDecimal(-n);
    } else {
      assert s[..0] == "" && s[0..] == s;
    }
  }

  /** Parsing inverts zero-padded formatting: `int('%02d' % n) == n`. */
  lemma ParseZeroPadded(n: nat, width: nat)
    ensures ParseInt(ZeroPad(n, width)) == Some(n)
  {
    var s := ZeroPad(n, width);
    assert s[..0] == "" && s[0..] == s;
  }
}
