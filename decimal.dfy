/** Decimal text of a Java `long`, as string concatenation (`"..." + n`,
    i.e. `Long.toString(n)`) writes it, and the parse that reads it back. */
module Decimal {
  import opened Outcomes

  const Digits: string := "0123456789"

  function DigitChar(d: nat): (c: char)
    requires d < 10
    ensures '0' <= c <= '9'
  {
    Digits[d]
  }

  predicate IsDigit(c: char) {
    '0' <= c <= '9'
  }

  function DigitValue(c: char): (d: nat)
    requires IsDigit(c)
    ensures d < 10
  {
    (c - '0') as nat
  }

  /** The digits of `n` without leading zeros ("0" for zero). */
  function NatString(n: nat): (s: string)
    ensures |s| > 0
    ensures s[0] == '0' <==> n == 0
    ensures forall i :: 0 <= i < |s| ==> IsDigit(s[i])
    decreases n
  {
    if n < 10 then [DigitChar(n)] else NatString(n / 10) + [DigitChar(n % 10)]
  }

  /** `Long.toString(n)`: a minus sign before the digits of a negative number. */
  function LongString(n: int): (s: string)
    ensures ' ' !in s
    ensures |s| > 0 && (s[0] == '-' <==> n < 0)
    ensures var digits := if n < 0 then s[1..] else s;
            |digits| > 0 && (digits[0] == '0' ==> digits == "0")
  {
    if n < 0 then "-" + NatString(-n) else NatString(n)
  }

  /** The number a string of digits denotes, most significant first. */
  function DigitsValue(s: string): nat
    requires forall i :: 0 <= i < |s| ==> IsDigit(s[i])
  {
    if s == [] then 0 else 10 * DigitsValue(s[..|s| - 1]) + DigitValue(s[|s| - 1])
  }

  /** A non-empty string of digits, optionally after one minus sign. */
  function ParseLong(s: string): (r: Option<int>)
    ensures r.Some? ==> |s| > 0
  {
    if |s| > 0 && s[0] == '-' then
      match ParseNat(s[1..])
      case Some(n) => Some(-(n as int))
      case None => None
    else
      match ParseNat(s)
      case Some(n) => Some(n as int)
      case None => None
  }

  function ParseNat(s: string): Option<nat> {
    if s != [] && forall i :: 0 <= i < |s| ==> IsDigit(s[i]) then Some(DigitsValue(s)) else None
  }

  lemma {:induction false} NatStringValue(n: nat)
    ensures DigitsValue(NatString(n)) == n
    decreases n
  {
    if n >= 10 {
      var s := NatString(n);
      assert s[..|s| - 1] == NatString(n / 10);
      NatStringValue(n / 10);
    }
  }

  /** Reading back the text of a `long` gives the `long`. */
  lemma ParseLongString(n: int)
    ensures ParseLong(LongString(n)) == Some(n)
  {
    var digits := NatString(if n < 0 then -n else n);
    NatStringValue(if n < 0 then -n else n);
    assert ParseNat(digits) == Some(if n < 0 then -n else n);
    if n < 0 {
      assert LongString(n)[1..] == digits;
    } else {
      assert LongString(n) == digits && digits[0] != '-';
    }
  }
}
