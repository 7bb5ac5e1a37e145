/**
 * Decimal text of integers, as JavaScript's `String(n)` writes it for an
 * integer-valued number, and `pad2` of assets/app.js. A reader of decimal
 * digits is the partner that the round-trip lemmas are stated against.
 */
module Decimal {

  predicate IsDigit(c: char) { '0' <= c <= '9' }

  predicate AllDigits(s: string) { forall i :: 0 <= i < |s| ==> IsDigit(s[i]) }

  function DigitChar(d: nat): (c: char)
    requires d < 10
    ensures IsDigit(c) && c as int - '0' as int == d
  {
    ('0' as int + d) as char
  }

  /** The value of a digit string (the empty string reads as 0). */
  function DigitsValue(s: string): nat
    requires AllDigits(s)
    decreases |s|
  {
    if s == [] then 0 else DigitsValue(s[..|s| - 1]) * 10 + (s[|s| - 1] as int - '0' as int)
  }

  /** `String(n)` for a non-negative integer: at least one digit, no leading zero. */
  function NatToString(n: nat): (s: string)
    ensures |s| >= 1 && AllDigits(s)
    ensures |s| == 1 <==> n < 10
    ensures s[0] == '0' ==> n == 0
    decreases n
  {
    if n < 10 then [DigitChar(n)] else NatToString(n / 10) + [DigitChar(n % 10)]
  }

  /** `String(n)` for any integer: a minus sign exactly for negatives. */
  function IntToString(n: int): (s: string)
    ensures |s| >= 1
    ensures s[0] == '-' <==> n < 0
    ensures n >= 0 ==> AllDigits(s)
  {
    if n < 0 then "-" + NatToString(-n) else NatToString(n)
  }

  /** Reading back what `NatToString` wrote gives the number. */
  lemma {:induction false} NatToStringRoundTrip(n: nat)
    ensures DigitsValue(NatToString(n)) == n
  {
    if n >= 10 {
      NatToStringRoundTrip(n / 10);
      var s := NatToString(n);
      assert s[..|s| - 1] == NatToString(n / 10);
    }
  }

  /** `pad2(n)`: `String(n).padStart(2, "0")`, one leading zero for a one-character text. */
  function Pad2(n: int): (s: string)
    ensures |s| >= 2
    ensures n < 0 || n >= 10 ==> s == IntToString(n)
    ensures 0 <= n < 100 ==> |s| == 2 && AllDigits(s)
  {
    var t := IntToString(n);
    if |t| < 2 then "0" + t else t
  }

  /** A number in [0, 99] is padded to two digits that read back as the number. */
  lemma Pad2RoundTrip(n: int)
    requires 0 <= n < 100
    ensures DigitsValue(Pad2(n)) == n
  {
    NatToStringRoundTrip(n);
    var t := NatToString(n);
    if n < 10 {
      assert ("0" + t)[..1] == "0";
    }
  }
}
