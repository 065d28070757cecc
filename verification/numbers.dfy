/**
 * The number primitives the relative-time engine relies on: `Math.abs`,
 * `toFixed()` read back by `parseInt`, and `Number.prototype.toString` on
 * integers. Numbers are exact reals here; see the README for what that
 * leaves out of IEEE-754 arithmetic.
 */
module Numbers {

  function Abs(x: real): (r: real)
    ensures r >= 0.0
    ensures r == x || r == -x
  {
    if x < 0.0 then -x else x
  }

  /**
   * `parseInt(x.toFixed(), 10)` for a non-negative `x`: the integer nearest
   * to `x`, a tie going to the larger neighbour.
   */
  function RoundHalfUp(x: real): (n: nat)
    requires x >= 0.0
    ensures n as real - 0.5 <= x < n as real + 0.5
  {
    (x + 0.5).Floor
  }

  /** The characterisation above pins the rounded value down uniquely. */
  lemma RoundHalfUpUnique(x: real, n: int)
    requires x >= 0.0
    requires n as real - 0.5 <= x < n as real + 0.5
    ensures n == RoundHalfUp(x)
  {
  }

  /**
   * `parseInt(x.toFixed(), 10)` for any `x`: `toFixed` formats the magnitude
   * and puts the sign in front, so halves round away from zero.
   */
  function ToFixedZero(x: real): (n: int)
    ensures x >= 0.0 ==> n >= 0 && n == RoundHalfUp(x)
    ensures x < 0.0 ==> n <= 0 && -n == RoundHalfUp(-x)
    ensures n as real - 0.5 <= x <= n as real + 0.5
  {
    if x < 0.0 then -(RoundHalfUp(-x) as int) else RoundHalfUp(x)
  }

  predicate IsDigit(c: char) {
    '0' <= c <= '9'
  }

  predicate AllDigits(s: string) {
    forall i :: 0 <= i < |s| ==> IsDigit(s[i])
  }

  function DigitChar(d: nat): (c: char)
    requires d < 10
    ensures IsDigit(c)
  {
    "0123456789"[d]
  }

  function DigitValue(c: char): (d: nat)
    requires IsDigit(c)
    ensures d < 10
  {
    c as int - '0' as int
  }

  lemma DigitValueOfDigitChar(d: nat)
    requires d < 10
    ensures DigitValue(DigitChar(d)) == d
  {
  }

  /** Decimal digits of a natural number, without leading zeros. */
  function NatToString(n: nat): (s: string)
    ensures 1 <= |s|
    ensures AllDigits(s)
    ensures 1 < |s| ==> s[0] != '0'
    ensures n < 10 <==> |s| == 1
  {
    if n < 10 then [DigitChar(n)] else NatToString(n / 10) + [DigitChar(n % 10)]
  }

  /** The value of a string of decimal digits, most significant first. */
  function ParseDigits(s: string): nat
    requires AllDigits(s)
  {
    if |s| == 0 then 0 else 10 * ParseDigits(s[..|s| - 1]) + DigitValue(s[|s| - 1])
  }

  /** Reading the digits back yields the number that was written. */
  lemma {:induction false} NatToStringRoundTrip(n: nat)
    ensures ParseDigits(NatToString(n)) == n
  {
    var s := NatToString(n);
    if n < 10 {
      DigitValueOfDigitChar(n);
    } else {
      NatToStringRoundTrip(n / 10);
      assert s[..|s| - 1] == NatToString(n / 10);
      DigitValueOfDigitChar(n % 10);
    }
  }

  /** `Number.prototype.toString()` on an integer value. */
  function IntToString(i: int): (s: string)
    ensures 0 < |s|
    ensures s[0] == '-' <==> i < 0
    ensures i < 0 ==> 1 < |s| && AllDigits(s[1..]) && s[1] != '0'
    ensures i >= 0 ==> AllDigits(s) && (1 < |s| ==> s[0] != '0')
  {
    if i < 0 then "-" + NatToString(-i) else NatToString(i)
  }

  /** `parseInt(s, 10)` restricted to what `IntToString` produces. */
  function ParseInt(s: string): int
  {
    if 0 < |s| && s[0] == '-' && AllDigits(s[1..]) then -(ParseDigits(s[1..]) as int)
    else if AllDigits(s) then ParseDigits(s)
    else 0
  }

  /** Formatting an integer and parsing it back is the identity. */
  lemma IntToStringRoundTrip(i: int)
    ensures ParseInt(IntToString(i)) == i
  {
    if i < 0 {
      var d := NatToString(-i);
      NatToStringRoundTrip(-i);
      ParseNegative(d, -i);
    } else {
      var d := NatToString(i);
      NatToStringRoundTrip(i);
      ParseUnsigned(d, i);
    }
  }

  lemma ParseNegative(d: string, n: nat)
    requires AllDigits(d) && ParseDigits(d) == n
    ensures ParseInt("-" + d) == -(n as int)
  {
    assert ("-" + d)[1..] == d;
  }

  lemma ParseUnsigned(d: string, n: nat)
    requires 0 < |d| && AllDigits(d) && ParseDigits(d) == n
    ensures ParseInt(d) == n
  {
    assert IsDigit(d[0]);
  }
}
