/**
 * Decimal rendering of non-negative integers, as Python's `str(n)` and `'{}'.format(n)`
 * produce it, and the two-digit padding the server applies to hours and minutes.
 */
module Decimal {

  predicate IsDigit(c: char)
  {
    '0' <= c <= '9'
  }

  predicate AllDigits(s: string)
  {
    forall i | 0 <= i < |s| :: IsDigit(s[i])
  }

  /** The character of a single decimal digit. */
  function DigitChar(d: int): (c: char)
    requires 0 <= d < 10
    ensures IsDigit(c) && c as int - '0' as int == d
  {
    ('0' as int + d) as char
  }

  /** The number a string of decimal digits denotes (most significant digit first). */
  function Value(s: string): nat
    requires AllDigits(s)
  {
    if s == [] then 0
    else Value(s[..|s| - 1]) * 10 + (s[|s| - 1] as int - '0' as int)
  }

  /** `str(n)`: the shortest digit string denoting `n`, with no leading zero. */
  function Render(n: nat): (s: string)
    ensures |s| >= 1 && AllDigits(s)
    ensures Value(s) == n
    ensures s[0] == '0' ==> n == 0
  {
    if n < 10 then [DigitChar(n)]
    else
      var prefix := Render(n / 10);
      var s := prefix + [DigitChar(n % 10)];
      assert s[..|s| - 1] == prefix;
      s
  }

  function Pow10(k: nat): (p: nat)
    ensures p >= 1
  {
    if k == 0 then 1 else 10 * Pow10(k - 1)
  }

  /** A number below 10^k takes at most k digits. */
  lemma {:induction false} RenderLength(n: nat, k: nat)
    requires 1 <= k && n < Pow10(k)
    ensures |Render(n)| <= k
  {
    if n >= 10 {
      RenderLength(n / 10, k - 1);
    }
  }

  /**
   * The server's padding of an hour or minute: `'0' + str(n)` when `str(n)` has one
   * character, otherwise `n` formatted unchanged.
   */
  function Pad2(n: nat): string
  {
    var s := Render(n);
    if |s| == 1 then "0" + s else s
  }

  /** Below 100 the padded form is exactly the tens digit followed by the units digit. */
  lemma Pad2Digits(n: nat)
    requires n < 100
    ensures Pad2(n) == [DigitChar(n / 10), DigitChar(n % 10)]
    ensures Value(Pad2(n)) == n
  {
    if n >= 10 {
      assert Render(n / 10) == [DigitChar(n / 10)];
    }
  }
}
