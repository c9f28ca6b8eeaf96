/** Decimal rendering of a non-negative integer, as `str.format` writes a window id. */
module Decimal {

  predicate IsDigits(s: string)
  {
    forall i :: 0 <= i < |s| ==> '0' <= s[i] <= '9'
  }

  function DigitChar(d: nat): (c: char)
    requires d < 10
    ensures '0' <= c <= '9' && c as int - '0' as int == d
  {
    ('0' as int + d) as char
  }

  /** The shortest decimal numeral of `n`: at least one digit and no leading zero except for `0` itself. */
  function NatToDecimal(n: nat): (s: string)
    ensures |s| >= 1 && IsDigits(s)
    ensures s[0] == '0' <==> n == 0
    ensures s[0] == '0' ==> |s| == 1
    decreases n
  {
    if n < 10 then [DigitChar(n)] else NatToDecimal(n / 10) + [DigitChar(n % 10)]
  }

  /** The value a numeral denotes, read most significant digit first. */
  function DecimalValue(s: string): nat
    requires IsDigits(s)
    decreases |s|
  {
    if |s| == 0 then 0 else 10 * DecimalValue(s[..|s| - 1]) + (s[|s| - 1] as int - '0' as int)
  }

  /** Reading back the numeral of `n` gives `n`. */
  lemma {:induction false} DecimalRoundTrip(n: nat)
    ensures DecimalValue(NatToDecimal(n)) == n
    decreases n
  {
    if n >= 10 {
      var s := NatToDecimal(n);
      var prefix := NatToDecimal(n / 10);
      assert s[..|s| - 1] == prefix;
      DecimalRoundTrip(n / 10);
    }
  }

  /** Different ids never share a numeral. */
  lemma DecimalInjective(m: nat, n: nat)
    requires NatToDecimal(m) == NatToDecimal(n)
    ensures m == n
  {
    DecimalRoundTrip(m);
    DecimalRoundTrip(n);
  }
}
