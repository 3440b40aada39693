/**
 * The string operations the Python code relies on: `str()` of an integer
 * (decimal rendering, used by every f-string with a number in it) and the
 * slice `s[:n]`.
 */
module Text {
  import opened Wrappers

  predicate IsDigit(c: char) {
    '0' <= c <= '9'
  }

  function DigitValue(c: char): (d: nat)
    requires IsDigit(c)
    ensures d < 10
  {
    c as int - '0' as int
  }

  function DigitChar(d: nat): (c: char)
    requires d < 10
    ensures IsDigit(c) && DigitValue(c) == d
  {
    ('0' as int + d) as char
  }

  /** Python's `str(n)` for a non-negative integer: decimal, no leading zeros. */
  function NatToDecimal(n: nat): (s: string)
    ensures |s| >= 1
    ensures forall i :: 0 <= i < |s| ==> IsDigit(s[i])
    ensures n >= 10 ==> |s| >= 2
    ensures |s| == 1 || s[0] != '0'
    decreases n
  {
    if n < 10 then [DigitChar(n)] else NatToDecimal(n / 10) + [DigitChar(n % 10)]
  }

  /** Python's `str(n)` for any integer: a minus sign before the digits of a negative one. */
  function IntToDecimal(n: int): (s: string)
    ensures |s| >= 1
    ensures s[0] == '-' <==> n < 0
    ensures forall i :: 0 < i < |s| ==> IsDigit(s[i])
    ensures ':' !in s
  {
    if n < 0 then "-" + NatToDecimal(-n) else NatToDecimal(n)
  }

  /** Reads back a non-empty string of decimal digits; anything else is rejected. */
  function ParseNat(s: string): (r: Option<nat>)
    ensures r.Some? <==> |s| >= 1 && forall i :: 0 <= i < |s| ==> IsDigit(s[i])
    decreases |s|
  {
    if |s| == 0 || !IsDigit(s[|s| - 1]) then None
    else if |s| == 1 then Some(DigitValue(s[0]))
    else match ParseNat(s[..|s| - 1])
      case None => None
      case Some(v) => Some(v * 10 + DigitValue(s[|s| - 1]))
  }

  /** Reads back an optionally signed decimal integer. */
  function ParseInt(s: string): Option<int> {
    if |s| >= 1 && s[0] == '-' then
      match ParseNat(s[1..])
      case None => None
      case Some(v) => Some(0 - v as int)
    else
      match ParseNat(s)
      case None => None
      case Some(v) => var x: int := v; Some(x)
  }

  lemma {:induction false} ParseNatOfDecimal(n: nat)
    ensures ParseNat(NatToDecimal(n)) == Some(n)
    decreases n
  {
    if n >= 10 {
      var s := NatToDecimal(n);
      assert s[..|s| - 1] == NatToDecimal(n / 10);
      ParseNatOfDecimal(n / 10);
    }
  }

  /** Decimal rendering round-trips, so it is injective. */
  lemma ParseIntOfDecimal(n: int)
    ensures ParseInt(IntToDecimal(n)) == Some(n)
  {
    if n < 0 {
      var d := NatToDecimal(-n);
      assert IntToDecimal(n)[0] == '-' && IntToDecimal(n)[1..] == d;
      ParseNatOfDecimal(-n);
    } else {
      var d := NatToDecimal(n);
      assert IntToDecimal(n) == d && IsDigit(d[0]);
      ParseNatOfDecimal(n);
    }
  }

  lemma DecimalInjective(a: int, b: int)
    requires IntToDecimal(a) == IntToDecimal(b)
    ensures a == b
  {
    ParseIntOfDecimal(a);
    ParseIntOfDecimal(b);
  }

  /** Python's slice `s[:n]`: the whole string when it is shorter than `n`. */
  function Prefix(s: string, n: nat): (r: string)
    ensures |r| == if |s| < n then |s| else n
    ensures r <= s
  {
    if |s| <= n then s else s[..n]
  }
}
