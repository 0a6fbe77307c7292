/**
 * Decimal conversion as the source uses it: Go's `strconv.Atoi` on a 64-bit
 * platform (an optional sign, at least one ASCII digit, no underscores, and a
 * value that fits a signed 64-bit integer), and its inverse on naturals.
 */
module Decimal {
  import opened Results
  import opened Chars

  const MaxInt64: int := 0x7fff_ffff_ffff_ffff
  const MinInt64: int := -0x8000_0000_0000_0000

  predicate AllDigits(s: string) {
    forall k :: 0 <= k < |s| ==> IsDigit(s[k])
  }

  function DigitValue(c: char): int {
    c as int - '0' as int
  }

  function DigitChar(d: nat): (c: char)
    requires d < 10
    ensures IsDigit(c) && DigitValue(c) == d
  {
    ('0' as int + d) as char
  }

  /** The value of a digit string read most-significant digit first. */
  function DigitsValue(s: string): (v: int)
    ensures AllDigits(s) ==> v >= 0
  {
    if s == [] then 0 else DigitsValue(s[..|s| - 1]) * 10 + DigitValue(s[|s| - 1])
  }

  /** `strconv.Atoi`: None stands for the returned error. */
  function Atoi(s: string): (r: Option<int>)
    ensures r.Some? ==> MinInt64 <= r.value <= MaxInt64
    ensures r.Some? ==> |s| > 0 && forall k :: 1 <= k < |s| ==> IsDigit(s[k])
    ensures |s| > 0 && !IsDigit(s[0]) && s[0] != '+' && s[0] != '-' ==> r.None?
  {
    if |s| > 0 && (s[0] == '+' || s[0] == '-') then
      var digits := s[1..];
      if |digits| > 0 && AllDigits(digits) then
        var v: int := if s[0] == '-' then 0 - DigitsValue(digits) as int else DigitsValue(digits);
        if MinInt64 <= v <= MaxInt64 then Some(v) else None
      else None
    else if |s| > 0 && AllDigits(s) && DigitsValue(s) <= MaxInt64 then Some(DigitsValue(s))
    else None
  }

  /** The shortest decimal spelling of a natural number. */
  function NatToString(n: nat): (s: string)
    ensures |s| > 0 && AllDigits(s)
    decreases n
  {
    if n < 10 then [DigitChar(n)] else NatToString(n / 10) + [DigitChar(n % 10)]
  }

  lemma {:induction false} NatToStringValue(n: nat)
    ensures DigitsValue(NatToString(n)) == n
    decreases n
  {
    var s := NatToString(n);
    if n >= 10 {
      NatToStringValue(n / 10);
      assert s[..|s| - 1] == NatToString(n / 10);
    } else {
      assert s[..|s| - 1] == [];
    }
  }

  /** Atoi reads back what NatToString writes, for every value an int holds. */
  lemma AtoiInvertsNatToString(n: nat)
    requires n <= MaxInt64
    ensures Atoi(NatToString(n)) == Some(n)
  {
    NatToStringValue(n);
  }

  /** strconv.Itoa: a minus sign before the digits of a negative number. */
  function IntToString(v: int): (s: string)
    ensures |s| > 0 && (IsDigit(s[0]) <==> v >= 0)
    ensures v >= 0 ==> AllDigits(s)
  {
    if v < 0 then "-" + NatToString(-v) else NatToString(v)
  }

  /** Atoi reads back what Itoa writes, for every value an int64 holds. */
  lemma AtoiInvertsIntToString(v: int)
    requires MinInt64 <= v <= MaxInt64
    ensures Atoi(IntToString(v)) == Some(v)
  {
    if v < 0 {
      NatToStringValue(-v);
      assert IntToString(v)[1..] == NatToString(-v);
    } else {
      AtoiInvertsNatToString(v);
    }
  }
}
