/** Decimal numerals: strconv.Itoa, and the part of strconv.ParseInt that reads base 10. */
module Numerals {
  import opened Int64
  import opened Options

  predicate IsDigit(c: char) { '0' <= c <= '9' }

  function Digit(c: char): nat
    requires IsDigit(c)
  {
    c as int - '0' as int
  }

  function DigitChar(d: nat): (c: char)
    requires d < 10
    ensures IsDigit(c) && Digit(c) == d
  {
    '0' + d as char
  }

  /** The digits of a natural number, most significant first. */
  function FormatNat(n: nat): (s: string)
    ensures s != [] && forall i :: 0 <= i < |s| ==> IsDigit(s[i])
  {
    if n < 10 then [DigitChar(n)] else FormatNat(n / 10) + [DigitChar(n % 10)]
  }

  /** strconv.Itoa */
  function Itoa(n: int): string {
    if n < 0 then ['-'] + FormatNat(-n) else FormatNat(n)
  }

  predicate AllDigits(s: string) {
    forall i :: 0 <= i < |s| ==> IsDigit(s[i])
  }

  function Value(s: string): nat
    requires AllDigits(s)
  {
    if s == [] then 0 else 10 * Value(s[..|s| - 1]) + Digit(s[|s| - 1])
  }

  /** strconv.ParseInt(s, 10, 64): an optional sign, at least one digit, nothing else, within int64. */
  function ParseInt(s: string): (r: Option<int>)
    ensures r.Some? ==> -0x8000_0000_0000_0000 <= r.value <= 0x7FFF_FFFF_FFFF_FFFF
  {
    var digits := if s != [] && (s[0] == '+' || s[0] == '-') then s[1..] else s;
    if digits == [] || !AllDigits(digits) then None
    else
      var n: int := if s[0] == '-' then 0 - Value(digits) else Value(digits);
      if -MAX_INT64 - 1 <= n <= MAX_INT64 then Some(n) else None
  }

  lemma {:induction false} ValueOfFormat(n: nat)
    ensures Value(FormatNat(n)) == n
  {
    if n >= 10 {
      ValueOfFormat(n / 10);
      assert FormatNat(n)[..|FormatNat(n)| - 1] == FormatNat(n / 10);
    }
  }

  /** Reading back what was written gives the number again, over the whole range of int64. */
  lemma ParseOfItoa(n: int)
    requires -MAX_INT64 - 1 <= n <= MAX_INT64
    ensures ParseInt(Itoa(n)) == Some(n)
  {
    var m := if n < 0 then -n else n;
    ValueOfFormat(m);
    assert (['-'] + FormatNat(m))[1..] == FormatNat(m);
  }

  /** Numerals are canonical: a sign for negative numbers only, and no leading zero but in 0 itself. */
  lemma {:induction false} DigitsAreCanonical(n: nat)
    ensures n < 10 ==> |FormatNat(n)| == 1
    ensures n > 0 ==> FormatNat(n)[0] != '0'
  {
    if n >= 10 {
      DigitsAreCanonical(n / 10);
      assert FormatNat(n)[0] == FormatNat(n / 10)[0];
    }
  }

  lemma ItoaIsCanonical(n: int)
    ensures Itoa(0) == "0"
    ensures n > 0 ==> AllDigits(Itoa(n)) && Itoa(n)[0] != '0'
    ensures n < 0 ==> Itoa(n) == "-" + Itoa(-n)
  {
    if n != 0 {
      DigitsAreCanonical(if n < 0 then -n else n);
    }
  }

  /** Different numbers are written differently. */
  lemma ItoaInjective(a: int, b: int)
    requires Itoa(a) == Itoa(b)
    ensures a == b
  {
    if a < 0 {
      assert Itoa(a)[0] == '-' && Itoa(a)[1..] == FormatNat(-a);
    } else {
      ValueOfFormat(a);
    }
    if b < 0 {
      assert Itoa(b)[0] == '-' && Itoa(b)[1..] == FormatNat(-b);
      ValueOfFormat(-b);
      ValueOfFormat(-a);
    } else {
      ValueOfFormat(b);
    }
  }
}
