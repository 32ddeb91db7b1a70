/** Decimal texts of integers, as Python's `str` writes them and `int` reads them back. */
module Decimal {

  predicate IsDigit(c: char) {
    '0' <= c <= '9'
  }

  predicate AllDigits(s: string) {
    forall i :: 0 <= i < |s| ==> IsDigit(s[i])
  }

  function DigitChar(d: nat): (c: char)
    requires d < 10
    ensures IsDigit(c)
  {
    (d as char) + '0'
  }

  function DigitValue(c: char): (d: nat)
    requires IsDigit(c)
    ensures d < 10
  {
    (c - '0') as nat
  }

  function ShowNat(n: nat): (s: string)
    ensures s != "" && AllDigits(s)
  {
    if n < 10 then [DigitChar(n)] else ShowNat(n / 10) + [DigitChar(n % 10)]
  }

  function ParseNat(s: string): nat
    requires AllDigits(s)
  {
    if s == "" then 0 else 10 * ParseNat(s[..|s| - 1]) + DigitValue(s[|s| - 1])
  }

  function Show(n: int): string {
    if n < 0 then "-" + ShowNat(-n) else ShowNat(n)
  }

  lemma {:induction false} ParseShow(n: nat)
    ensures ParseNat(ShowNat(n)) == n
  {
    if n >= 10 {
      ParseShow(n / 10);
      assert ShowNat(n)[..|ShowNat(n)| - 1] == ShowNat(n / 10);
    }
  }

  lemma ShowNatInjective(m: nat, n: nat)
    requires ShowNat(m) == ShowNat(n)
    ensures m == n
  {
    ParseShow(m);
    ParseShow(n);
  }

  lemma ShowInjective(m: int, n: int)
    requires Show(m) == Show(n)
    ensures m == n
  {
    if m < 0 && n < 0 {
      assert Show(m)[1..] == ShowNat(-m) && Show(n)[1..] == ShowNat(-n);
      ShowNatInjective(-m, -n);
    } else if m >= 0 && n >= 0 {
      ShowNatInjective(m, n);
    } else {
      var k := if m < 0 then n else m;
      assert ShowNat(k)[0] == '-';
    }
  }
}
