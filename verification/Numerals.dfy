/** Canonical numerals and how they are read back. */
module Numerals {
  function DigitChar(d: nat, upper: bool): (c: char)
    requires d < 16
  {
    if d < 10 then ('0' as int + d) as char
    else if upper then ('A' as int + d - 10) as char
    else ('a' as int + d - 10) as char
  }

  /** The value of a digit character. */
  function DigitValue(c: char): (d: nat)
    ensures d < 16
  {
    if '0' <= c <= '9' then (c - '0') as nat
    else if 'a' <= c <= 'f' then (c - 'a') as nat + 10
    else if 'A' <= c <= 'F' then (c - 'A') as nat + 10
    else 0
  }

  lemma DigitValueOf(d: nat, upper: bool)
    requires d < 16
    ensures DigitValue(DigitChar(d, upper)) == d
    ensures d < 10 ==> DigitChar(d, upper) == ('0' as int + d) as char && '0' <= DigitChar(d, upper) <= '9'
  {
  }

  lemma {:induction false} AtLeastTwice(q: nat, base: nat)
    requires base >= 2
    ensures q * base >= q + q
  {
    if base > 2 {
      AtLeastTwice(q, base - 1);
      assert q * base == q * (base - 1) + q;
    }
  }

  lemma DivMod(n: nat, base: nat)
    requires base > 0
    ensures n / base * base + n % base == n
  {
  }

  lemma QuotientSmaller(n: nat, base: nat)
    requires base >= 2 && n >= base
    ensures n / base < n
  {
    DivMod(n, base);
    AtLeastTwice(n / base, base);
  }

  /** The numeral of n: no leading zero, "0" for zero. */
  function Numeral(n: nat, base: nat, upper: bool): (s: string)
    requires 2 <= base <= 16
    ensures |s| == NumDigits(n, base)
  {
    if n < base then [DigitChar(n, upper)]
    else
      QuotientSmaller(n, base);
      Numeral(n / base, base, upper) + [DigitChar(n % base, upper)]
  }

  function NumDigits(n: nat, base: nat): (d: nat)
    requires base >= 2
    ensures d >= 1
  {
    if n < base then 1
    else
      QuotientSmaller(n, base);
      1 + NumDigits(n / base, base)
  }

  /** The number a digit string denotes, leading zeros allowed. */
  function Value(s: string, base: nat): nat {
    if s == [] then 0 else Value(s[..|s| - 1], base) * base + DigitValue(s[|s| - 1])
  }

  lemma ValueAppend(s: string, c: char, base: nat)
    ensures Value(s + [c], base) == Value(s, base) * base + DigitValue(c)
  {
    assert (s + [c])[..|s|] == s;
  }

  lemma {:induction false} NumeralReadsBack(n: nat, base: nat, upper: bool)
    requires 2 <= base <= 16
    ensures Value(Numeral(n, base, upper), base) == n
  {
    if n < base {
      DigitValueOf(n, upper);
      assert [DigitChar(n, upper)][..0] == [];
    } else {
      hide Value, DigitChar, DigitValue;
      NumeralReadsBack(n / base, base, upper);
      DigitValueOf(n % base, upper);
      ValueAppend(Numeral(n / base, base, upper), DigitChar(n % base, upper), base);
      DivMod(n, base);
    }
  }

  lemma NumeralInjective(m: nat, n: nat, base: nat, upper: bool)
    requires 2 <= base <= 16 && Numeral(m, base, upper) == Numeral(n, base, upper)
    ensures m == n
  {
    NumeralReadsBack(m, base, upper);
    NumeralReadsBack(n, base, upper);
  }

  predicate IsDigit(c: char) {
    '0' <= c <= '9'
  }

  function Decimal(n: nat): (s: string)
    ensures |s| == NumDigits(n, 10)
  {
    Numeral(n, 10, false)
  }

  /** Signed decimal. */
  function Integer(n: int): string {
    if n < 0 then "-" + Decimal(-n) else Decimal(n)
  }

  predicate AllDigits(s: string) {
    forall i :: 0 <= i < |s| ==> IsDigit(s[i])
  }

  lemma {:induction false} DecimalDigits(n: nat)
    ensures AllDigits(Decimal(n))
  {
    DigitValueOf(n % 10, false);
    if n >= 10 {
      DecimalDigits(n / 10);
      assert Decimal(n) == Decimal(n / 10) + [DigitChar(n % 10, false)];
    }
  }

  /** The last two digits at once. */
  lemma DecimalByTwo(n: nat)
    requires n >= 100
    ensures Decimal(n) == Decimal(n / 100) + [DigitChar(n % 100 / 10, false), DigitChar(n % 100 % 10, false)]
    ensures NumDigits(n, 10) == NumDigits(n / 100, 10) + 2
  {
    assert n / 10 / 10 == n / 100 && n / 10 % 10 == n % 100 / 10 && n % 10 == n % 100 % 10;
    assert Decimal(n) == Decimal(n / 10) + [DigitChar(n % 10, false)];
    assert Decimal(n / 10) == Decimal(n / 100) + [DigitChar(n / 10 % 10, false)];
  }

  function Pow10(k: nat): (p: nat)
    ensures p >= 1
  {
    if k == 0 then 1 else 10 * Pow10(k - 1)
  }

  /** The digit count of n is d exactly when n lies in [10^(d-1), 10^d). */
  lemma {:induction false} DigitRange(n: nat)
    ensures n >= 1 ==> Pow10(NumDigits(n, 10) - 1) <= n
    ensures n < Pow10(NumDigits(n, 10))
  {
    if n >= 10 { DigitRange(n / 10); }
  }

  lemma {:induction false} Pow10Monotone(j: nat, k: nat)
    requires j <= k
    ensures Pow10(j) <= Pow10(k)
    decreases k
  {
    if j < k { Pow10Monotone(j, k - 1); }
  }

  lemma DigitsFromRange(n: nat, d: nat)
    requires d >= 1 && n < Pow10(d) && (d == 1 || Pow10(d - 1) <= n)
    ensures NumDigits(n, 10) == d
  {
    DigitRange(n);
    var e := NumDigits(n, 10);
    if e > d {
      Pow10Monotone(d, e - 1);
    } else if e < d {
      Pow10Monotone(e, d - 1);
    }
  }
}
