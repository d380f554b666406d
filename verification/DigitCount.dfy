/** Counting decimal digits: the bit-length multiply-and-shift form, the divide-by-10000 loop,
    and the true count agree. */
module DigitCount {
  import opened Bits
  import opened Numerals

  const POWERS_OF_10_32: seq<nat> := [
    0, 10, 100, 1000, 10000, 100000, 1000000, 10000000, 100000000, 1000000000
  ]

  const POWERS_OF_10_64: seq<nat> := [
    0, 10, 100, 1000, 10000, 100000, 1000000, 10000000, 100000000, 1000000000,
    10000000000, 100000000000, 1000000000000, 10000000000000, 100000000000000,
    1000000000000000, 10000000000000000, 100000000000000000, 1000000000000000000,
    10000000000000000000
  ]

  function BitLength(n: nat): nat {
    if n == 0 then 0 else 1 + BitLength(n / 2)
  }

  /** n | 1 */
  function OrOne(n: nat): nat {
    if n % 2 == 0 then n + 1 else n
  }

  /** width - count-leading-zeros(n | 1), scaled by 1233 / 4096. */
  function Estimate(n: nat): nat {
    BitLength(OrOne(n)) * 1233 / 4096
  }

  lemma {:induction false} BitLengthRange(n: nat)
    requires n >= 1
    ensures BitLength(n) >= 1 && Pow2(BitLength(n) - 1) <= n < Pow2(BitLength(n))
  {
    if n >= 2 { BitLengthRange(n / 2); }
  }

  lemma BitLengthAtMost(n: nat, k: nat)
    requires 1 <= n < Pow2(k)
    ensures BitLength(n) <= k
  {
    BitLengthRange(n);
    if BitLength(n) > k { Pow2Monotone(k, BitLength(n) - 1); }
  }

  /** The largest bit length whose estimate is t. */
  function LastLength(t: nat): nat {
    if t < 6 then [3, 6, 9, 13, 16, 19][t]
    else if t < 13 then [23, 26, 29, 33, 36, 39, 43][t - 6]
    else if t < 19 then [46, 49, 53, 56, 59, 63][t - 13]
    else 64
  }

  lemma LengthsOfEstimate(b: nat)
    requires 1 <= b <= 64
    ensures var t := b * 1233 / 4096;
      t < 20 && b <= LastLength(t) && (t >= 1 ==> LastLength(t - 1) < b)
  {
  }

  /** Ten to the t and two to the k, by value. */
  predicate Powers(t: nat, ten: nat, k: nat, two: nat) {
    Pow10(t) == ten && Pow2(k) == two
  }

  lemma NextPowers(t: nat, ten: nat, k: nat, two: nat, d: nat)
    requires Powers(t, ten, k, two) && (d == 1 || d == 3 || d == 4)
    ensures Powers(t + 1, 10 * ten, k + d, if d == 1 then 2 * two else if d == 3 then 8 * two else 16 * two)
  {
    assert Pow2(k + 1) == 2 * two;
    assert Pow2(k + 2) == 4 * two;
    assert Pow2(k + 3) == 8 * two;
    assert Pow2(k + 4) == 16 * two;
  }

  // The numbers below are spelled out from a variable zero, which keeps the verifier from
  // evaluating each power on its own.

  lemma PowersLow(zero: nat)
    requires zero == 0
    ensures Powers(zero + 0, 1, zero + 3, 8)
    ensures Powers(zero + 1, 10, zero + 6, 64)
    ensures Powers(zero + 2, 100, zero + 9, 512)
    ensures Powers(zero + 3, 1000, zero + 13, 8192)
    ensures Powers(zero + 4, 10000, zero + 16, 65536)
    ensures Powers(zero + 5, 100000, zero + 19, 524288)
    ensures Powers(zero + 6, 1000000, zero + 23, 8388608)
  {
    assert Pow2(zero + 1) == 2;
    assert Pow2(zero + 2) == 4;
    assert Pow2(zero + 3) == 8;
    NextPowers(zero + 0, 1, zero + 3, 8, 3);
    NextPowers(zero + 1, 10, zero + 6, 64, 3);
    NextPowers(zero + 2, 100, zero + 9, 512, 4);
    NextPowers(zero + 3, 1000, zero + 13, 8192, 3);
    NextPowers(zero + 4, 10000, zero + 16, 65536, 3);
    NextPowers(zero + 5, 100000, zero + 19, 524288, 4);
  }

  lemma PowersMiddle(zero: nat)
    requires zero == 0
    ensures Powers(zero + 7, 10000000, zero + 26, 67108864)
    ensures Powers(zero + 8, 100000000, zero + 29, 536870912)
    ensures Powers(zero + 9, 1000000000, zero + 33, 8589934592)
    ensures Powers(zero + 10, 10000000000, zero + 36, 68719476736)
    ensures Powers(zero + 11, 100000000000, zero + 39, 549755813888)
    ensures Powers(zero + 12, 1000000000000, zero + 43, 8796093022208)
    ensures Powers(zero + 13, 10000000000000, zero + 46, 70368744177664)
  {
    PowersLow(zero);
    NextPowers(zero + 6, 1000000, zero + 23, 8388608, 3);
    NextPowers(zero + 7, 10000000, zero + 26, 67108864, 3);
    NextPowers(zero + 8, 100000000, zero + 29, 536870912, 4);
    NextPowers(zero + 9, 1000000000, zero + 33, 8589934592, 3);
    NextPowers(zero + 10, 10000000000, zero + 36, 68719476736, 3);
    NextPowers(zero + 11, 100000000000, zero + 39, 549755813888, 4);
    NextPowers(zero + 12, 1000000000000, zero + 43, 8796093022208, 3);
  }

  lemma PowersHigh(zero: nat)
    requires zero == 0
    ensures Powers(zero + 14, 100000000000000, zero + 49, 562949953421312)
    ensures Powers(zero + 15, 1000000000000000, zero + 53, 9007199254740992)
    ensures Powers(zero + 16, 10000000000000000, zero + 56, 72057594037927936)
    ensures Powers(zero + 17, 100000000000000000, zero + 59, 576460752303423488)
    ensures Powers(zero + 18, 1000000000000000000, zero + 63, 9223372036854775808)
    ensures Powers(zero + 19, 10000000000000000000, zero + 64, 18446744073709551616)
  {
    PowersMiddle(zero);
    NextPowers(zero + 13, 10000000000000, zero + 46, 70368744177664, 3);
    NextPowers(zero + 14, 100000000000000, zero + 49, 562949953421312, 4);
    NextPowers(zero + 15, 1000000000000000, zero + 53, 9007199254740992, 3);
    NextPowers(zero + 16, 10000000000000000, zero + 56, 72057594037927936, 3);
    NextPowers(zero + 17, 100000000000000000, zero + 59, 576460752303423488, 4);
    NextPowers(zero + 18, 1000000000000000000, zero + 63, 9223372036854775808, 1);
  }

  lemma BracketsLow(t: nat)
    requires 0 <= t < 7
    ensures Pow10(t) <= Pow2(LastLength(t)) <= 10 * Pow10(t)
  {
    PowersLow(t - t);
  }

  lemma BracketsMiddle(t: nat)
    requires 7 <= t < 14
    ensures Pow10(t) <= Pow2(LastLength(t)) <= 10 * Pow10(t)
  {
    PowersMiddle(t - t);
  }

  lemma BracketsHigh(t: nat)
    requires 14 <= t < 20
    ensures Pow10(t) <= Pow2(LastLength(t)) <= 10 * Pow10(t)
  {
    PowersHigh(t - t);
  }

  lemma Brackets(t: nat)
    requires t < 20
    ensures Pow10(t) <= Pow2(LastLength(t)) <= 10 * Pow10(t)
  {
    if t < 7 { BracketsLow(t); } else if t < 14 { BracketsMiddle(t); } else { BracketsHigh(t); }
  }

  lemma TableEntry(t: nat)
    requires 1 <= t < 20
    ensures POWERS_OF_10_64[t] == Pow10(t) && (t < 10 ==> POWERS_OF_10_32[t] == Pow10(t))
  {
    var zero := t - t;
    if t < 7 { PowersLow(zero); } else if t < 14 { PowersMiddle(zero); } else { PowersHigh(zero); }
  }

  const TWO_64: nat := 0x1_0000_0000_0000_0000
  const TWO_32: nat := 0x1_0000_0000

  /** 64-bit numbers have bit length at most 64, 32-bit numbers at most 32. */
  lemma WordLengths(m: nat, zero: nat)
    requires 1 <= m < TWO_64 && zero == 0
    ensures BitLength(m) <= 64 && (m < TWO_32 ==> BitLength(m) <= 32)
  {
    PowersHigh(zero);
    BitLengthAtMost(m, zero + 64);
    if m < TWO_32 {
      PowersMiddle(zero);
      assert Pow2(zero + 33) == 2 * Pow2(zero + 32);
      BitLengthAtMost(m, zero + 32);
    }
  }

  lemma UpperEstimate(m: nat, b: nat, t: nat)
    requires t < 20 && 1 <= b <= LastLength(t) && m < Pow2(b)
    ensures m < 10 * Pow10(t)
  {
    Brackets(t);
    Pow2Monotone(b, LastLength(t));
  }

  lemma LowerEstimate(m: nat, b: nat, t: nat)
    requires 1 <= t < 20 && LastLength(t - 1) < b && Pow2(b - 1) <= m
    ensures Pow10(t - 1) <= m
  {
    Brackets(t - 1);
    Pow2Monotone(LastLength(t - 1), b - 1);
  }

  /** Clearing the bit that n | 1 set does not fall below an even power of ten. */
  lemma WithoutOne(n: nat, t: nat)
    requires t >= 1 && Pow10(t - 1) <= OrOne(n) && (t == 1 ==> n >= 1)
    ensures Pow10(t) <= 10 * n
  {
    EvenPowers(t);
  }

  /** The estimate is the digit count or one less. */
  lemma EstimateNear(n: nat)
    requires n < TWO_64
    ensures var t := Estimate(n);
      && t < 20 && n < 10 * Pow10(t) && (t >= 1 ==> Pow10(t) <= 10 * n)
      && (n < TWO_32 ==> t < 10)
  {
    var m := OrOne(n);
    BitLengthRange(m);
    WordLengths(m, n - n);
    var b, t := BitLength(m), Estimate(n);
    LengthsOfEstimate(b);
    UpperEstimate(m, b, t);
    assert BitLength(1) == 1;
    if t >= 1 {
      LowerEstimate(m, b, t);
      WithoutOne(n, t);
    }
  }

  lemma EvenPowers(t: nat)
    requires t >= 1
    ensures Pow10(t) == 10 * Pow10(t - 1) && (t >= 2 ==> Pow10(t - 1) % 2 == 0)
  {
    if t >= 2 { assert Pow10(t - 1) == 10 * Pow10(t - 2); }
  }

  /** The table compare settles which. */
  lemma CountFromEstimate(n: nat, t: nat)
    requires n < 10 * Pow10(t) && (t >= 1 ==> 10 * n >= Pow10(t))
    ensures NumDigits(n, 10) == if t >= 1 && n < Pow10(t) then t else t + 1
  {
    if t >= 1 && n < Pow10(t) {
      assert Pow10(t) == 10 * Pow10(t - 1);
      DigitsFromRange(n, t);
    } else {
      DigitsFromRange(n, t + 1);
    }
  }

  /** The builtin form for 64-bit numbers: exact, and inside its table. */
  function CountDigits64(n: nat): (count: nat)
    requires n < TWO_64
    ensures count == NumDigits(n, 10)
  {
    EstimateNear(n);
    CountFromEstimate(n, Estimate(n));
    var t := Estimate(n);
    assert t >= 1 ==> POWERS_OF_10_64[t] == Pow10(t) by { if t >= 1 { TableEntry(t); } }
    t - (if n < POWERS_OF_10_64[t] then 1 else 0) + 1
  }

  /** The builtin form for 32-bit numbers. */
  function CountDigits32(n: nat): (count: nat)
    requires n < TWO_32
    ensures count == NumDigits(n, 10)
  {
    EstimateNear(n);
    CountFromEstimate(n, Estimate(n));
    var t := Estimate(n);
    assert t >= 1 ==> POWERS_OF_10_32[t] == Pow10(t) by { if t >= 1 { TableEntry(t); } }
    t - (if n < POWERS_OF_10_32[t] then 1 else 0) + 1
  }

  lemma FourDigitsMore(n: nat)
    requires n >= 10000
    ensures NumDigits(n, 10) == NumDigits(n / 10000, 10) + 4
  {
    assert NumDigits(n, 10) == 1 + NumDigits(n / 10, 10);
    assert NumDigits(n / 10, 10) == 1 + NumDigits(n / 10 / 10, 10);
    assert NumDigits(n / 10 / 10, 10) == 1 + NumDigits(n / 10 / 10 / 10, 10);
    assert n / 10 / 10 / 10 / 10 == n / 10000;
  }

  lemma FewDigits(n: nat)
    requires n < 10000
    ensures NumDigits(n, 10) == if n < 10 then 1 else if n < 100 then 2 else if n < 1000 then 3 else 4
  {
    assert n >= 10 ==> NumDigits(n, 10) == 1 + NumDigits(n / 10, 10);
    assert n >= 100 ==> NumDigits(n / 10, 10) == 1 + NumDigits(n / 10 / 10, 10);
  }

  /** The portable form: four digits per division. */
  method CountDigitsByDivision(number: nat) returns (count: nat)
    ensures count == NumDigits(number, 10)
  {
    var n := number;
    count := 1;
    while true
      invariant count + NumDigits(n, 10) == NumDigits(number, 10) + 1
      decreases n
    {
      if n < 10000 { FewDigits(n); }
      if n < 10 { return count; }
      if n < 100 { return count + 1; }
      if n < 1000 { return count + 2; }
      if n < 10000 { return count + 3; }
      FourDigitsMore(n);
      n := n / 10000;
      count := count + 4;
    }
  }
}
