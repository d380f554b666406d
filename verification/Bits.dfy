/** Powers of two and bitwise "and" on natural numbers. */
module Bits {
  import opened Slots

  function Pow2(k: nat): (p: nat)
    ensures p >= 1
  {
    if k == 0 then 1 else 2 * Pow2(k - 1)
  }

  function And(a: nat, b: nat): (r: nat)
    ensures r <= b
  {
    if a == 0 || b == 0 then 0 else 2 * And(a / 2, b / 2) + (a % 2) * (b % 2)
  }

  lemma {:induction false} Pow2Add(j: nat, k: nat)
    ensures Pow2(j + k) == Pow2(j) * Pow2(k)
  {
    if j > 0 {
      Pow2Add(j - 1, k);
      MulAssociates(2, Pow2(j - 1), Pow2(k));
    }
  }

  lemma MulAssociates(a: int, b: int, c: int)
    ensures (a * b) * c == a * (b * c)
  {
  }

  lemma {:induction false} Pow2Monotone(j: nat, k: nat)
    requires j <= k
    ensures Pow2(j) <= Pow2(k)
    decreases k
  {
    if j < k { Pow2Monotone(j, k - 1); }
  }

  /** Masking with N - 1 is the remainder by N when N is a power of two. */
  lemma {:induction false} MaskIsSlot(a: nat, k: nat)
    ensures And(a, Pow2(k) - 1) == Slot(a, Pow2(k))
  {
    if k == 0 {
      SlotIsRemainder(a, 1);
    } else {
      var h := Pow2(k - 1);
      MaskIsSlot(a / 2, k - 1);
      AndOdd(a, h - 1);
      SlotHalves(a, h);
    }
  }

  lemma AndOdd(a: nat, m: nat)
    ensures And(a, 2 * m + 1) == 2 * And(a / 2, m) + a % 2
  {
    assert (2 * m + 1) / 2 == m && (2 * m + 1) % 2 == 1;
  }

  lemma {:induction false} SlotHalves(a: nat, h: nat)
    requires h >= 1
    ensures Slot(a, 2 * h) == 2 * Slot(a / 2, h) + a % 2
    decreases a
  {
    if a >= 2 * h {
      SlotHalves(a - 2 * h, h);
      assert (a - 2 * h) / 2 == a / 2 - h && (a - 2 * h) % 2 == a % 2;
    }
  }

  /** The size test of the queue's constructor accepts exactly the powers of two from 2 up. */
  predicate AcceptedSize(n: nat) {
    n >= 2 && And(n, n - 1) == 0
  }

  lemma AcceptedSizes(n: nat)
    ensures AcceptedSize(n) <==> exists k: nat :: k >= 1 && n == Pow2(k)
  {
    if AcceptedSize(n) {
      var k := ZeroAndIsPower(n);
    }
    forall k: nat | k >= 1 && n == Pow2(k) ensures AcceptedSize(n) {
      MaskIsSlot(n, k);
      assert Slot(n, n) == Slot(0, n);
    }
  }

  lemma {:induction false} ZeroAndIsPower(n: nat) returns (k: nat)
    requires n >= 1 && And(n, n - 1) == 0
    ensures n == Pow2(k) && (n >= 2 ==> k >= 1)
  {
    if n == 1 {
      k := 0;
    } else {
      if n % 2 == 1 {
        assert (n - 1) / 2 == n / 2;
        AndSelf(n / 2);
      }
      assert (n - 1) / 2 == n / 2 - 1;
      k := ZeroAndIsPower(n / 2);
      k := k + 1;
    }
  }

  lemma {:induction false} AndSelf(n: nat)
    ensures And(n, n) == n
  {
    if n > 0 { AndSelf(n / 2); }
  }
}
