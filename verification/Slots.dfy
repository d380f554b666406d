/** Cell indexing of the ring: ticket numbers modulo the capacity.  The remainder is defined by
    repeated subtraction, so proofs about the ring use the few laws below and never meet
    division with a variable divisor. */
module Slots {
  function Slot(p: nat, n: nat): (c: nat)
    requires n > 0
    ensures c < n
    decreases p
  {
    if p < n then p else Slot(p - n, n)
  }

  lemma {:induction false} SlotIsRemainder(p: nat, n: nat)
    requires n > 0
    ensures Slot(p, n) == p % n
    decreases p
  {
    if p >= n {
      SlotIsRemainder(p - n, n);
      var q, r := (p - n) / n, (p - n) % n;
      assert p == n * (q + 1) + r by { assert n * (q + 1) == n * q + n; }
      RemainderUnique(p, n, q + 1, r);
    }
  }

  lemma RemainderUnique(p: int, n: int, q: int, r: int)
    requires n > 0 && 0 <= r < n && p == n * q + r
    ensures p % n == r
  {
    var q', r' := p / n, p % n;
    QuotientUnique(n, q, r, q', r');
  }

  lemma QuotientUnique(n: int, q: int, r: int, q': int, r': int)
    requires 0 <= r < n && 0 <= r' < n && n * q + r == n * q' + r'
    ensures r == r'
  {
    var d := q - q';
    assert n * d == n * q - n * q';
    MultipleGap(n, d);
  }

  lemma MultipleGap(n: int, d: int)
    requires n > 0
    ensures d >= 1 ==> n * d >= n
    ensures d <= -1 ==> n * d <= -n
  {
    if d >= 1 {
      assert n * (d - 1) >= 0;
    } else if d <= -1 {
      assert n * (-1 - d) >= 0;
    }
  }

  /** Two tickets less than one lap apart that share a cell are the same ticket. */
  lemma {:induction false} SameCellSameTicket(p: nat, q: nat, n: nat)
    requires n > 0 && p <= q < p + n
    requires Slot(p, n) == Slot(q, n)
    ensures p == q
    decreases q
  {
    if p >= n {
      SameCellSameTicket(p - n, q - n, n);
    }
  }

  /** Neighbouring tickets use different cells: a sequence number tells "free" from "full". */
  lemma {:induction false} NextTicketNextCell(p: nat, n: nat)
    requires n >= 2
    ensures Slot(p + 1, n) != Slot(p, n)
  {
    if Slot(p + 1, n) == Slot(p, n) {
      SameCellSameTicket(p, p + 1, n);
    }
  }

  lemma {:induction false} SlotOfLap(p: nat, n: nat, laps: nat)
    requires n > 0
    ensures n * laps >= 0
    ensures Slot(p + n * laps, n) == Slot(p, n)
    decreases laps
  {
    if laps > 0 {
      assert n * laps == n * (laps - 1) + n;
      SlotOfLap(p, n, laps - 1);
    }
  }
}
