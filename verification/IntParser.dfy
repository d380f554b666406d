/** Reading a width, precision or argument index: 32-bit arithmetic with a wrap-around check. */
module IntParser {
  import opened Wrappers
  import opened Numerals

  const WORD_32: nat := 0x1_0000_0000
  const INT_MAX: nat := 0x7FFF_FFFF
  const TOO_BIG: string := "number is too big"

  /** Format strings end with a terminator: reading at the end yields it. */
  function CharAt(s: string, i: nat): char {
    if i < |s| then s[i] else '\0'
  }

  /** The end of the run of digits that starts at i. */
  function DigitEnd(s: string, i: nat): (j: nat)
    requires i <= |s|
    ensures i <= j <= |s| && AllDigits(s[i..j]) && !IsDigit(CharAt(s, j))
    decreases |s| - i
  {
    if i < |s| && IsDigit(s[i]) then
      var j := DigitEnd(s, i + 1);
      assert s[i..j] == [s[i]] + s[i + 1..j];
      j
    else i
  }

  /** The 32-bit accumulation; None when a step wrapped below its predecessor. */
  function Accumulate(s: string, i: nat, value: nat): Option<nat>
    requires i <= |s|
    decreases |s| - i
  {
    if i < |s| && IsDigit(s[i]) then
      var next := (value * 10 + DigitValue(s[i])) % WORD_32;
      if next < value then None else Accumulate(s, i + 1, next)
    else Some(value)
  }

  function ParseInt(s: string, i: nat): Result<(nat, nat), string>
    requires i <= |s|
  {
    match Accumulate(s, i, 0)
    case None => Failure(TOO_BIG)
    case Some(value) => if value > INT_MAX then Failure(TOO_BIG) else Success((value, DigitEnd(s, i)))
  }

  /** parse_nonnegative_int. */
  method ParseNonnegativeInt(s: string, i: nat) returns (r: Result<(nat, nat), string>)
    requires i < |s| && IsDigit(s[i])
    ensures r == ParseInt(s, i)
  {
    var p, value, first := i, 0, true;
    while first || IsDigit(CharAt(s, p))
      invariant i <= p <= |s| && (first ==> p == i)
      invariant Accumulate(s, p, value) == Accumulate(s, i, 0) && DigitEnd(s, p) == DigitEnd(s, i)
      decreases |s| - p
    {
      first := false;
      var newValue := (value * 10 + DigitValue(s[p])) % WORD_32;
      p := p + 1;
      if newValue < value {
        return Failure(TOO_BIG);
      }
      value := newValue;
    }
    if value > INT_MAX {
      return Failure(TOO_BIG);
    }
    return Success((value, p));
  }

  /** No prefix of the numeral drops below the prefix before it, modulo 2^32: what the guard checks. */
  predicate NeverDrops(n: nat) {
    n < 10 || (NeverDrops(n / 10) && n / 10 % WORD_32 <= n % WORD_32)
  }

  lemma NextPrefix(v: nat, d: nat)
    requires d < 10
    ensures (v * 10 + d) / 10 == v && (v % WORD_32 * 10 + d) % WORD_32 == (v * 10 + d) % WORD_32
    ensures NeverDrops(v * 10 + d) <==> NeverDrops(v) && v % WORD_32 <= (v * 10 + d) % WORD_32
  {
    assert v == WORD_32 * (v / WORD_32) + v % WORD_32;
    Congruent(v % WORD_32 * 10 + d, 10 * (v / WORD_32));
  }

  lemma Congruent(r: nat, k: nat)
    ensures (r + WORD_32 * k) % WORD_32 == r % WORD_32
  {
  }

  /** Once a prefix has dropped, no longer numeral makes up for it. */
  lemma {:induction false} DropsForGood(s: string, i: nat, j: nat, e: nat)
    requires i <= j <= e <= |s| && AllDigits(s[j..e]) && !NeverDrops(Value(s[i..j], 10))
    ensures !NeverDrops(Value(s[i..e], 10))
    decreases e
  {
    hide NeverDrops;
    if j < e {
      assert s[j..e - 1] == s[j..e][..e - 1 - j];
      DropsForGood(s, i, j, e - 1);
      assert s[e - 1] == s[j..e][e - 1 - j];
      OneDigitMore(s, i, e - 1);
      NextPrefix(Value(s[i..e - 1], 10), DigitValue(s[e - 1]));
    }
  }

  lemma OneDigitMore(s: string, i: nat, j: nat)
    requires i <= j < |s| && IsDigit(s[j])
    ensures Value(s[i..j + 1], 10) == Value(s[i..j], 10) * 10 + DigitValue(s[j]) && DigitValue(s[j]) < 10
  {
    assert s[i..j + 1] == s[i..j] + [s[j]];
    ValueAppend(s[i..j], s[j], 10);
  }

  /** The accumulation: the number modulo 2^32 if its prefixes never drop, else nothing. */
  lemma {:induction false} AccumulateOutcome(s: string, i: nat, j: nat, e: nat)
    requires i <= j <= e <= |s| && AllDigits(s[j..e]) && !IsDigit(CharAt(s, e)) && NeverDrops(Value(s[i..j], 10))
    ensures var n := Value(s[i..e], 10);
      Accumulate(s, j, Value(s[i..j], 10) % WORD_32) == if NeverDrops(n) then Some(n % WORD_32) else None
    decreases e - j
  {
    hide NeverDrops, DigitValue;
    if j < e {
      var v := Value(s[i..j], 10);
      assert s[j] == s[j..e][0] && s[j..e][1..] == s[j + 1..e];
      OneDigitMore(s, i, j);
      NextPrefix(v, DigitValue(s[j]));
      var next := v * 10 + DigitValue(s[j]);
      if v % WORD_32 <= next % WORD_32 {
        AccumulateOutcome(s, i, j + 1, e);
      } else {
        DropsForGood(s, i, j + 1, e);
      }
    }
  }

  /** Exactly what the parser makes of every numeral: the number modulo 2^32, if no prefix drops and
      the outcome is at most INT_MAX; otherwise it is refused. */
  lemma ParseIntOutcome(s: string, i: nat)
    requires i <= |s|
    ensures var e := DigitEnd(s, i); var n := Value(s[i..e], 10);
      ParseInt(s, i) == if NeverDrops(n) && n % WORD_32 <= INT_MAX then Success((n % WORD_32, e)) else Failure(TOO_BIG)
  {
    hide DigitEnd, Accumulate;
    assert s[i..i] == [] && Value([], 10) == 0;
    AccumulateOutcome(s, i, i, DigitEnd(s, i));
  }

  lemma {:induction false} SmallNeverDrops(n: nat)
    requires n < WORD_32
    ensures NeverDrops(n)
  {
    if n >= 10 { SmallNeverDrops(n / 10); }
  }

  /** The parser returns the number that is written exactly when that number is at most INT_MAX. */
  lemma ParseIntExact(s: string, i: nat)
    requires i <= |s|
    ensures var e := DigitEnd(s, i);
      ParseInt(s, i) == Success((Value(s[i..e], 10), e)) <==> Value(s[i..e], 10) <= 2147483647
  {
    hide DigitEnd, ParseInt, NeverDrops, Value;
    var n := Value(s[i..DigitEnd(s, i)], 10);
    ParseIntOutcome(s, i);
    if n <= INT_MAX { SmallNeverDrops(n); }
  }

  const FIRST_MISREAD: nat := 4772185884

  /** A number beyond INT_MAX is refused if and only if a prefix of it drops or it is beyond INT_MAX
      modulo 2^32 as well; in particular all of them below 4772185884 are. */
  lemma TooBigRefused(s: string, i: nat)
    requires i <= |s| && Value(s[i..DigitEnd(s, i)], 10) > INT_MAX
    ensures var n := Value(s[i..DigitEnd(s, i)], 10);
      && (ParseInt(s, i).Failure? <==> !NeverDrops(n) || n % WORD_32 > INT_MAX)
      && (n < FIRST_MISREAD ==> ParseInt(s, i).Failure?)
  {
    hide DigitEnd, ParseInt, Value;
    ParseIntOutcome(s, i);
  }

  /** The first misread number, in any context: 4772185884 is read as 477218588. */
  lemma FirstMisread(before: string, after: string)
    requires !IsDigit(CharAt(after, 0))
    ensures var s := before + Decimal(FIRST_MISREAD) + after;
      ParseInt(s, |before|) == Success((477218588, |before| + |Decimal(FIRST_MISREAD)|))
  {
    DecimalOutcome(before, FIRST_MISREAD, after);
    SmallNeverDrops(FIRST_MISREAD / 10);
  }

  /** Ten billion reads as 1410065408. */
  lemma WrappedNumber(s: string)
    requires s == "1" + seq(10, i => '0')
    ensures ParseInt(s, 0) == Success((1410065408, 11)) && Value(s[0..11], 10) == 10000000000
  {
    hide ParseInt;
    RunEnds(s, 0, 11);
    ZeroValue(s, 10);
    assert Pow10(4) == 10000;
    assert Pow10(8) == 10000 * Pow10(4);
    assert Pow10(10) == 100 * Pow10(8);
    ParseIntOutcome(s, 0);
    SmallNeverDrops(1000000000);
  }

  lemma {:induction false} ZeroValue(s: string, zeros: nat)
    requires 1 + zeros <= |s| && s[0] == '1' && forall i :: 1 <= i < 1 + zeros ==> s[i] == '0'
    ensures Value(s[0..1 + zeros], 10) == Pow10(zeros)
  {
    if zeros == 0 {
      OneDigitMore(s, 0, 0);
      assert s[0..0] == [] && Value([], 10) == 0;
    } else {
      ZeroValue(s, zeros - 1);
      OneDigitMore(s, 0, zeros);
    }
  }

  /** What the parser makes of a printed number, whatever non-digit follows. */
  lemma DecimalOutcome(before: string, n: nat, after: string)
    requires !IsDigit(CharAt(after, 0))
    ensures var s := before + Decimal(n) + after;
      ParseInt(s, |before|)
      == if NeverDrops(n) && n % WORD_32 <= INT_MAX then Success((n % WORD_32, |before| + |Decimal(n)|)) else Failure(TOO_BIG)
  {
    hide NeverDrops, ParseInt;
    var s, i, k := before + Decimal(n) + after, |before|, |before| + |Decimal(n)|;
    DecimalDigits(n);
    assert s[i..k] == Decimal(n);
    forall p | i <= p < k ensures IsDigit(s[p]) { assert s[p] == Decimal(n)[p - i]; }
    assert CharAt(s, k) == CharAt(after, 0);
    RunEnds(s, i, k);
    NumeralReadsBack(n, 10, false);
    ParseIntOutcome(s, i);
  }

  /** Every number up to INT_MAX survives printing and parsing, whatever non-digit follows. */
  lemma DecimalParses(before: string, n: nat, after: string)
    requires n <= INT_MAX && !IsDigit(CharAt(after, 0))
    ensures var s := before + Decimal(n) + after;
      ParseInt(s, |before|) == Success((n, |before| + |Decimal(n)|))
  {
    hide NeverDrops;
    DecimalOutcome(before, n, after);
    SmallNeverDrops(n);
  }

  lemma {:induction false} RunEnds(s: string, i: nat, k: nat)
    requires i <= k <= |s| && !IsDigit(CharAt(s, k)) && forall p :: i <= p < k ==> IsDigit(s[p])
    ensures DigitEnd(s, i) == k
    decreases k - i
  {
    if i < k { RunEnds(s, i + 1, k); }
  }
}
