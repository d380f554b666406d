/** Writing decimal numbers into fixed buffers, two digits per division. */
module DecimalWriter {
  import opened Numerals
  import opened DigitCount

  // "00" to "99" back to back, twenty numbers a row.
  const ROW_0: string := "0001020304050607080910111213141516171819"
  const ROW_1: string := "2021222324252627282930313233343536373839"
  const ROW_2: string := "4041424344454647484950515253545556575859"
  const ROW_3: string := "6061626364656667686970717273747576777879"
  const ROW_4: string := "8081828384858687888990919293949596979899"

  /** The table as one run of two hundred characters. */
  function TableChar(i: nat): char
    requires i < 200
  {
    if i < 40 then ROW_0[i] else if i < 80 then ROW_1[i - 40] else if i < 120 then ROW_2[i - 80]
    else if i < 160 then ROW_3[i - 120] else ROW_4[i - 160]
  }

  lemma Row0(d: nat)
    requires d < 10
    ensures ROW_0[2 * d] == '0' && ROW_0[2 * d + 20] == '1'
    ensures ROW_0[2 * d + 1] == ROW_0[2 * d + 21] == DigitChar(d, false)
  {
  }

  lemma Row1(d: nat)
    requires d < 10
    ensures ROW_1[2 * d] == '2' && ROW_1[2 * d + 20] == '3'
    ensures ROW_1[2 * d + 1] == ROW_1[2 * d + 21] == DigitChar(d, false)
  {
  }

  lemma Row2(d: nat)
    requires d < 10
    ensures ROW_2[2 * d] == '4' && ROW_2[2 * d + 20] == '5'
    ensures ROW_2[2 * d + 1] == ROW_2[2 * d + 21] == DigitChar(d, false)
  {
  }

  lemma Row3(d: nat)
    requires d < 10
    ensures ROW_3[2 * d] == '6' && ROW_3[2 * d + 20] == '7'
    ensures ROW_3[2 * d + 1] == ROW_3[2 * d + 21] == DigitChar(d, false)
  {
  }

  lemma Row4(d: nat)
    requires d < 10
    ensures ROW_4[2 * d] == '8' && ROW_4[2 * d + 20] == '9'
    ensures ROW_4[2 * d + 1] == ROW_4[2 * d + 21] == DigitChar(d, false)
  {
  }

  lemma Pair0(h: nat, d: nat)
    requires d < 10 && (h == 0 || h == 1)
    ensures TableChar(20 * h + 2 * d) == DigitChar(h, false) && TableChar(20 * h + 2 * d + 1) == DigitChar(d, false)
  {
    Row0(d);
  }

  lemma Pair1(h: nat, d: nat)
    requires d < 10 && (h == 2 || h == 3)
    ensures TableChar(20 * h + 2 * d) == DigitChar(h, false) && TableChar(20 * h + 2 * d + 1) == DigitChar(d, false)
  {
    Row1(d);
  }

  lemma Pair2(h: nat, d: nat)
    requires d < 10 && (h == 4 || h == 5)
    ensures TableChar(20 * h + 2 * d) == DigitChar(h, false) && TableChar(20 * h + 2 * d + 1) == DigitChar(d, false)
  {
    Row2(d);
  }

  lemma Pair3(h: nat, d: nat)
    requires d < 10 && (h == 6 || h == 7)
    ensures TableChar(20 * h + 2 * d) == DigitChar(h, false) && TableChar(20 * h + 2 * d + 1) == DigitChar(d, false)
  {
    Row3(d);
  }

  lemma Pair4(h: nat, d: nat)
    requires d < 10 && (h == 8 || h == 9)
    ensures TableChar(20 * h + 2 * d) == DigitChar(h, false) && TableChar(20 * h + 2 * d + 1) == DigitChar(d, false)
  {
    Row4(d);
  }

  /** The table holds the two digits of every number below a hundred. */
  lemma PairTable(v: nat)
    requires v < 100
    ensures TableChar(2 * v) == DigitChar(v / 10, false) && TableChar(2 * v + 1) == DigitChar(v % 10, false)
  {
    var h, d := v / 10, v % 10;
    assert 2 * v == 20 * h + 2 * d;
    if h < 2 { Pair0(h, d); } else if h < 4 { Pair1(h, d); } else if h < 6 { Pair2(h, d); }
    else if h < 8 { Pair3(h, d); } else { Pair4(h, d); }
  }

  lemma TwoDigits(n: nat)
    requires n < 100
    ensures Decimal(n) == if n < 10 then [DigitChar(n, false)] else [DigitChar(n / 10, false), DigitChar(n % 10, false)]
  {
    if n >= 10 { assert Decimal(n) == Decimal(n / 10) + [DigitChar(n % 10, false)]; }
  }

  /** s with t written over it at position `at`. */
  function Splice(s: string, at: nat, t: string): (r: string)
    requires at + |t| <= |s|
    ensures |r| == |s|
  {
    s[..at] + t + s[at + |t|..]
  }

  lemma SpliceOne(s: string, at: nat, a: char)
    requires at + 1 <= |s|
    ensures Splice(s, at, [a]) == s[at := a]
  {
  }

  lemma SpliceTwo(s: string, at: nat, a: char, b: char)
    requires at + 2 <= |s|
    ensures Splice(s, at, [a, b]) == s[at := a][at + 1 := b]
    ensures s[at + 1 := b][at := a] == s[at := a][at + 1 := b]
  {
  }

  /** Writing t and then u just in front of it writes u + t. */
  lemma SpliceInFront(s: string, at: nat, u: string, t: string)
    requires at + |u| + |t| <= |s|
    ensures Splice(Splice(s, at + |u|, t), at, u) == Splice(s, at, u + t)
  {
  }

  lemma SpliceBehind(s: string, at: nat, u: string, t: string)
    requires at + |u| + |t| <= |s|
    ensures Splice(Splice(s, at, u), at + |u|, t) == Splice(s, at, u + t)
  {
  }

  /** Looks up the two digits of v. */
  method LookUp(v: nat) returns (tens: char, ones: char)
    requires v < 100
    ensures tens == DigitChar(v / 10, false) && ones == DigitChar(v % 10, false)
  {
    PairTable(v);
    var index := v * 2;
    ones := TableChar(index + 1);
    tens := TableChar(index);
  }

  /** Stores the two digits of v at `at`, the second first. */
  method PutPair(buffer: array<char>, at: nat, v: nat)
    requires v < 100 && at + 2 <= buffer.Length
    modifies buffer
    ensures buffer[..] == Splice(old(buffer[..]), at, DigitPair(v))
  {
    var tens, ones := LookUp(v);
    SpliceTwo(buffer[..], at, tens, ones);
    buffer[at + 1] := ones;
    buffer[at] := tens;
    assert buffer[..] == old(buffer[..])[at + 1 := ones][at := tens];
  }

  method PutDigit(buffer: array<char>, at: nat, v: nat)
    requires v < 10 && at < buffer.Length
    modifies buffer
    ensures buffer[..] == Splice(old(buffer[..]), at, [DigitChar(v, false)])
  {
    SpliceOne(buffer[..], at, DigitChar(v, false));
    buffer[at] := ('0' as int + v) as char;
  }

  /** The last step of every conversion: a number below a hundred. */
  method PutBelow100(buffer: array<char>, at: nat, v: nat) returns (end: nat)
    requires v < 100 && at + NumDigits(v, 10) <= buffer.Length
    modifies buffer
    ensures end == at + NumDigits(v, 10)
    ensures buffer[..] == Splice(old(buffer[..]), at, Decimal(v))
  {
    TwoDigits(v);
    if v < 10 {
      PutDigit(buffer, at, v);
      end := at + 1;
    } else {
      PutPair(buffer, at, v);
      end := at + 2;
    }
  }

  /** Writes the numeral of value so that it ends just before `end`, and returns where it starts. */
  method WriteBackwards(buffer: array<char>, end: nat, value: nat) returns (start: nat)
    requires NumDigits(value, 10) <= end <= buffer.Length
    modifies buffer
    ensures start == end - NumDigits(value, 10)
    ensures buffer[..] == Splice(old(buffer[..]), start, Decimal(value))
  {
    ghost var before, done := buffer[..], "";
    start := end;
    var v := value;
    while v >= 100
      invariant start + |done| == end && IsRest(value, v, done)
      invariant buffer[..] == Splice(before, start, done)
      decreases v
    {
      SplitPair(value, v, done);
      start := start - 2;
      SpliceInFront(before, start, DigitPair(v % 100), done);
      PutPair(buffer, start, v % 100);
      done := DigitPair(v % 100) + done;
      v := v / 100;
    }
    TwoDigits(v);
    start := if v < 10 then start - 1 else start - 2;
    SpliceInFront(before, start, Decimal(v), done);
    var _ := PutBelow100(buffer, start, v);
  }

  function DigitPair(v: nat): (s: string)
    requires v < 100
    ensures |s| == 2
  {
    [DigitChar(v / 10, false), DigitChar(v % 10, false)]
  }

  /** `done` is the end of value's numeral and v the number in front of it. */
  predicate IsRest(value: nat, v: nat, done: string)
    ensures IsRest(value, v, done) ==> NumDigits(value, 10) == NumDigits(v, 10) + |done|
  {
    Decimal(v) + done == Decimal(value)
  }

  lemma SplitPair(value: nat, v: nat, done: string)
    requires v >= 100 && IsRest(value, v, done)
    ensures IsRest(value, v / 100, DigitPair(v % 100) + done)
    ensures NumDigits(v, 10) >= 2
  {
    DecimalByTwo(v);
    Associate(Decimal(v / 100), DigitPair(v % 100), done);
  }

  lemma Associate(a: string, b: string, c: string)
    ensures (a + b) + c == a + (b + c)
  {
  }

  /** The writer's format_decimal: the caller has counted the digits and gets exactly that range
      filled. */
  method FormatDecimal(buffer: array<char>, at: nat, value: nat, numDigits: nat)
    requires numDigits == NumDigits(value, 10) && at + numDigits <= buffer.Length
    modifies buffer
    ensures buffer[..] == Splice(old(buffer[..]), at, Decimal(value))
  {
    var start := WriteBackwards(buffer, at + numDigits, value);
  }

  /** |value| as the source computes it: converted to an unsigned word, negated there if negative. */
  function AbsWord(value: int, word: nat): (abs: nat)
    requires 0 <= 2 * value + word && value < word
    ensures abs == (if value < 0 then -value else value) && abs < word
  {
    if value < 0 then Negated(value + word, word) else value
  }

  /** 0 - x on unsigned words. */
  function Negated(x: nat, word: nat): nat
    requires 0 < x < word
  {
    word - x
  }

  /** fmt::format_decimal: writes a signed number at `at` and returns the end of what it wrote;
      numbers below a hundred take a fast path. */
  method FormatDecimalAt(buffer: array<char>, at: nat, value: int) returns (end: nat)
    requires 0 <= 2 * value + TWO_64 && value < TWO_64
    requires at + |Integer(value)| <= buffer.Length
    modifies buffer
    ensures end == at + |Integer(value)|
    ensures buffer[..] == Splice(old(buffer[..]), at, Integer(value))
  {
    var abs := AbsWord(value, TWO_64);
    end := at;
    if value < 0 {
      SpliceOne(buffer[..], at, '-');
      SpliceBehind(buffer[..], at, "-", Decimal(abs));
      buffer[end] := '-';
      end := end + 1;
    }
    if abs < 100 {
      end := PutBelow100(buffer, end, abs);
    } else {
      var numDigits := CountDigits64(abs);
      FormatDecimal(buffer, end, abs, numDigits);
      end := end + numDigits;
    }
  }

  /** The fast integer formatter: a 22-character buffer filled from the back. */
  class FormatInt {
    const buffer: array<char>
    var str: nat

    ghost predicate Valid()
      reads this, buffer
    {
      buffer.Length == 22 && str <= 21
    }

    /** The text between the start and the terminator's place. */
    function Str(): string
      requires Valid()
      reads this, buffer
    {
      buffer[str..21]
    }

    function Size(): nat
      requires Valid()
      reads this, buffer
    {
      21 - str
    }

    constructor Unsigned(value: nat)
      requires value < TWO_64
      ensures Valid() && fresh(buffer)
      ensures Str() == Decimal(value) && Size() == |Decimal(value)|
    {
      buffer := new char[22];
      new;
      DigitsOfWord(value, 20);
      str := WriteBackwards(buffer, 21, value);
    }

    /** Every 64-bit signed number, the most negative included, fits with its sign. */
    constructor Signed(value: int)
      requires 0 <= 2 * value + TWO_64 && 2 * value < TWO_64
      ensures Valid() && fresh(buffer)
      ensures Str() == Integer(value) && Size() == |Integer(value)|
    {
      buffer := new char[22];
      new;
      var abs := AbsWord(value, TWO_64);
      DigitsOfWord(abs, 19);
      str := WriteBackwards(buffer, 21, abs);
      if value < 0 {
        str := str - 1;
        buffer[str] := '-';
        assert buffer[str..21] == ['-'] + Decimal(abs);
      }
    }

    /** Writing the terminator leaves the text alone. */
    method CStr() returns (start: nat)
      requires Valid()
      modifies buffer
      ensures Valid() && start == str && Str() == old(Str()) && buffer[21] == '\0'
    {
      buffer[21] := '\0';
      assert buffer[str..21] == old(buffer[str..21]);
      start := str;
    }
  }

  /** 64-bit numbers have at most 20 digits; magnitudes up to 2^63 at most 19. */
  lemma DigitsOfWord(n: nat, d: nat)
    requires (d == 20 && n < TWO_64) || (d == 19 && 2 * n <= TWO_64)
    ensures NumDigits(n, 10) <= d
  {
    var zero := n - n;
    PowersHigh(zero);
    DigitRange(n);
    if NumDigits(n, 10) > d {
      assert Pow10(zero + 20) == 10 * Pow10(zero + 19);
      Pow10Monotone(zero + d, NumDigits(n, 10) - 1);
    }
  }
}
