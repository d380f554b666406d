/** The writer's growing buffer and its integer formatting. */
module IntWriter {
  import opened Wrappers
  import opened Numerals
  import opened DigitCount
  import opened DecimalWriter
  import opened FormatSpecs

  /** t is s with `text` written at `at`, place by place. */
  predicate Overwritten(s: string, t: string, at: nat, text: string) {
    && |t| == |s| && at + |text| <= |s|
    && forall i :: 0 <= i < |s| ==> t[i] == if at <= i < at + |text| then text[i - at] else s[i]
  }

  predicate Filled(s: string, t: string, at: nat, n: nat, c: char) {
    && |t| == |s| && at + n <= |s|
    && forall i :: 0 <= i < |s| ==> t[i] == if at <= i < at + n then c else s[i]
  }

  /** A growing character buffer; the capacity is the length of `data`. */
  class Buffer {
    var data: array<char>
    var size: nat

    ghost predicate Valid()
      reads this
    {
      size <= data.Length
    }

    function Contents(): (s: string)
      requires Valid()
      reads this, data
      ensures |s| == size
    {
      data[..size]
    }

    constructor (capacity: nat)
      ensures Valid() && Contents() == "" && fresh(data) && data.Length == capacity
    {
      data := new char[capacity];
      size := 0;
    }

    /** Moves the contents to storage half as large again, or as large as needed. */
    method Grow(needed: nat)
      requires Valid()
      modifies this`data
      ensures Valid() && fresh(data) && data.Length >= needed && data.Length >= old(data.Length)
      ensures data.Length == needed || (data.Length == old(data.Length) + old(data.Length) / 2 > needed)
      ensures data.Length >= old(data.Length) + old(data.Length) / 2
      ensures Contents() == old(Contents())
    {
      var capacity := data.Length + data.Length / 2;
      if needed > capacity { capacity := needed; }
      var old_data := data;
      var fresh_data := new char[capacity];
      forall i | 0 <= i < size { fresh_data[i] := old_data[i]; }
      data := fresh_data;
    }

    /** Makes room for n more characters and returns where they start. */
    method GrowBuffer(n: nat) returns (at: nat)
      requires Valid()
      modifies this
      ensures Valid() && (data == old(data) || fresh(data))
      ensures at == old(size) && size == at + n && old(Contents()) <= Contents()
    {
      at := size;
      if size + n > data.Length { Grow(size + n); }
      size := size + n;
      assert Contents()[..at] == old(Contents());
    }

    method Copy(text: string, at: nat)
      requires Valid() && at + |text| <= size
      modifies data
      ensures Overwritten(old(Contents()), Contents(), at, text)
    {
      var i := 0;
      while i < |text|
        invariant i <= |text|
        invariant forall k :: 0 <= k < size ==> data[k] == if at <= k < at + i then text[k - at] else old(data[k])
      {
        data[at + i] := text[i];
        i := i + 1;
      }
    }

    method Fill(at: nat, n: nat, c: char)
      requires Valid() && at + n <= size
      modifies data
      ensures Filled(old(Contents()), Contents(), at, n, c)
    {
      var i := 0;
      while i < n
        invariant i <= n
        invariant forall k :: 0 <= k < size ==> data[k] == if at <= k < at + i then c else old(data[k])
      {
        data[at + i] := c;
        i := i + 1;
      }
    }

    method Append(text: string)
      requires Valid()
      modifies this, data
      ensures Valid() && (data == old(data) || fresh(data))
      ensures Contents() == old(Contents()) + text
    {
      var at := GrowBuffer(|text|);
      Copy(text, at);
    }
  }

  // ----- prepare_int_buffer, without a precision -----

  /** `text` is `before` and then a field whose padding and prefix are in place. */
  ghost predicate Painted(text: string, before: string, prefix: string, count: nat, spec: FormatSpec) {
    var size := |prefix| + count;
    var i := |before| + PadFront(spec, size);
    var j := i + |prefix|;
    var k := j + PadMiddle(spec, size);
    && |text| == |before| + size + Padding(spec, size)
    && before <= text
    && (forall p :: |before| <= p < i || j <= p < k || k + count <= p < |text| ==> text[p] == spec.fill)
    && (forall p :: i <= p < j ==> text[p] == prefix[p - i])
  }

  /** Writes padding and prefix behind the contents and returns the place of the last digit. */
  method PrepareIntBuffer(w: Buffer, count: nat, spec: FormatSpec, prefix: string) returns (last: int)
    requires w.Valid()
    modifies w, w.data
    ensures w.Valid() && (w.data == old(w.data) || fresh(w.data))
    ensures last == old(w.size) + DigitsAt(prefix, count, spec) + count - 1
    ensures Painted(w.Contents(), old(w.Contents()), prefix, count, spec)
  {
    ghost var before := w.Contents();
    var size := |prefix| + count;
    var p := w.GrowBuffer(if spec.width <= size then size else spec.width);
    if spec.width <= size {
      last := PaintTight(w, p, count, spec, prefix, before);
    } else if spec.align == AlignLeft {
      last := PaintLeft(w, p, count, spec, prefix, before);
    } else if spec.align == AlignCenter {
      last := PaintCenter(w, p, count, spec, prefix, before);
    } else if spec.align == AlignNumeric {
      last := PaintNumeric(w, p, count, spec, prefix, before);
    } else {
      last := PaintRight(w, p, count, spec, prefix, before);
    }
  }

  /** The new area behind `before`, just made. */
  ghost predicate Area(w: Buffer, p: nat, before: string, width: nat)
    requires w.Valid()
    reads w, w.data
  {
    p == |before| && before <= w.Contents() && w.size == p + width
  }

  method PaintTight(w: Buffer, p: nat, count: nat, spec: FormatSpec, prefix: string, ghost before: string) returns (last: int)
    requires w.Valid() && spec.width <= |prefix| + count && Area(w, p, before, |prefix| + count)
    modifies w.data
    ensures last == p + DigitsAt(prefix, count, spec) + count - 1
    ensures Painted(w.Contents(), before, prefix, count, spec)
  {
    w.Copy(prefix, p);
    last := p + |prefix| + count - 1;
  }

  method PaintLeft(w: Buffer, p: nat, count: nat, spec: FormatSpec, prefix: string, ghost before: string) returns (last: int)
    requires w.Valid() && spec.width > |prefix| + count && Area(w, p, before, spec.width)
    requires spec.align == AlignLeft
    modifies w.data
    ensures last == p + DigitsAt(prefix, count, spec) + count - 1
    ensures Painted(w.Contents(), before, prefix, count, spec)
  {
    w.Copy(prefix, p);
    var q := p + |prefix| + count;
    w.Fill(q, p + spec.width - q, spec.fill);
    last := q - 1;
  }

  method PaintCenter(w: Buffer, p: nat, count: nat, spec: FormatSpec, prefix: string, ghost before: string) returns (last: int)
    requires w.Valid() && spec.width > |prefix| + count && Area(w, p, before, spec.width)
    requires spec.align == AlignCenter
    modifies w.data
    ensures last == p + DigitsAt(prefix, count, spec) + count - 1
    ensures Painted(w.Contents(), before, prefix, count, spec)
  {
    var q := FillPadding(w, p, spec.width, |prefix| + count, spec.fill);
    w.Copy(prefix, q);
    last := q + |prefix| + count - 1;
  }

  method PaintNumeric(w: Buffer, p: nat, count: nat, spec: FormatSpec, prefix: string, ghost before: string) returns (last: int)
    requires w.Valid() && spec.width > |prefix| + count && Area(w, p, before, spec.width)
    requires spec.align == AlignNumeric
    modifies w.data
    ensures last == p + DigitsAt(prefix, count, spec) + count - 1
    ensures Painted(w.Contents(), before, prefix, count, spec)
  {
    var q := p;
    if |prefix| != 0 {
      w.Copy(prefix, q);
      q := q + |prefix|;
    }
    w.Fill(q, p + spec.width - count - q, spec.fill);
    last := p + spec.width - 1;
  }

  method PaintRight(w: Buffer, p: nat, count: nat, spec: FormatSpec, prefix: string, ghost before: string) returns (last: int)
    requires w.Valid() && spec.width > |prefix| + count && Area(w, p, before, spec.width)
    requires spec.align == AlignDefault || spec.align == AlignRight
    modifies w.data
    ensures last == p + DigitsAt(prefix, count, spec) + count - 1
    ensures Painted(w.Contents(), before, prefix, count, spec)
  {
    var end, size := p + spec.width, |prefix| + count;
    w.Copy(prefix, end - size);
    w.Fill(p, end - size - p, spec.fill);
    last := end - 1;
  }

  /** fill_padding: pads both sides and returns where the content starts. */
  method FillPadding(w: Buffer, at: nat, total: nat, size: nat, fill: char) returns (content: nat)
    requires w.Valid() && size <= total && at + total <= w.size
    modifies w.data
    ensures content == at + (total - size) / 2
    ensures forall i :: 0 <= i < w.size ==>
      w.data[i] == if at <= i < content || content + size <= i < at + total then fill else old(w.data[i])
  {
    var padding := total - size;
    var left := padding / 2;
    w.Fill(at, left, fill);
    ghost var half := w.Contents();
    content := at + left;
    w.Fill(content + size, padding - left, fill);
    assert forall i :: 0 <= i < w.size ==> w.data[i] == w.Contents()[i];
  }

  // ----- write_int -----

  /** A painted field whose digit places hold `digits` is the padded layout. */
  lemma PaintedWithDigits(text: string, before: string, prefix: string, digits: string, spec: FormatSpec)
    requires Painted(text, before, prefix, |digits|, spec)
    requires var at := |before| + DigitsAt(prefix, |digits|, spec);
      at + |digits| <= |text| && text[at..at + |digits|] == digits
    ensures text == before + Layout(prefix, digits, spec)
  {
    var at := |before| + DigitsAt(prefix, |digits|, spec);
    var field := Layout(prefix, digits, spec);
    LayoutShape(prefix, digits, spec);
    forall p | |before| <= p < |text| ensures text[p] == field[p - |before|] {
      LayoutPlace(prefix, digits, spec, p - |before|);
      if at <= p < at + |digits| { assert text[p] == text[at..at + |digits|][p - at]; }
    }
  }

  /** What stands at place i of a layout. */
  lemma LayoutPlace(prefix: string, digits: string, spec: FormatSpec, i: nat)
    requires i < |Layout(prefix, digits, spec)|
    ensures var size, at := |prefix| + |digits|, DigitsAt(prefix, |digits|, spec); var front := PadFront(spec, size);
      Layout(prefix, digits, spec)[i] ==
        if front <= i < front + |prefix| then prefix[i - front]
        else if at <= i < at + |digits| then digits[i - at]
        else spec.fill
  {
    LayoutShape(prefix, digits, spec);
    var size, at := |prefix| + |digits|, DigitsAt(prefix, |digits|, spec);
    var front, field := PadFront(spec, size), Layout(prefix, digits, spec);
    if front <= i < front + |prefix| {
      assert field[i] == field[front..front + |prefix|][i - front];
    } else if at <= i < at + |digits| {
      assert field[i] == field[at..at + |digits|][i - at];
    }
  }

  /** The digit loops of the power-of-two bases: count, then write from the last place back. */
  method CountBaseDigits(abs: nat, base: nat) returns (count: nat)
    requires base >= 2
    ensures count == NumDigits(abs, base)
  {
    var n: nat := abs;
    var more := true;
    count := 0;
    while more
      invariant count + (if more then NumDigits(n, base) else 0) == NumDigits(abs, base)
      decreases more, n
    {
      DigitStep(n, base);
      count := count + 1;
      n := n / base;
      more := n != 0;
    }
  }

  lemma DigitStep(n: nat, base: nat)
    requires base >= 2
    ensures n / base >= 0 && (n / base == 0 <==> n < base) && (n >= base ==> n / base < n)
    ensures NumDigits(n, base) == 1 + if n / base == 0 then 0 else NumDigits(n / base, base)
  {
    if n < base {
      SmallQuotient(n, base);
    } else {
      QuotientSmaller(n, base);
      QuotientPositive(n, base);
    }
  }

  method PutDigits(w: Buffer, last: nat, abs: nat, base: nat, upper: bool)
    requires w.Valid() && 2 <= base <= 16 && NumDigits(abs, base) <= last + 1 <= w.size
    modifies w.data
    ensures Overwritten(old(w.Contents()), w.Contents(), last + 1 - NumDigits(abs, base), Numeral(abs, base, upper))
  {
    ghost var done := "";
    var p: int, n: nat, more := last, abs, true;
    while more
      invariant p == last - |done| && (more ==> p >= 0)
      invariant if more then Numeral(n, base, upper) + done == Numeral(abs, base, upper) else done == Numeral(abs, base, upper)
      invariant forall k :: 0 <= k < w.size ==>
        w.data[k] == if p < k <= last then done[k - p - 1] else old(w.data[k])
      decreases more, n
    {
      DigitStep(n, base);
      NumeralStep(n, base, upper, done);
      w.data[p] := DigitChar(n % base, upper);
      done := [DigitChar(n % base, upper)] + done;
      p := p - 1;
      n := n / base;
      more := n != 0;
    }
  }

  lemma NumeralStep(n: nat, base: nat, upper: bool, done: string)
    requires 2 <= base <= 16
    ensures n % base < 16 && n / base <= n
    ensures n / base == 0 <==> n < base
    ensures var done' := [DigitChar(n % base, upper)] + done;
      if n / base != 0 then Numeral(n / base, base, upper) + done' == Numeral(n, base, upper) + done
      else done' == Numeral(n, base, upper) + done
  {
    DivMod(n, base);
    if n < base {
      assert n / base == 0 && n % base == n by { SmallQuotient(n, base); }
    } else {
      QuotientSmaller(n, base);
      QuotientPositive(n, base);
    }
  }

  lemma SmallQuotient(n: nat, base: nat)
    requires n < base
    ensures n / base == 0 && n % base == n
  {
  }

  lemma QuotientPositive(n: nat, base: nat)
    requires 0 < base <= n
    ensures n / base >= 1
  {
  }

  method PutDecimal(w: Buffer, at: nat, abs: nat, count: nat)
    requires w.Valid() && count == NumDigits(abs, 10) && at + count <= w.size
    modifies w.data
    ensures Overwritten(old(w.Contents()), w.Contents(), at, Decimal(abs))
  {
    ghost var before := w.data[..];
    FormatDecimal(w.data, at, abs, count);
    assert forall i :: 0 <= i < w.size ==> w.Contents()[i] == w.data[..][i];
  }

  /** Writing the digits into a painted field completes it. */
  lemma DigitsComplete(text: string, text': string, before: string, prefix: string, digits: string, spec: FormatSpec)
    requires Painted(text, before, prefix, |digits|, spec)
    requires Overwritten(text, text', |before| + DigitsAt(prefix, |digits|, spec), digits)
    ensures text' == before + Layout(prefix, digits, spec)
  {
    var at := |before| + DigitsAt(prefix, |digits|, spec);
    assert text'[at..at + |digits|] == digits;
    PaintedWithDigits(text', before, prefix, digits, spec);
  }

  /** One integer in base 10. */
  method WriteDecimalField(w: Buffer, abs: nat, spec: FormatSpec, prefix: string, narrow: bool)
    requires w.Valid() && abs < TWO_64 && (narrow ==> abs < TWO_32)
    modifies w, w.data
    ensures w.Valid() && (w.data == old(w.data) || fresh(w.data))
    ensures w.Contents() == old(w.Contents()) + Layout(prefix, Decimal(abs), spec)
  {
    var count := if narrow then CountDigits32(abs) else CountDigits64(abs);
    var last := PrepareIntBuffer(w, count, spec, prefix);
    ghost var painted := w.Contents();
    PutDecimal(w, last + 1 - count, abs, count);
    DigitsComplete(painted, w.Contents(), old(w.Contents()), prefix, Decimal(abs), spec);
  }

  /** One integer in base 2, 8 or 16. */
  method WriteBaseField(w: Buffer, abs: nat, base: nat, upper: bool, spec: FormatSpec, prefix: string)
    requires w.Valid() && 2 <= base <= 16
    modifies w, w.data
    ensures w.Valid() && (w.data == old(w.data) || fresh(w.data))
    ensures w.Contents() == old(w.Contents()) + Layout(prefix, Numeral(abs, base, upper), spec)
  {
    var count := CountBaseDigits(abs, base);
    var last := PrepareIntBuffer(w, count, spec, prefix);
    ghost var painted := w.Contents();
    PutDigits(w, last, abs, base, upper);
    DigitsComplete(painted, w.Contents(), old(w.Contents()), prefix, Numeral(abs, base, upper), spec);
  }

  /** write_int.  `word` is 2^32 or 2^64, the width of the unsigned type the value is converted to;
      a precision above the number of digits takes a branch this model leaves out. */
  method WriteInt(w: Buffer, value: int, word: nat, spec: FormatSpec) returns (ok: bool)
    requires w.Valid() && (word == TWO_32 || word == TWO_64)
    requires 0 <= 2 * value + word && value < word
    requires BaseOf(spec.typeCode).Some? ==> spec.precision <= NumDigits(Magnitude(value), BaseOf(spec.typeCode).value)
    modifies w, w.data
    ensures w.Valid() && (w.data == old(w.data) || fresh(w.data))
    ensures ok <==> IntText(value, spec).Some?
    ensures w.Contents() == old(w.Contents()) + if ok then IntText(value, spec).value else ""
  {
    var abs := AbsWord(value, word);
    var prefix := "";
    if value < 0 {
      prefix := "-";
    } else if spec.sign {
      prefix := if spec.plus then "+" else " ";
    }
    ok := true;
    if spec.typeCode == '\0' || spec.typeCode == 'd' {
      TextOfType(value, spec, prefix, "", 10, false);
      WriteDecimalField(w, abs, spec, prefix, word == TWO_32);
    } else if spec.typeCode == 'x' || spec.typeCode == 'X' {
      var mark := if spec.hash then ['0', spec.typeCode] else "";
      TextOfType(value, spec, prefix, mark, 16, spec.typeCode == 'X');
      WriteBaseField(w, abs, 16, spec.typeCode == 'X', spec, prefix + mark);
    } else if spec.typeCode == 'b' || spec.typeCode == 'B' {
      var mark := if spec.hash then ['0', spec.typeCode] else "";
      TextOfType(value, spec, prefix, mark, 2, false);
      WriteBaseField(w, abs, 2, false, spec, prefix + mark);
    } else if spec.typeCode == 'o' {
      var mark := if spec.hash then "0" else "";
      TextOfType(value, spec, prefix, mark, 8, false);
      WriteBaseField(w, abs, 8, false, spec, prefix + mark);
    } else {
      ok := false;
    }
  }

  lemma TextOfType(value: int, spec: FormatSpec, sign: string, mark: string, base: nat, upper: bool)
    requires 2 <= base <= 16 && BaseOf(spec.typeCode) == Some(base) && upper == (spec.typeCode == 'X')
    requires sign == Sign(value, spec) && mark == BaseMark(spec)
    ensures IntText(value, spec) == Some(Layout(sign + mark, Numeral(Magnitude(value), base, upper), spec))
    ensures sign + "" == sign
  {
  }

  // ----- numbers without a specification -----

  /** write_unsigned_decimal: the digits behind room for a prefix; returns where the room starts. */
  method WriteUnsignedDecimal(w: Buffer, value: nat, prefixSize: nat) returns (at: nat)
    requires w.Valid() && value < TWO_64
    modifies w, w.data
    ensures w.Valid() && (w.data == old(w.data) || fresh(w.data))
    ensures at == old(w.size) && w.size == at + prefixSize + NumDigits(value, 10)
    ensures w.Contents()[..at] == old(w.Contents()) && w.Contents()[at + prefixSize..] == Decimal(value)
  {
    var numDigits := CountDigits64(value);
    at := w.GrowBuffer(prefixSize + numDigits);
    ghost var grown := w.Contents();
    PutDecimal(w, at + prefixSize, value, numDigits);
    assert w.Contents()[..at] == grown[..at];
  }

  /** write_decimal, for every signed and unsigned 64-bit value. */
  method WriteDecimal(w: Buffer, value: int)
    requires w.Valid() && 0 <= 2 * value + TWO_64 && value < TWO_64
    modifies w, w.data
    ensures w.Valid() && (w.data == old(w.data) || fresh(w.data))
    ensures w.Contents() == old(w.Contents()) + Integer(value)
  {
    var abs := AbsWord(value, TWO_64);
    if value < 0 {
      var at := WriteUnsignedDecimal(w, abs, 1);
      ghost var digits := w.Contents()[at + 1..];
      w.data[at] := '-';
      assert w.Contents()[..at] == old(w.Contents());
      assert w.Contents()[at + 1..] == digits;
      assert w.Contents() == w.Contents()[..at] + ("-" + w.Contents()[at + 1..]);
    } else {
      var at := WriteUnsignedDecimal(w, abs, 0);
      assert w.Contents() == w.Contents()[..at] + w.Contents()[at..];
    }
  }
}
