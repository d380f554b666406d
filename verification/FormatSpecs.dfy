/** Format specifications and the padded layout they ask for. */
module FormatSpecs {
  import opened Wrappers
  import opened Numerals

  datatype Alignment = AlignDefault | AlignLeft | AlignRight | AlignCenter | AlignNumeric

  /** A precision of -1 and a type of '\0' mean "not given". */
  datatype FormatSpec = FormatSpec(
    width: nat, fill: char, align: Alignment,
    sign: bool, plus: bool, minus: bool, hash: bool,
    precision: int, typeCode: char)

  const DEFAULT_SPEC: FormatSpec := FormatSpec(0, ' ', AlignDefault, false, false, false, false, -1, '\0')

  function Repeat(c: char, n: nat): (s: string)
    ensures |s| == n && forall i :: 0 <= i < n ==> s[i] == c
  {
    seq(n, i => c)
  }

  function Padding(spec: FormatSpec, size: nat): nat {
    if spec.width > size then spec.width - size else 0
  }

  /** What goes in front of the prefix, between prefix and digits, and behind the digits. */
  function PadFront(spec: FormatSpec, size: nat): nat {
    match spec.align
    case AlignLeft => 0
    case AlignCenter => Padding(spec, size) / 2
    case AlignNumeric => 0
    case _ => Padding(spec, size)
  }

  function PadMiddle(spec: FormatSpec, size: nat): nat {
    if spec.align == AlignNumeric then Padding(spec, size) else 0
  }

  function PadBack(spec: FormatSpec, size: nat): nat {
    match spec.align
    case AlignLeft => Padding(spec, size)
    case AlignCenter => Padding(spec, size) - Padding(spec, size) / 2
    case _ => 0
  }

  /** The padded field. */
  function Layout(prefix: string, digits: string, spec: FormatSpec): string {
    var size := |prefix| + |digits|;
    Repeat(spec.fill, PadFront(spec, size)) + prefix + Repeat(spec.fill, PadMiddle(spec, size)) + digits
    + Repeat(spec.fill, PadBack(spec, size))
  }

  /** Where the digits start inside the field. */
  function DigitsAt(prefix: string, count: nat, spec: FormatSpec): nat {
    var size := |prefix| + count;
    PadFront(spec, size) + |prefix| + PadMiddle(spec, size)
  }

  /** The field is as wide as asked, or as its content if that is wider; the digits stand where
      DigitsAt says, the prefix in front of them, and everything else is fill. */
  lemma LayoutShape(prefix: string, digits: string, spec: FormatSpec)
    ensures var size := |prefix| + |digits|; var f, at := Layout(prefix, digits, spec), DigitsAt(prefix, |digits|, spec);
      && |f| == (if spec.width > size then spec.width else size)
      && at + |digits| <= |f| && f[at..at + |digits|] == digits
      && var front := PadFront(spec, size);
         && f[front..front + |prefix|] == prefix
         && (forall i :: 0 <= i < |f| && !(front <= i < front + |prefix|) && !(at <= i < at + |digits|) ==> f[i] == spec.fill)
  {
  }

  /** Where the padding goes. */
  lemma LayoutAlignment(prefix: string, digits: string, spec: FormatSpec)
    ensures var size := |prefix| + |digits|; var f, at := Layout(prefix, digits, spec), DigitsAt(prefix, |digits|, spec);
      match spec.align
      case AlignLeft => at == |prefix|
      case AlignCenter => at - |prefix| <= |f| - size - (at - |prefix|) <= at - |prefix| + 1
      case AlignNumeric => PadFront(spec, size) == 0 && at + |digits| == |f|
      case _ => at + |digits| == |f| && PadFront(spec, size) == at - |prefix|
  {
    LayoutShape(prefix, digits, spec);
  }

  function Sign(value: int, spec: FormatSpec): string {
    if value < 0 then "-" else if spec.sign then (if spec.plus then "+" else " ") else ""
  }

  function BaseOf(typeCode: char): Option<nat> {
    if typeCode == '\0' || typeCode == 'd' then Some(10)
    else if typeCode == 'x' || typeCode == 'X' then Some(16)
    else if typeCode == 'b' || typeCode == 'B' then Some(2)
    else if typeCode == 'o' then Some(8)
    else None
  }

  function BaseMark(spec: FormatSpec): string {
    if !spec.hash then ""
    else if spec.typeCode == 'o' then "0"
    else if spec.typeCode in "xXbB" then ['0', spec.typeCode]
    else ""
  }

  function Prefix(value: int, spec: FormatSpec): string {
    Sign(value, spec) + BaseMark(spec)
  }

  function Magnitude(value: int): nat {
    if value < 0 then -value else value
  }

  /** The text of an integer under a specification; None for an unknown type. */
  function IntText(value: int, spec: FormatSpec): Option<string> {
    match BaseOf(spec.typeCode)
    case None => None
    case Some(base) => Some(Layout(Prefix(value, spec), Numeral(Magnitude(value), base, spec.typeCode == 'X'), spec))
  }

  /** The digit field of every formatted integer reads back to its absolute value, and the field
      is exactly as wide as asked or needed. */
  lemma IntTextReadsBack(value: int, spec: FormatSpec)
    requires BaseOf(spec.typeCode).Some?
    ensures var base, at := BaseOf(spec.typeCode).value, DigitsStart(value, spec);
      var digits := Numeral(Magnitude(value), base, spec.typeCode == 'X');
      var text := IntText(value, spec).value;
      && at + |digits| <= |text| && Value(text[at..at + |digits|], base) == Magnitude(value)
      && |text| == (if spec.width > |Prefix(value, spec)| + |digits| then spec.width else |Prefix(value, spec)| + |digits|)
  {
    var base := BaseOf(spec.typeCode).value;
    var digits := Numeral(Magnitude(value), base, spec.typeCode == 'X');
    LayoutShape(Prefix(value, spec), digits, spec);
    NumeralReadsBack(Magnitude(value), base, spec.typeCode == 'X');
  }

  function DigitsStart(value: int, spec: FormatSpec): nat
    requires BaseOf(spec.typeCode).Some?
  {
    DigitsAt(Prefix(value, spec), NumDigits(Magnitude(value), BaseOf(spec.typeCode).value), spec)
  }

  // ----- the written field, spelled out -----

  lemma {:induction false} NumeralForm(n: nat, base: nat, upper: bool)
    requires 2 <= base <= 16
    ensures var s := Numeral(n, base, upper);
      && s != "" && (|s| > 1 ==> s[0] != '0') && (n > 0 ==> s[0] != '0')
      && forall i :: 0 <= i < |s| ==>
           ('0' <= s[i] <= '9' && s[i] as int - '0' as int < base)
           || (base > 10 && (if upper then 'A' <= s[i] <= 'F' else 'a' <= s[i] <= 'f'))
  {
    if n >= base {
      QuotientSmaller(n, base);
      NumeralForm(n / base, base, upper);
      QuotientAtLeastOne(n, base);
      assert Numeral(n, base, upper) == Numeral(n / base, base, upper) + [DigitChar(n % base, upper)];
    }
  }

  lemma QuotientAtLeastOne(n: nat, base: nat)
    requires 0 < base <= n
    ensures n / base >= 1
  {
    DivMod(n, base);
  }

  lemma BaseOfType(c: char)
    requires c in "dxXbBo" || c == '\0'
    ensures BaseOf(c) == Some(if c in "xX" then 16 else if c in "bB" then 2 else if c == 'o' then 8 else 10)
  {
  }

  lemma DigitsOf(n: nat, base: nat, c: char)
    requires (c in "xX" && base == 16) || (c !in "xX" && 2 <= base <= 10)
    ensures var digits := Numeral(n, base, c == 'X');
      && Value(digits, base) == n && digits != "" && (|digits| > 1 ==> digits[0] != '0')
      && forall i :: 0 <= i < |digits| ==>
           ('0' <= digits[i] <= '9' && digits[i] as int - '0' as int < base)
           || (c == 'x' && 'a' <= digits[i] <= 'f') || (c == 'X' && 'A' <= digits[i] <= 'F')
  {
    NumeralReadsBack(n, base, c == 'X');
    NumeralForm(n, base, c == 'X');
    hide Numeral, Value;
  }

  lemma PaddingOf(spec: FormatSpec, size: nat)
    ensures var front, middle, back := PadFront(spec, size), PadMiddle(spec, size), PadBack(spec, size);
      && front + middle + back + size == (if spec.width > size then spec.width else size)
      && match spec.align
         case AlignLeft => front == 0 && middle == 0
         case AlignNumeric => front == 0 && back == 0
         case AlignCenter => middle == 0 && front <= back <= front + 1
         case _ => middle == 0 && back == 0
  {
  }

  lemma SignOf(value: int, spec: FormatSpec)
    ensures var sign := Sign(value, spec);
      && (value < 0 ==> sign == "-")
      && (value >= 0 && spec.sign && spec.plus ==> sign == "+")
      && (value >= 0 && spec.sign && !spec.plus ==> sign == " ")
      && (value >= 0 && !spec.sign ==> sign == "")
  {
  }

  lemma MarkOf(spec: FormatSpec)
    requires spec.typeCode in "dxXbBo" || spec.typeCode == '\0'
    ensures var mark, c := BaseMark(spec), spec.typeCode;
      && (!spec.hash || c == 'd' || c == '\0' ==> mark == "")
      && (spec.hash && c == 'x' ==> mark == "0x")
      && (spec.hash && c == 'X' ==> mark == "0X")
      && (spec.hash && c == 'b' ==> mark == "0b")
      && (spec.hash && c == 'B' ==> mark == "0B")
      && (spec.hash && c == 'o' ==> mark == "0")
  {
  }

  lemma IntTextLaid(value: int, spec: FormatSpec)
    requires BaseOf(spec.typeCode).Some?
    ensures var digits := Numeral(Magnitude(value), BaseOf(spec.typeCode).value, spec.typeCode == 'X');
      var prefix := Sign(value, spec) + BaseMark(spec);
      var size := |prefix| + |digits|;
      IntText(value, spec) == Some(Repeat(spec.fill, PadFront(spec, size)) + prefix
                                   + Repeat(spec.fill, PadMiddle(spec, size)) + digits
                                   + Repeat(spec.fill, PadBack(spec, size)))
  {
    hide Sign, BaseMark, BaseOf, Numeral, PadFront, PadMiddle, PadBack, Repeat;
  }

  /** The text of an integer: what the sign and the mark of the base are, in which base and letters
      the digits read, and where the fill goes. */
  lemma IntField(value: int, spec: FormatSpec)
      returns (front: nat, sign: string, mark: string, middle: nat, digits: string, back: nat)
    requires spec.typeCode in "dxXbBo" || spec.typeCode == '\0'
    ensures IntText(value, spec)
      == Some(Repeat(spec.fill, front) + (sign + mark) + Repeat(spec.fill, middle) + digits + Repeat(spec.fill, back))
    ensures value < 0 ==> sign == "-"
    ensures value >= 0 && spec.sign && spec.plus ==> sign == "+"
    ensures value >= 0 && spec.sign && !spec.plus ==> sign == " "
    ensures value >= 0 && !spec.sign ==> sign == ""
    ensures !spec.hash || spec.typeCode == 'd' || spec.typeCode == '\0' ==> mark == ""
    ensures spec.hash && spec.typeCode == 'x' ==> mark == "0x"
    ensures spec.hash && spec.typeCode == 'X' ==> mark == "0X"
    ensures spec.hash && spec.typeCode == 'b' ==> mark == "0b"
    ensures spec.hash && spec.typeCode == 'B' ==> mark == "0B"
    ensures spec.hash && spec.typeCode == 'o' ==> mark == "0"
    ensures var base := if spec.typeCode in "xX" then 16 else if spec.typeCode in "bB" then 2 else if spec.typeCode == 'o' then 8 else 10;
      && Value(digits, base) == (if value < 0 then -value else value)
      && digits != "" && (|digits| > 1 ==> digits[0] != '0')
      && forall i :: 0 <= i < |digits| ==>
           ('0' <= digits[i] <= '9' && digits[i] as int - '0' as int < base)
           || (spec.typeCode == 'x' && 'a' <= digits[i] <= 'f') || (spec.typeCode == 'X' && 'A' <= digits[i] <= 'F')
    ensures var size := |sign| + |mark| + |digits|;
      front + middle + back + size == (if spec.width > size then spec.width else size)
    ensures match spec.align
      case AlignLeft => front == 0 && middle == 0
      case AlignNumeric => front == 0 && back == 0
      case AlignCenter => middle == 0 && front <= back <= front + 1
      case _ => middle == 0 && back == 0
  {
    hide Sign, BaseMark, BaseOf, Numeral, Value, PadFront, PadMiddle, PadBack, Repeat, IntText, Padding;
    BaseOfType(spec.typeCode);
    var base := BaseOf(spec.typeCode).value;
    digits := Numeral(Magnitude(value), base, spec.typeCode == 'X');
    DigitsOf(Magnitude(value), base, spec.typeCode);
    SignOf(value, spec);
    MarkOf(spec);
    IntTextLaid(value, spec);
    sign, mark := Sign(value, spec), BaseMark(spec);
    var size := |sign + mark| + |digits|;
    PaddingOf(spec, size);
    front, middle, back := PadFront(spec, size), PadMiddle(spec, size), PadBack(spec, size);
  }

  /** Other type characters are refused. */
  lemma UnknownType(value: int, spec: FormatSpec)
    ensures IntText(value, spec).None? <==> spec.typeCode !in "dxXbBo" && spec.typeCode != '\0'
  {
  }
}
