/** Printing templates and parsing them back: literal text with its braces doubled, and fields with
    any kind of reference, in front and as nested widths and precisions. */
module FormatRoundTrip {
  import opened Wrappers
  import opened Numerals
  import opened IntParser
  import opened FormatSpecs
  import opened FormatParser

  // ----- references and counts -----

  datatype Ref = Automatic | Numbered(n: nat) | Named(name: string)

  /** A width or precision: written out, or taken from an argument. */
  datatype Count = Fixed(n: nat) | From(ref: Ref)

  function RefText(ref: Ref): string {
    match ref
    case Automatic => ""
    case Numbered(n) => Decimal(n)
    case Named(name) => name
  }

  predicate Letter(c: char) {
    'a' <= c <= 'z' || 'A' <= c <= 'Z' || c == '_'
  }

  predicate IsName(name: string) {
    name != "" && Letter(name[0]) && forall k :: 0 <= k < |name| ==> Letter(name[k]) || '0' <= name[k] <= '9'
  }

  predicate WellFormedRef(ref: Ref) {
    match ref
    case Automatic => true
    case Numbered(n) => n <= 2147483647
    case Named(name) => IsName(name)
  }

  predicate WellFormedCount(c: Count) {
    match c
    case Fixed(n) => n <= 2147483647
    case From(ref) => WellFormedRef(ref)
  }

  const TO_AUTOMATIC: string := "cannot switch from manual to automatic argument indexing"
  const TO_MANUAL: string := "cannot switch from automatic to manual argument indexing"
  const OUT_OF_RANGE: string := "argument index out of range"

  /** The argument a reference stands for: automatic ones count on from 0, numbered and named ones
      stand for themselves, and the two kinds do not mix. */
  function Refer(args: seq<Arg>, ref: Ref, ix: Indexing): Result<(Arg, Indexing), string> {
    match ref
    case Automatic =>
      if ix.next < 0 then Failure(TO_AUTOMATIC)
      else if ix.next >= |args| then Failure(OUT_OF_RANGE)
      else Success((args[ix.next], Indexing(ix.next + 1, ix.uses + [Auto(ix.next, args[ix.next])])))
    case Numbered(n) =>
      if ix.next > 0 then Failure(TO_MANUAL)
      else if n >= |args| then Failure(OUT_OF_RANGE)
      else Success((args[n], Indexing(-1, ix.uses + [ByIndex(n, args[n])])))
    case Named(name) =>
      if ix.next > 0 then Failure(TO_MANUAL)
      else
        match FindArg(args, name)
        case None => Failure("argument not found")
        case Some(arg) => Success((arg, Indexing(-1, ix.uses + [ByName(name, arg)])))
  }

  /** The width or precision an argument stands for: its value, if it is an integer from 0 to 2147483647. */
  function ArgCount(arg: Arg, what: string): Result<nat, string> {
    if (arg.kind.IntKind? || arg.kind.LongLongKind?) && arg.value < 0 then Failure("negative " + what)
    else if !(arg.kind.IntKind? || arg.kind.LongLongKind? || arg.kind.UintKind? || arg.kind.ULongLongKind?) then
      Failure(what + " is not integer")
    else if 0 <= arg.value <= 2147483647 then Success(arg.value)
    else Failure("number is too big")
  }

  function CountValue(args: seq<Arg>, c: Count, ix: Indexing, what: string): Result<(nat, Indexing), string> {
    match c
    case Fixed(n) => Success((n, ix))
    case From(ref) =>
      match Refer(args, ref, ix)
      case Failure(e) => Failure(e)
      case Success((arg, ix')) =>
        match ArgCount(arg, what)
        case Failure(e) => Failure(e)
        case Success(n) => Success((n, ix'))
  }

  // ----- printing one specification -----

  /** A specification as written: `base` has everything but the zero flag, width and precision; the
      alignment is written behind its fill, or bare. */
  datatype Written = Written(base: FormatSpec, bare: bool, zero: bool, width: Count, precision: Option<Count>)

  const ABSENT: int := -1

  predicate Numeric(arg: Arg) {
    !(arg.kind.StringKind? || arg.kind.PointerKind?)
  }

  function NumericOnly(part: string): string {
    "format specifier '" + (part + "' requires numeric argument")
  }

  /** Why an argument does not admit the parts in front of the width, if it does not. */
  function Objection(w: Written, arg: Arg): Option<string> {
    if w.base.align == AlignNumeric && !Numeric(arg) then Some(NumericOnly("="))
    else if SignText(w.base) != "" && !Numeric(arg) then Some(NumericOnly(SignText(w.base)))
    else if SignText(w.base) != "" && (arg.kind.UintKind? || arg.kind.ULongLongKind?) then
      Some("format specifier '" + (SignText(w.base) + "' requires signed argument"))
    else if w.base.hash && !Numeric(arg) then Some(NumericOnly("#"))
    else if w.zero && !Numeric(arg) then Some(NumericOnly("0"))
    else None
  }

  /** A precision is for floating-point numbers and strings. */
  function PrecisionValue(args: seq<Arg>, w: Written, ix: Indexing, arg: Arg): Result<(int, Indexing), string> {
    match w.precision
    case None => Success((ABSENT, ix))
    case Some(c) =>
      match CountValue(args, c, ix, "precision")
      case Failure(e) => Failure(e)
      case Success((n, ix')) =>
        if arg.kind.PointerKind? then Failure("precision not allowed in pointer format specifier")
        else if !(arg.kind.StringKind? || arg.kind.DoubleKind? || arg.kind.LongDoubleKind?) then
          Failure("precision not allowed in integer format specifier")
        else Success((n, ix'))
  }

  /** With the zero flag the field is filled with zeros behind the sign, whatever came first. */
  function ZeroFilled(w: Written): FormatSpec {
    if w.zero then w.base.(fill := '0', align := AlignNumeric) else w.base
  }

  /** The specification that is meant: the width's argument is taken before the precision's. */
  function Resolve(args: seq<Arg>, w: Written, ix: Indexing, arg: Arg): Result<(FormatSpec, Indexing), string> {
    match Objection(w, arg)
    case Some(e) => Failure(e)
    case None => Counted(args, w, ix, arg)
  }

  function Counted(args: seq<Arg>, w: Written, ix: Indexing, arg: Arg): Result<(FormatSpec, Indexing), string> {
    match CountValue(args, w.width, ix, "width")
    case Failure(e) => Failure(e)
    case Success((width, ix1)) =>
      match PrecisionValue(args, w, ix1, arg)
      case Failure(e) => Failure(e)
      case Success((precision, ix2)) => Success((ZeroFilled(w).(width := width, precision := precision), ix2))
  }

  /** A parsed value and where it ends. */
  function Ending<T>(r: Result<(T, Indexing), string>, pos: nat): Result<Step<T>, string> {
    match r case Failure(e) => Failure(e) case Success((value, ix)) => Success(Step(value, pos, ix))
  }

  function AlignChar(a: Alignment): char {
    match a
    case AlignLeft => '<'
    case AlignRight => '>'
    case AlignCenter => '^'
    case _ => '='
  }

  function AlignText(w: Written): string {
    if w.base.align == AlignDefault then ""
    else if w.bare then [AlignChar(w.base.align)]
    else [w.base.fill, AlignChar(w.base.align)]
  }

  function SignText(spec: FormatSpec): string {
    if spec.plus then "+" else if spec.sign then " " else if spec.minus then "-" else ""
  }

  function HashText(spec: FormatSpec): string {
    if spec.hash then "#" else ""
  }

  function NestedText(ref: Ref): string {
    "{" + (RefText(ref) + "}")
  }

  function CountText(c: Count): string {
    match c case Fixed(n) => Decimal(n) case From(ref) => NestedText(ref)
  }

  function WidthText(w: Written): string {
    if w.width == Fixed(0) then "" else CountText(w.width)
  }

  function PrecisionText(w: Written): string {
    match w.precision case None => "" case Some(c) => "." + CountText(c)
  }

  function TypeText(spec: FormatSpec): string {
    if spec.typeCode == '\0' then "" else [spec.typeCode]
  }

  function ZeroText(w: Written): string {
    if w.zero then "0" else ""
  }

  const PLAIN: Written := Written(DEFAULT_SPEC, false, false, Fixed(0), None)

  function PrintSpec(w: Written): string {
    if w == PLAIN then ""
    else
      ":" + (AlignText(w) + (SignText(w.base) + (HashText(w.base) + (ZeroText(w)
      + (WidthText(w) + (PrecisionText(w) + TypeText(w.base)))))))
  }

  /** The parts between alignment and type. */
  function MiddleText(w: Written): string {
    SignText(w.base) + HashText(w.base) + ZeroText(w) + WidthText(w) + PrecisionText(w)
  }

  /** No part in front takes the type character for its own: digits continue or start a number, a
      dot starts a precision, a brace a nested width, and so on, each only where it still could. */
  predicate TypeStands(w: Written) {
    var c := w.base.typeCode;
    var early := w.precision.None? && w.width == Fixed(0);
    c == '\0' ||
    (&& c != '}'
     && (w.precision.None? ==> c != '.')
     && (w.precision.Some? && w.precision.value.Fixed? ==> !IsDigit(c))
     && (w.precision.None? && w.width.Fixed? ==> !IsDigit(c))
     && (early ==> c != '{')
     && (early && !w.zero && !w.base.hash ==> c != '#')
     && (early && !w.zero && !w.base.hash && SignText(w.base) == "" ==> c !in "+- ")
     && (w.base.align == AlignDefault && |MiddleText(w)| < 2 ==> c !in "<>=^")
     && (w.bare && MiddleText(w) == "" ==> c !in "<>=^"))
  }

  /** Specifications with one canonical text. */
  predicate WellWritten(w: Written) {
    var spec := w.base;
    && spec.width == 0 && spec.precision == -1
    && (if spec.align == AlignDefault then spec.fill == ' ' && !w.bare
        else if w.bare then spec.fill == ' ' else spec.fill !in "{}\0")
    && (spec.plus ==> spec.sign) && (spec.minus ==> !spec.sign)
    && WellFormedCount(w.width) && (w.precision.Some? ==> WellFormedCount(w.precision.value))
    && TypeStands(w)
  }

  // ----- parsing the parts -----

  lemma CharsFrom(s: string, i: nat, t: string)
    requires i <= |s| && s[i..] == t
    ensures CharAt(s, i) == CharAt(t, 0) && CharAt(s, i + 1) == CharAt(t, 1)
  {
    if i < |s| { assert s[i] == s[i..][0]; }
    if i + 1 < |s| { assert s[i + 1] == s[i..][1]; }
  }

  lemma DropPart(s: string, i: nat, part: string, rest: string)
    requires i <= |s| && s[i..] == part + rest
    ensures i + |part| <= |s| && s[i + |part|..] == rest
  {
    assert s[i..][|part|..] == s[i + |part|..];
  }

  lemma NumberFrom(s: string, i: nat, n: nat, rest: string)
    requires i <= |s| && s[i..] == Decimal(n) + rest && n <= INT_MAX && !IsDigit(CharAt(rest, 0))
    ensures ParseInt(s, i) == Success((n, i + |Decimal(n)|)) && IsDigit(CharAt(s, i))
    ensures n > 0 ==> CharAt(s, i) != '0'
  {
    assert s == s[..i] + s[i..];
    assert s[..i] + (Decimal(n) + rest) == s[..i] + Decimal(n) + rest;
    DecimalParses(s[..i], n, rest);
    DecimalDigits(n);
    FirstDigit(n);
    assert s[i] == s[i..][0];
  }

  lemma {:induction false} FirstDigit(n: nat)
    ensures n > 0 ==> Decimal(n)[0] != '0'
  {
    DigitValueOf(n % 10, false);
    if n >= 10 {
      FirstDigit(n / 10);
      assert Decimal(n) == Decimal(n / 10) + [DigitChar(n % 10, false)];
    }
  }

  /** What cannot continue a reference. */
  predicate Stops(ref: Ref, rest: string) {
    var c := CharAt(rest, 0);
    !('0' <= c <= '9') && (ref.Numbered? || !Letter(c))
  }

  /** A reference that is neither the whole field nor followed by a specification is not reported as
      what it is, unless it is a name. */
  function Reported(r: Result<(Arg, Indexing), string>, ref: Ref, rest: string): Result<(Arg, Indexing), string> {
    if r.Failure? && !ref.Named? && CharAt(rest, 0) != '}' && CharAt(rest, 0) != ':' then Failure("invalid format string") else r
  }

  lemma AutomaticFrom(args: seq<Arg>, s: string, i: nat, ix: Indexing)
    requires i <= |s| && !IsDigit(CharAt(s, i)) && !IsNameStart(CharAt(s, i))
    ensures ParseArgRef(args, s, i, ix) == Ending(Reported(Refer(args, Automatic, ix), Automatic, s[i..]), i)
  {
    CharsFrom(s, i, s[i..]);
  }

  lemma NumberedFrom(args: seq<Arg>, s: string, i: nat, ix: Indexing, n: nat, rest: string)
    requires i <= |s| && n <= INT_MAX && s[i..] == Decimal(n) + rest && !IsDigit(CharAt(rest, 0))
    ensures ParseArgRef(args, s, i, ix) == Ending(Reported(Refer(args, Numbered(n), ix), Numbered(n), rest), i + |Decimal(n)|)
  {
    hide Decimal, ParseInt;
    NumberFrom(s, i, n, rest);
    DropPart(s, i, Decimal(n), rest);
    CharsFrom(s, i + |Decimal(n)|, rest);
  }

  lemma NamedFrom(args: seq<Arg>, s: string, i: nat, ix: Indexing, name: string, rest: string)
    requires i <= |s| && IsName(name) && s[i..] == name + rest && Stops(Named(name), rest)
    ensures ParseArgRef(args, s, i, ix) == Ending(Refer(args, Named(name), ix), i + |name|)
  {
    hide FindArg, NameEnd;
    NameFrom(s, i, name, rest);
  }

  /** A reference in front of something that does not continue it. */
  lemma RefFrom(args: seq<Arg>, s: string, i: nat, ix: Indexing, ref: Ref, rest: string)
    requires i <= |s| && WellFormedRef(ref) && s[i..] == RefText(ref) + rest && Stops(ref, rest)
    ensures ParseArgRef(args, s, i, ix) == Ending(Reported(Refer(args, ref, ix), ref, rest), i + |RefText(ref)|)
  {
    hide ParseArgRef, Refer, Decimal;
    match ref
    case Automatic =>
      assert "" + rest == rest;
      CharsFrom(s, i, rest);
      AutomaticFrom(args, s, i, ix);
    case Numbered(n) => NumberedFrom(args, s, i, ix, n, rest);
    case Named(name) => NamedFrom(args, s, i, ix, name, rest);
  }

  lemma NameFrom(s: string, i: nat, name: string, rest: string)
    requires i <= |s| && IsName(name) && s[i..] == name + rest && Stops(Named(name), rest)
    ensures i < |s| && IsNameStart(CharAt(s, i)) && NameEnd(s, i + 1) == i + |name| && s[i..i + |name|] == name
  {
    DropPart(s, i, name, rest);
    CharsFrom(s, i + |name|, rest);
    assert s[i..i + |name|] == s[i..][..|name|];
    forall k | i + 1 <= k < i + |name| ensures IsNameStart(s[k]) || IsDigit(s[k]) { assert s[k] == s[i..][k - i]; }
    assert s[i] == s[i..][0];
    NameRun(s, i + 1, i + |name|);
  }

  lemma {:induction false} NameRun(s: string, j: nat, end: nat)
    requires j <= end <= |s| && !IsNameStart(CharAt(s, end)) && !IsDigit(CharAt(s, end))
    requires forall k :: j <= k < end ==> IsNameStart(s[k]) || IsDigit(s[k])
    ensures NameEnd(s, j) == end
    decreases end - j
  {
    if j < end { NameRun(s, j + 1, end); }
  }

  predicate PlainStart(t: string) {
    AlignOf(CharAt(t, 0)) == AlignDefault && AlignOf(CharAt(t, 1)) == AlignDefault && CharAt(t, 0) != '\0'
  }

  lemma AlignFrom(s: string, i: nat, w: Written, arg: Arg, rest: string)
    requires i <= |s| && s[i..] == AlignText(w) + rest && WellWritten(w)
    requires w.base.align == AlignDefault ==> PlainStart(rest)
    requires w.bare ==> CharAt(rest, 0) !in "<>=^"
    ensures ParseAlign(s, i, arg) ==
      if w.base.align == AlignNumeric && !Numeric(arg) then Failure(NumericOnly("="))
      else Success((w.base.align, w.base.fill, i + |AlignText(w)|))
  {
    hide TypeStands, WellFormedCount;
    CharsFrom(s, i, AlignText(w) + rest);
    if w.base.align == AlignDefault { assert "" + rest == rest; }
    SameMessage('=');
  }

  lemma SameMessage(c: char)
    ensures forall arg: Arg :: NeedNumeric(arg, c) == NumericOnly([c])
  {
    assert "format specifier '" + [c] + "' requires numeric argument" == "format specifier '" + ([c] + "' requires numeric argument");
  }

  lemma SignFrom(s: string, i: nat, w: Written, arg: Arg, rest: string)
    requires i <= |s| && s[i..] == SignText(w.base) + rest && WellWritten(w)
    requires SignText(w.base) == "" ==> CharAt(rest, 0) !in "+- "
    ensures ParseSign(s, i, arg) ==
      if SignText(w.base) != "" && !Numeric(arg) then Failure(NumericOnly(SignText(w.base)))
      else if SignText(w.base) != "" && (arg.kind.UintKind? || arg.kind.ULongLongKind?) then
        Failure("format specifier '" + (SignText(w.base) + "' requires signed argument"))
      else Success((SignFlags(w.base.sign, w.base.plus, w.base.minus), i + |SignText(w.base)|))
  {
    hide TypeStands, WellFormedCount, NeedNumeric, NumericOnly;
    CharsFrom(s, i, SignText(w.base) + rest);
    assert "" + rest == rest;
    var c := CharAt(SignText(w.base) + rest, 0);
    SameMessage(c);
    assert "format specifier '" + [c] + "' requires signed argument" == "format specifier '" + ([c] + "' requires signed argument");
    assert SignText(w.base) != "" ==> SignText(w.base) == [c];
  }

  lemma FlagFrom(s: string, i: nat, c: char, given: bool, arg: Arg, rest: string)
    requires i <= |s| && c != '\0' && s[i..] == (if given then [c] else "") + rest
    requires !given ==> CharAt(rest, 0) != c
    ensures ParseFlag(s, i, c, arg) ==
      if given && !Numeric(arg) then Failure(NumericOnly([c])) else Success((given, if given then i + 1 else i))
  {
    CharsFrom(s, i, (if given then [c] else "") + rest);
    assert "" + rest == rest;
    SameMessage(c);
    hide NeedNumeric, NumericOnly;
  }

  lemma SameCount(what: string)
    ensures forall arg: Arg :: CountOf(arg, what) == ArgCount(arg, what)
  {
  }

  lemma NestedFrom(args: seq<Arg>, s: string, i: nat, ix: Indexing, ref: Ref, what: string, rest: string)
    requires i <= |s| && WellFormedRef(ref) && s[i..] == NestedText(ref) + rest
    ensures CharAt(s, i) == '{' && i + |NestedText(ref)| <= |s|
    ensures ParseNested(args, s, i + 1, ix, what) == Ending(CountValue(args, From(ref), ix, what), i + |NestedText(ref)|)
  {
    hide ParseArgRef, Refer, RefText, CountOf, ArgCount;
    SameCount(what);
    var tail := "}" + rest;
    assert NestedText(ref) + rest == "{" + (RefText(ref) + tail);
    CharsFrom(s, i, "{" + (RefText(ref) + tail));
    DropPart(s, i, "{", RefText(ref) + tail);
    RefFrom(args, s, i + 1, ix, ref, tail);
    DropPart(s, i + 1, RefText(ref), tail);
    CharsFrom(s, i + 1 + |RefText(ref)|, tail);
  }

  lemma WidthFrom(args: seq<Arg>, s: string, i: nat, ix: Indexing, c: Count, text: string, rest: string)
    requires i <= |s| && WellFormedCount(c) && s[i..] == text + rest
    requires text == if c == Fixed(0) then "" else CountText(c)
    requires c.Fixed? ==> !IsDigit(CharAt(rest, 0)) && (c.n == 0 ==> CharAt(rest, 0) != '{')
    ensures ParseWidth(args, s, i, ix) == Ending(CountValue(args, c, ix, "width"), i + |text|)
  {
    hide Decimal, ParseInt, ParseNested, NestedText;
    CharsFrom(s, i, text + rest);
    match c
    case Fixed(n) => if n > 0 { NumberFrom(s, i, n, rest); } else { assert "" + rest == rest; }
    case From(ref) => NestedFrom(args, s, i, ix, ref, "width", rest);
  }

  lemma PrecisionFrom(args: seq<Arg>, s: string, i: nat, ix: Indexing, arg: Arg, w: Written, rest: string)
    requires i <= |s| && s[i..] == PrecisionText(w) + rest
    requires w.precision.Some? ==> WellFormedCount(w.precision.value)
    requires w.precision.Some? && w.precision.value.Fixed? ==> !IsDigit(CharAt(rest, 0))
    requires w.precision.None? ==> CharAt(rest, 0) != '.'
    ensures ParsePrecision(args, s, i, ix, arg) == Ending(PrecisionValue(args, w, ix, arg), i + |PrecisionText(w)|)
  {
    hide Decimal, ParseInt, ParseNested, NestedText, ArgCount, Refer;
    CharsFrom(s, i, PrecisionText(w) + rest);
    PrecisionMessages();
    match w.precision
    case None => assert "" + rest == rest;
    case Some(c) =>
      assert PrecisionText(w) + rest == "." + (CountText(c) + rest);
      DropPart(s, i, ".", CountText(c) + rest);
      match c {
        case Fixed(n) => NumberFrom(s, i + 1, n, rest);
        case From(ref) => NestedFrom(args, s, i + 1, ix, ref, "precision", rest);
      }
  }

  lemma PrecisionMessages()
    ensures "precision not allowed in " + "pointer" + " format specifier" == "precision not allowed in pointer format specifier"
    ensures "precision not allowed in " + "integer" + " format specifier" == "precision not allowed in integer format specifier"
  {
  }

  /** Where the parts of a printed specification lie. */
  lemma PartsFrom(s: string, i: nat, a: string, b: string, c: string, rest: string)
    requires i <= |s| && s[i..] == a + (b + (c + rest))
    ensures var j := i + |a|; var k := j + |b|; var l := k + |c|;
      l <= |s| && s[j..] == b + (c + rest) && s[k..] == c + rest && s[l..] == rest
  {
    DropPart(s, i, a, b + (c + rest));
    DropPart(s, i + |a|, b, c + rest);
    DropPart(s, i + |a| + |b|, c, rest);
  }

  /** The text behind the flags, up to and including what closes the specification. */
  function CountsText(w: Written, close: string): string {
    WidthText(w) + (PrecisionText(w) + (TypeText(w.base) + close))
  }

  /** What may stand behind a specification: its brace, or anything if a type character ends it. */
  predicate Closes(w: Written, close: string) {
    && (w.base.typeCode == '\0' ==> CharAt(close, 0) == '}')
    && (w.base.align == AlignDefault && MiddleText(w) == "" ==> CharAt(close, 0) !in "<>=^")
  }

  lemma TypeStart(spec: FormatSpec, rest: string)
    ensures CharAt(TypeText(spec) + rest, 0) == if spec.typeCode == '\0' then CharAt(rest, 0) else spec.typeCode
  {
    assert "" + rest == rest;
  }

  lemma PrecisionStart(w: Written, rest: string)
    ensures CharAt(PrecisionText(w) + rest, 0) == if w.precision.Some? then '.' else CharAt(rest, 0)
  {
    assert "" + rest == rest;
  }

  lemma WidthStart(w: Written, rest: string)
    ensures var c := CharAt(WidthText(w) + rest, 0);
      if w.width == Fixed(0) then c == CharAt(rest, 0)
      else if w.width.Fixed? then IsDigit(c) && c != '0' else c == '{'
  {
    assert "" + rest == rest;
    if w.width.Fixed? && w.width.n > 0 {
      FirstDigit(w.width.n);
      DecimalDigits(w.width.n);
    }
  }

  /** The specification without its counts and type, as the parser has it then. */
  function Bare(w: Written): FormatSpec {
    ZeroFilled(w).(typeCode := '\0')
  }

  lemma CountsCompose(args: seq<Arg>, s: string, i: nat, ix: Indexing, arg: Arg, w: Written, j: nat, k: nat)
    requires i <= j <= k <= |s|
    requires ParseWidth(args, s, i, ix) == Ending(CountValue(args, w.width, ix, "width"), j)
    requires var r := CountValue(args, w.width, ix, "width");
      r.Success? ==> ParsePrecision(args, s, j, r.value.1, arg) == Ending(PrecisionValue(args, w, r.value.1, arg), k)
    requires if w.base.typeCode == '\0' then CharAt(s, k) == '}' else CharAt(s, k) == w.base.typeCode != '}'
    ensures ParseCounts(args, s, i, ix, arg, Bare(w))
      == Ending(Counted(args, w, ix, arg), if w.base.typeCode == '\0' then k else k + 1)
  {
    hide ParseWidth, ParsePrecision, CountValue, PrecisionValue;
  }

  lemma CountsFrom(args: seq<Arg>, s: string, i: nat, ix: Indexing, arg: Arg, w: Written, close: string)
    requires i <= |s| && WellWritten(w) && Closes(w, close) && s[i..] == CountsText(w, close)
    ensures var end := i + |WidthText(w)| + |PrecisionText(w)| + |TypeText(w.base)|;
      ParseCounts(args, s, i, ix, arg, Bare(w)) == Ending(Counted(args, w, ix, arg), end)
  {
    hide ParseWidth, ParsePrecision, ParseCounts, Counted, CountValue, PrecisionValue, WidthText, PrecisionText,
      WellFormedCount, Bare, MiddleText;
    var r5 := TypeText(w.base) + close;
    var r4 := PrecisionText(w) + r5;
    TypeStart(w.base, close);
    PrecisionStart(w, r5);
    PartsFrom(s, i, WidthText(w), PrecisionText(w), TypeText(w.base), close);
    var j := i + |WidthText(w)|;
    var k := j + |PrecisionText(w)|;
    WidthParsed(args, s, i, ix, w, r4);
    var r := CountValue(args, w.width, ix, "width");
    if r.Success? { PrecisionFrom(args, s, j, r.value.1, arg, w, r5); }
    CharsFrom(s, k, r5);
    CountsCompose(args, s, i, ix, arg, w, j, k);
  }

  lemma WidthParsed(args: seq<Arg>, s: string, i: nat, ix: Indexing, w: Written, rest: string)
    requires i <= |s| && WellFormedCount(w.width) && s[i..] == WidthText(w) + rest
    requires w.width.Fixed? ==> !IsDigit(CharAt(rest, 0)) && (w.width.n == 0 ==> CharAt(rest, 0) != '{')
    ensures ParseWidth(args, s, i, ix) == Ending(CountValue(args, w.width, ix, "width"), i + |WidthText(w)|)
  {
    hide ParseWidth, CountValue;
    WidthFrom(args, s, i, ix, w.width, WidthText(w), rest);
  }

  // ----- no part starts like an alignment -----

  predicate PlainText(t: string) {
    forall i :: 0 <= i < |t| ==> AlignOf(t[i]) == AlignDefault && t[i] != '\0'
  }

  lemma PlainConcat(a: string, b: string)
    requires PlainText(a) && PlainText(b)
    ensures PlainText(a + b)
  {
  }

  lemma PlainRef(ref: Ref)
    requires WellFormedRef(ref)
    ensures PlainText(NestedText(ref))
  {
    if ref.Numbered? { DecimalDigits(ref.n); }
    assert PlainText(RefText(ref));
    PlainConcat(RefText(ref), "}");
    PlainConcat("{", RefText(ref) + "}");
  }

  lemma PlainCount(c: Count)
    requires WellFormedCount(c)
    ensures PlainText(CountText(c))
  {
    match c
    case Fixed(n) => DecimalDigits(n);
    case From(ref) => PlainRef(ref);
  }

  lemma PlainMiddle(w: Written)
    requires WellWritten(w)
    ensures PlainText(MiddleText(w))
  {
    hide TypeStands, CountText, WellFormedCount;
    PlainCount(w.width);
    if w.precision.Some? {
      PlainCount(w.precision.value);
      PlainConcat(".", CountText(w.precision.value));
    }
    PlainConcat(SignText(w.base), HashText(w.base));
    PlainConcat(SignText(w.base) + HashText(w.base), ZeroText(w));
    PlainConcat(SignText(w.base) + HashText(w.base) + ZeroText(w), WidthText(w));
    PlainConcat(SignText(w.base) + HashText(w.base) + ZeroText(w) + WidthText(w), PrecisionText(w));
  }

  lemma MiddleEmpty(w: Written)
    requires WellWritten(w) && w.base.align == AlignDefault && MiddleText(w) == "" && w.base.typeCode == '\0'
    ensures w == PLAIN
  {
    hide TypeStands, WellFormedCount;
    assert |MiddleText(w)| == |SignText(w.base)| + |HashText(w.base)| + |ZeroText(w)| + |WidthText(w)| + |PrecisionText(w)|;
    assert w.base == DEFAULT_SPEC;
    assert w.width == Fixed(0) by { if w.width != Fixed(0) { CountTextLong(w.width); } }
  }

  lemma CountTextLong(c: Count)
    ensures CountText(c) != ""
  {
    if c.Fixed? { DecimalDigits(c.n); }
  }

  lemma StartsPlain(middle: string, t: char, close: string)
    requires PlainText(middle) && (t == '\0' || |middle| >= 2 || AlignOf(t) == AlignDefault) && (middle != "" || t != '\0')
    requires t == '\0' ==> CharAt(close, 0) == '}'
    requires middle == "" ==> AlignOf(CharAt(close, 0)) == AlignDefault
    ensures PlainStart(middle + ((if t == '\0' then "" else [t]) + close))
  {
    var r := (if t == '\0' then "" else [t]) + close;
    if t == '\0' { assert r == close; }
    if middle == "" { assert middle + r == r; }
  }

  /** A printed body in front of what closes it never starts like an alignment. */
  lemma BodyIsPlain(w: Written, close: string)
    requires WellWritten(w) && Closes(w, close) && w.base.align == AlignDefault && w != PLAIN
    ensures PlainStart(SignText(w.base) + (HashText(w.base) + (ZeroText(w) + CountsText(w, close))))
  {
    PlainMiddle(w);
    if MiddleText(w) == "" && w.base.typeCode == '\0' { MiddleEmpty(w); }
    hide PlainText, PlainStart, SignText, HashText, ZeroText, WidthText, PrecisionText, WellFormedCount;
    StartsPlain(MiddleText(w), w.base.typeCode, close);
    SixParts(SignText(w.base), HashText(w.base), ZeroText(w), WidthText(w), PrecisionText(w), TypeText(w.base) + close);
  }

  lemma BareStart(middle: string, t: char, close: string)
    requires PlainText(middle) && (middle == "" ==> t !in "<>=^") && (t == '\0' ==> CharAt(close, 0) == '}')
    ensures CharAt(middle + ((if t == '\0' then "" else [t]) + close), 0) !in "<>=^"
  {
    var r := (if t == '\0' then "" else [t]) + close;
    if t == '\0' { assert r == close; }
    if middle == "" { assert middle + r == r; }
  }

  /** Nor does what follows a bare alignment. */
  lemma BareIsPlain(w: Written, close: string)
    requires WellWritten(w) && Closes(w, close) && w.bare
    ensures CharAt(SignText(w.base) + (HashText(w.base) + (ZeroText(w) + CountsText(w, close))), 0) !in "<>=^"
  {
    PlainMiddle(w);
    hide PlainText, SignText, HashText, ZeroText, WidthText, PrecisionText, WellFormedCount;
    BareStart(MiddleText(w), w.base.typeCode, close);
    SixParts(SignText(w.base), HashText(w.base), ZeroText(w), WidthText(w), PrecisionText(w), TypeText(w.base) + close);
  }

  lemma SixParts(a: string, b: string, c: string, d: string, e: string, f: string)
    ensures (a + b + c + d + e) + f == a + (b + (c + (d + (e + f))))
  {
  }

  lemma BodyCompose(args: seq<Arg>, s: string, i: nat, ix: Indexing, arg: Arg, w: Written, j: nat, k: nat, l: nat, m: nat, end: nat)
    requires i <= j <= k <= l <= m <= end <= |s| && w.base.width == 0 && w.base.precision == -1
    requires ParseAlign(s, i, arg) ==
      if w.base.align == AlignNumeric && !Numeric(arg) then Failure(NumericOnly("=")) else Success((w.base.align, w.base.fill, j))
    requires ParseSign(s, j, arg) ==
      if SignText(w.base) != "" && !Numeric(arg) then Failure(NumericOnly(SignText(w.base)))
      else if SignText(w.base) != "" && (arg.kind.UintKind? || arg.kind.ULongLongKind?) then
        Failure("format specifier '" + (SignText(w.base) + "' requires signed argument"))
      else Success((SignFlags(w.base.sign, w.base.plus, w.base.minus), k))
    requires ParseFlag(s, k, '#', arg) == if w.base.hash && !Numeric(arg) then Failure(NumericOnly("#")) else Success((w.base.hash, l))
    requires ParseFlag(s, l, '0', arg) == if w.zero && !Numeric(arg) then Failure(NumericOnly("0")) else Success((w.zero, m))
    requires ParseCounts(args, s, m, ix, arg, Bare(w)) == Ending(Counted(args, w, ix, arg), end)
    ensures ParseSpecBody(args, s, i, ix, arg) == Ending(Resolve(args, w, ix, arg), end)
  {
    hide ParseAlign, ParseSign, ParseFlag, ParseCounts, Counted, NumericOnly, Numeric, SignText;
    assert Bare(w) == FormatSpec(0, if w.zero then '0' else w.base.fill, if w.zero then AlignNumeric else w.base.align,
                                 w.base.sign, w.base.plus, w.base.minus, w.base.hash, -1, '\0');
  }

  lemma BodyStart(w: Written, close: string)
    requires WellWritten(w) && Closes(w, close)
    ensures !w.zero ==> CharAt(CountsText(w, close), 0) != '0'
    ensures !w.base.hash ==> CharAt(ZeroText(w) + CountsText(w, close), 0) != '#'
    ensures SignText(w.base) == "" ==> CharAt(HashText(w.base) + (ZeroText(w) + CountsText(w, close)), 0) !in "+- "
  {
    hide WidthText, PrecisionText, TypeText, SignText, WellFormedCount, MiddleText;
    TypeStart(w.base, close);
    PrecisionStart(w, TypeText(w.base) + close);
    WidthStart(w, PrecisionText(w) + (TypeText(w.base) + close));
    OptionalStart(w.zero, '0', CountsText(w, close));
    OptionalStart(w.base.hash, '#', ZeroText(w) + CountsText(w, close));
  }

  lemma OptionalStart(given: bool, c: char, rest: string)
    ensures CharAt((if given then [c] else "") + rest, 0) == if given then c else CharAt(rest, 0)
  {
    assert "" + rest == rest;
  }

  lemma FlagTexts(w: Written)
    ensures HashText(w.base) == (if w.base.hash then ['#'] else "") && ZeroText(w) == if w.zero then ['0'] else ""
  {
  }

  /** The four parts in front of the width, one by one. */
  lemma HeadFrom(s: string, i: nat, arg: Arg, w: Written, close: string)
    requires i <= |s| && WellWritten(w) && Closes(w, close) && w != PLAIN
    requires s[i..] == AlignText(w) + (SignText(w.base) + (HashText(w.base) + (ZeroText(w) + CountsText(w, close))))
    ensures var j := i + |AlignText(w)|; var k := j + |SignText(w.base)|; var l := k + |HashText(w.base)|; var m := l + |ZeroText(w)|;
      && m <= |s| && s[m..] == CountsText(w, close)
      && ParseAlign(s, i, arg) ==
        (if w.base.align == AlignNumeric && !Numeric(arg) then Failure(NumericOnly("=")) else Success((w.base.align, w.base.fill, j)))
      && ParseSign(s, j, arg) ==
        (if SignText(w.base) != "" && !Numeric(arg) then Failure(NumericOnly(SignText(w.base)))
         else if SignText(w.base) != "" && (arg.kind.UintKind? || arg.kind.ULongLongKind?) then
           Failure("format specifier '" + (SignText(w.base) + "' requires signed argument"))
         else Success((SignFlags(w.base.sign, w.base.plus, w.base.minus), k)))
      && ParseFlag(s, k, '#', arg) == (if w.base.hash && !Numeric(arg) then Failure(NumericOnly("#")) else Success((w.base.hash, l)))
      && ParseFlag(s, l, '0', arg) == (if w.zero && !Numeric(arg) then Failure(NumericOnly("0")) else Success((w.zero, m)))
  {
    FlagTexts(w);
    hide *;
    var r4 := CountsText(w, close);
    var r3 := ZeroText(w) + r4;
    var r2 := HashText(w.base) + r3;
    var r1 := SignText(w.base) + r2;
    PartsFrom(s, i, AlignText(w), SignText(w.base), HashText(w.base), r3);
    BodyStart(w, close);
    if w.base.align == AlignDefault { BodyIsPlain(w, close); }
    if w.bare { BareIsPlain(w, close); }
    AlignFrom(s, i, w, arg, r1);
    var j := i + |AlignText(w)|;
    var k := j + |SignText(w.base)|;
    SignFrom(s, j, w, arg, r2);
    FlagFrom(s, k, '#', w.base.hash, arg, r3);
    DropPart(s, k + |HashText(w.base)|, ZeroText(w), r4);
    FlagFrom(s, k + |HashText(w.base)|, '0', w.zero, arg, r4);
  }

  lemma BodyFrom(args: seq<Arg>, s: string, i: nat, ix: Indexing, arg: Arg, w: Written, close: string)
    requires i <= |s| && WellWritten(w) && Closes(w, close) && w != PLAIN
    requires s[i..] == AlignText(w) + (SignText(w.base) + (HashText(w.base) + (ZeroText(w) + CountsText(w, close))))
    ensures var end := i + |AlignText(w)| + |SignText(w.base)| + |HashText(w.base)| + |ZeroText(w)|
              + |WidthText(w)| + |PrecisionText(w)| + |TypeText(w.base)|;
      ParseSpecBody(args, s, i, ix, arg) == Ending(Resolve(args, w, ix, arg), end)
  {
    hide *;
    HeadFrom(s, i, arg, w, close);
    var j := i + |AlignText(w)|;
    var k := j + |SignText(w.base)|;
    var l := k + |HashText(w.base)|;
    var m := l + |ZeroText(w)|;
    WrittenBase(w);
    CountsEnd(s, m, w, close);
    CountsFrom(args, s, m, ix, arg, w, close);
    BodyCompose(args, s, i, ix, arg, w, j, k, l, m, m + |WidthText(w)| + |PrecisionText(w)| + |TypeText(w.base)|);
  }

  lemma WrittenBase(w: Written)
    requires WellWritten(w)
    ensures w.base.width == 0 && w.base.precision == -1
  {
  }

  lemma CountsEnd(s: string, l: nat, w: Written, close: string)
    requires l <= |s| && s[l..] == CountsText(w, close)
    ensures l + |WidthText(w)| + |PrecisionText(w)| + |TypeText(w.base)| <= |s|
  {
    hide WidthText, PrecisionText, TypeText;
  }

  /** Behind a specification comes its brace, or the field is not closed. */
  function Closed(r: Result<(FormatSpec, Indexing), string>, close: string): Result<(FormatSpec, Indexing), string> {
    if r.Success? && CharAt(close, 0) != '}' then Failure("missing '}' in format string") else r
  }

  /** Parsing a printed specification gives what it means for the argument, or the objection to it,
      errors of its nested references included, and stops right behind its brace. */
  lemma SpecRoundTrip(args: seq<Arg>, s: string, i: nat, ix: Indexing, arg: Arg, w: Written, close: string)
    requires i <= |s| && WellWritten(w) && Closes(w, close) && s[i..] == PrintSpec(w) + close
    ensures ParseSpec(args, s, i, ix, arg) == Ending(Closed(Resolve(args, w, ix, arg), close), i + |PrintSpec(w)| + 1)
  {
    hide ParseSpec, Resolve, WellWritten, Closes, Closed, AlignText, SignText, HashText, ZeroText, WidthText, PrecisionText, TypeText;
    if w == PLAIN {
      PlainPrinted(close);
      PlainRoundTrip(args, s, i, ix, arg, close);
    } else {
      WrittenRoundTrip(args, s, i, ix, arg, w, close);
    }
  }

  lemma WrittenRoundTrip(args: seq<Arg>, s: string, i: nat, ix: Indexing, arg: Arg, w: Written, close: string)
    requires i <= |s| && WellWritten(w) && Closes(w, close) && w != PLAIN && s[i..] == PrintSpec(w) + close
    ensures ParseSpec(args, s, i, ix, arg) == Ending(Closed(Resolve(args, w, ix, arg), close), i + |PrintSpec(w)| + 1)
  {
    hide *;
    var body := AlignText(w) + (SignText(w.base) + (HashText(w.base) + (ZeroText(w) + CountsText(w, close))));
    PrintedBody(w, close);
    DropPart(s, i, ":", body);
    CharsFrom(s, i, ":" + body);
    BodyFrom(args, s, i + 1, ix, arg, w, close);
    DropPart(s, i, PrintSpec(w), close);
    CharsFrom(s, i + |PrintSpec(w)|, close);
    ColonFirst(body);
    SpecCompose(args, s, i, ix, arg, Resolve(args, w, ix, arg), i + |PrintSpec(w)|, close);
  }

  lemma PlainPrinted(close: string)
    ensures PrintSpec(PLAIN) == "" && "" + close == close
    ensures Closes(PLAIN, close) ==> CharAt(close, 0) == '}'
  {
  }

  lemma ColonFirst(body: string)
    ensures CharAt(":" + body, 0) == ':' && |":"| == 1
  {
  }

  lemma SpecCompose(args: seq<Arg>, s: string, i: nat, ix: Indexing, arg: Arg,
                    r: Result<(FormatSpec, Indexing), string>, end: nat, close: string)
    requires i < |s| && CharAt(s, i) == ':' && ParseSpecBody(args, s, i + 1, ix, arg) == Ending(r, end)
    requires r.Success? ==> end <= |s| && CharAt(s, end) == CharAt(close, 0)
    ensures ParseSpec(args, s, i, ix, arg) == Ending(Closed(r, close), end + 1)
  {
    hide ParseSpecBody;
  }

  lemma PlainRoundTrip(args: seq<Arg>, s: string, i: nat, ix: Indexing, arg: Arg, close: string)
    requires i <= |s| && CharAt(close, 0) == '}' && s[i..] == close
    ensures ParseSpec(args, s, i, ix, arg) == Ending(Closed(Resolve(args, PLAIN, ix, arg), close), i + 1)
  {
    CharsFrom(s, i, close);
    PlainResolved(args, ix, arg);
    hide ParseSpecBody, Resolve;
  }

  /** An empty specification: the lookahead for the alignment sees the text behind the field, so that
      text aligns it. */
  lemma EmptySpec(args: seq<Arg>, s: string, i: nat, ix: Indexing, arg: Arg, rest: string)
    requires i <= |s| && s[i..] == ":}" + rest
    ensures var c := CharAt(rest, 0);
      var align := if c == '<' then AlignLeft else if c == '>' then AlignRight
                   else if c == '^' then AlignCenter else if c == '=' then AlignNumeric else AlignDefault;
      ParseSpec(args, s, i, ix, arg) == Success(Step(DEFAULT_SPEC.(align := align), i + 2, ix))
  {
    assert ":}" + rest == ":" + ("}" + rest) && ("}" + rest)[1..] == rest;
    DropPart(s, i, ":}", rest);
    DropPart(s, i, ":", "}" + rest);
    CharsFrom(s, i, ":}" + rest);
    CharsFrom(s, i + 1, "}" + rest);
    CharsFrom(s, i + 2, rest);
  }

  /** The zero flag, whatever alignment and fill came first: zeros behind the sign, for numbers only. */
  lemma ZeroFlag(args: seq<Arg>, s: string, i: nat, ix: Indexing, arg: Arg, w: Written, rest: string)
    requires i <= |s| && WellWritten(w) && w.zero && s[i..] == PrintSpec(w) + ("}" + rest)
    ensures var r := ParseSpec(args, s, i, ix, arg);
      && (r.Success? ==> r.value.value.fill == '0' && r.value.value.align == AlignNumeric)
      && (arg.kind.StringKind? || arg.kind.PointerKind? ==> r.Failure?)
      && ((arg.kind.StringKind? || arg.kind.PointerKind?) && w.base.align == AlignDefault && SignText(w.base) == "" && !w.base.hash ==>
           r == Failure("format specifier '" + ("0" + "' requires numeric argument")))
  {
    hide ParseSpec, PrintSpec, WellWritten, MiddleText;
    assert CharAt("}" + rest, 0) == '}';
    SpecRoundTrip(args, s, i, ix, arg, w, "}" + rest);
  }

  lemma PlainResolved(args: seq<Arg>, ix: Indexing, arg: Arg)
    ensures Resolve(args, PLAIN, ix, arg) == Success((DEFAULT_SPEC, ix))
  {
  }

  lemma PrintedBody(w: Written, close: string)
    requires w != PLAIN
    ensures PrintSpec(w) + close
      == ":" + (AlignText(w) + (SignText(w.base) + (HashText(w.base) + (ZeroText(w) + CountsText(w, close)))))
    ensures |PrintSpec(w)| == 1 + |AlignText(w)| + |SignText(w.base)| + |HashText(w.base)| + |ZeroText(w)|
              + |WidthText(w)| + |PrecisionText(w)| + |TypeText(w.base)|
  {
    hide AlignText, SignText, HashText, ZeroText, WidthText, PrecisionText, TypeText;
  }

  // ----- whole templates -----

  datatype Token = Ch(c: char) | Fd(ref: Ref, w: Written)

  function FieldText(ref: Ref, w: Written): string {
    "{" + (RefText(ref) + (PrintSpec(w) + "}"))
  }

  function PrintToken(token: Token): string {
    match token
    case Ch(c) => if c == '{' || c == '}' then [c, c] else [c]
    case Fd(ref, w) => FieldText(ref, w)
  }

  function PrintTokens(tokens: seq<Token>): string {
    if tokens == [] then "" else PrintToken(tokens[0]) + PrintTokens(tokens[1..])
  }

  /** Output with the text pieces taken apart: characters and formatted arguments. */
  datatype Atom = Character(c: char) | Formatted(arg: Arg, spec: FormatSpec)

  /** What a field stands for, its own reference taken before those inside it. */
  function FieldMeaning(args: seq<Arg>, ref: Ref, w: Written, ix: Indexing): Result<((Arg, FormatSpec), Indexing), string> {
    match Refer(args, ref, ix)
    case Failure(e) => Failure(e)
    case Success((arg, ix1)) =>
      match Resolve(args, w, ix1, arg)
      case Failure(e) => Failure(e)
      case Success((spec, ix2)) => Success(((arg, spec), ix2))
  }

  /** What a template stands for, or the error of its first reference that has no argument. */
  function Meaning(args: seq<Arg>, tokens: seq<Token>, ix: Indexing): Result<(seq<Atom>, Indexing), string> {
    if tokens == [] then Success(([], ix))
    else
      match tokens[0]
      case Ch(c) => Ahead(Character(c), Meaning(args, tokens[1..], ix))
      case Fd(ref, w) =>
        match FieldMeaning(args, ref, w, ix)
        case Failure(e) => Failure(e)
        case Success(((arg, spec), ix')) => Ahead(Formatted(arg, spec), Meaning(args, tokens[1..], ix'))
  }

  function Ahead(atom: Atom, rest: Result<(seq<Atom>, Indexing), string>): Result<(seq<Atom>, Indexing), string> {
    match rest case Failure(e) => Failure(e) case Success((atoms, ix)) => Success(([atom] + atoms, ix))
  }

  predicate WellFormedTokens(tokens: seq<Token>) {
    forall k :: 0 <= k < |tokens| ==>
      match tokens[k]
      case Ch(c) => c != '\0'
      case Fd(ref, w) => WellFormedRef(ref) && WellWritten(w)
  }

  function Chars(s: string): (r: seq<Atom>)
    ensures |r| == |s| && forall i :: 0 <= i < |s| ==> r[i] == Character(s[i])
  {
    seq(|s|, i requires 0 <= i < |s| => Character(s[i]))
  }

  function Atoms(pieces: seq<Piece>): seq<Atom> {
    if pieces == [] then []
    else
      (match pieces[0]
       case Text(text) => Chars(text)
       case Field(arg, spec) => [Formatted(arg, spec)])
      + Atoms(pieces[1..])
  }

  lemma PrintSpecStart(w: Written, close: string)
    ensures CharAt(PrintSpec(w) + close, 0) == if w == PLAIN then CharAt(close, 0) else ':'
  {
    hide AlignText, SignText, HashText, ZeroText, WidthText, PrecisionText, TypeText;
    assert "" + close == close;
  }

  lemma RefStart(ref: Ref, rest: string)
    requires WellFormedRef(ref) && CharAt(rest, 0) != '{'
    ensures CharAt(RefText(ref) + rest, 0) != '{'
  {
    assert "" + rest == rest;
    if ref.Numbered? { DecimalDigits(ref.n); }
  }

  /** A printed field in front of what closes it. */
  lemma FieldFrom(args: seq<Arg>, s: string, i: nat, ix: Indexing, ref: Ref, w: Written, close: string)
    requires i <= |s| && s[i..] == "{" + (RefText(ref) + (PrintSpec(w) + close)) && WellFormedRef(ref)
    requires WellWritten(w) && Closes(w, close) && (w == PLAIN ==> CharAt(close, 0) == '}')
    ensures i < |s| && s[i] == '{' && CharAt(s, i + 1) != '{'
    ensures ParseField(args, s, i + 1, ix) ==
      match Refer(args, ref, ix)
      case Failure(e) => Failure(e)
      case Success((arg, ix1)) =>
        match Closed(Resolve(args, w, ix1, arg), close)
        case Failure(e) => Failure(e)
        case Success((spec, ix2)) => Success(Step(Field(arg, spec), i + 1 + |RefText(ref)| + |PrintSpec(w)| + 1, ix2))
  {
    hide ParseSpec, ParseArgRef, WellWritten, PrintSpec, RefText, Refer, Resolve, WellFormedRef, Closed, MiddleText;
    var inner := PrintSpec(w) + close;
    PrintSpecStart(w, close);
    RefStart(ref, inner);
    CharsFrom(s, i, "{" + (RefText(ref) + inner));
    DropPart(s, i, "{", RefText(ref) + inner);
    CharsFrom(s, i + 1, RefText(ref) + inner);
    RefFrom(args, s, i + 1, ix, ref, inner);
    if Refer(args, ref, ix).Success? {
      var (arg, ix1) := Refer(args, ref, ix).value;
      DropPart(s, i + 1, RefText(ref), inner);
      SpecRoundTrip(args, s, i + 1 + |RefText(ref)|, ix1, arg, w, close);
    }
  }

  lemma PrintedField(args: seq<Arg>, s: string, i: nat, ix: Indexing, ref: Ref, w: Written, rest: string)
    requires i <= |s| && s[i..] == FieldText(ref, w) + rest && WellFormedRef(ref) && WellWritten(w)
    ensures i < |s| && s[i] == '{' && CharAt(s, i + 1) != '{'
    ensures ParseField(args, s, i + 1, ix) ==
      match FieldMeaning(args, ref, w, ix)
      case Failure(e) => Failure(e)
      case Success(((arg, spec), ix')) => Success(Step(Field(arg, spec), i + |FieldText(ref, w)|, ix'))
  {
    hide ParseField, WellWritten, PrintSpec, RefText, Refer, Resolve, WellFormedRef, MiddleText;
    var close := "}" + rest;
    assert FieldText(ref, w) + rest == "{" + (RefText(ref) + (PrintSpec(w) + close));
    assert CharAt(close, 0) == '}';
    FieldFrom(args, s, i, ix, ref, w, close);
  }

  lemma AtomsOfText(text: string, more: seq<Piece>)
    ensures Atoms([Text(text)] + more) == Chars(text) + Atoms(more)
  {
    assert ([Text(text)] + more)[1..] == more;
  }

  lemma AtomsOfField(text: string, arg: Arg, spec: FormatSpec, more: seq<Piece>)
    ensures Atoms([Text(text), Field(arg, spec)] + more) == Chars(text) + ([Formatted(arg, spec)] + Atoms(more))
  {
    var field := [Field(arg, spec)] + more;
    assert [Text(text), Field(arg, spec)] + more == [Text(text)] + field;
    AtomsOfText(text, field);
    assert field[1..] == more;
  }

  lemma OneMoreChar(s: string, start: nat, i: nat)
    requires start <= i < |s|
    ensures Chars(s[start..i + 1]) == Chars(s[start..i]) + [Character(s[i])]
  {
  }

  /** From position i on, with the text since `start` pending, formatting yields that text and what
      `meaning` says, or its error. */
  predicate Formats(args: seq<Arg>, s: string, start: nat, i: nat, ix: Indexing, meaning: Result<(seq<Atom>, Indexing), string>)
    requires start <= i <= |s|
  {
    var r := FormatFrom(args, s, start, i, ix);
    match meaning
    case Failure(e) => r == Failure(e)
    case Success((atoms, end)) => r.Success? && r.value.1 == end && Atoms(r.value.0) == Chars(s[start..i]) + atoms
  }

  lemma EndStep(args: seq<Arg>, s: string, start: nat, ix: Indexing)
    requires start <= |s|
    ensures Formats(args, s, start, |s|, ix, Success(([], ix)))
  {
    AtomsOfText(s[start..|s|], []);
  }

  /** Whatever text is pending, from position p on formatting yields `last`. */
  ghost predicate Continues(args: seq<Arg>, s: string, p: nat, ix: Indexing, last: Result<(seq<Atom>, Indexing), string>) {
    p <= |s| && forall start :: 0 <= start <= p ==> Formats(args, s, start, p, ix, last)
  }

  /** One meaning after the other. */
  function Followed(m: Result<(seq<Atom>, Indexing), string>, last: Result<(seq<Atom>, Indexing), string>): Result<(seq<Atom>, Indexing), string> {
    match m
    case Failure(e) => Failure(e)
    case Success((atoms, _)) => match last case Failure(e) => Failure(e) case Success((more, ix)) => Success((atoms + more, ix))
  }

  lemma FollowedAhead(atom: Atom, m: Result<(seq<Atom>, Indexing), string>, last: Result<(seq<Atom>, Indexing), string>)
    ensures Followed(Ahead(atom, m), last) == Ahead(atom, Followed(m, last))
  {
    if m.Success? && last.Success? { assert ([atom] + m.value.0) + last.value.0 == [atom] + (m.value.0 + last.value.0); }
  }

  lemma FollowedNothing(ix: Indexing, last: Result<(seq<Atom>, Indexing), string>)
    ensures Followed(Success(([], ix)), last) == last
  {
    if last.Success? { assert [] + last.value.0 == last.value.0; }
  }

  lemma BraceStep(args: seq<Arg>, s: string, start: nat, i: nat, ix: Indexing, meaning: Result<(seq<Atom>, Indexing), string>)
    requires start <= i < i + 2 <= |s| && s[i] == s[i + 1] && (s[i] == '{' || s[i] == '}')
    requires Formats(args, s, i + 2, i + 2, ix, meaning)
    ensures Formats(args, s, start, i, ix, Ahead(Character(s[i]), meaning))
  {
    hide ParseField, Atoms;
    if meaning.Success? { AtomsOfText(s[start..i + 1], FormatFrom(args, s, i + 2, i + 2, ix).value.0); }
    OneMoreChar(s, start, i);
  }

  lemma PlainStep(args: seq<Arg>, s: string, start: nat, i: nat, ix: Indexing, meaning: Result<(seq<Atom>, Indexing), string>)
    requires start <= i < |s| && s[i] != '{' && s[i] != '}' && s[i] != '\0'
    requires Formats(args, s, start, i + 1, ix, meaning)
    ensures Formats(args, s, start, i, ix, Ahead(Character(s[i]), meaning))
  {
    hide ParseField, Atoms;
    OneMoreChar(s, start, i);
  }

  lemma FieldStep(args: seq<Arg>, s: string, start: nat, i: nat, ix: Indexing, arg: Arg, spec: FormatSpec, j: nat, ix': Indexing,
                  meaning: Result<(seq<Atom>, Indexing), string>)
    requires start <= i < j <= |s| && s[i] == '{' && CharAt(s, i + 1) != '{'
    requires ParseField(args, s, i + 1, ix) == Success(Step(Field(arg, spec), j, ix'))
    requires Formats(args, s, j, j, ix', meaning)
    ensures Formats(args, s, start, i, ix, Ahead(Formatted(arg, spec), meaning))
  {
    hide ParseField, Atoms;
    if meaning.Success? { AtomsOfField(s[start..i], arg, spec, FormatFrom(args, s, j, j, ix').value.0); }
  }

  lemma FieldFails(args: seq<Arg>, s: string, start: nat, i: nat, ix: Indexing, error: string)
    requires start <= i < |s| && s[i] == '{' && CharAt(s, i + 1) != '{' && ParseField(args, s, i + 1, ix) == Failure(error)
    ensures Formats(args, s, start, i, ix, Failure(error))
  {
    hide ParseField, Atoms;
  }

  lemma CharToken(s: string, i: nat, c: char, rest: string)
    requires i <= |s| && s[i..] == PrintToken(Ch(c)) + rest
    ensures i < |s| && s[i] == c
    ensures if c == '{' || c == '}' then i + 2 <= |s| && s[i + 1] == c && s[i + 2..] == rest else s[i + 1..] == rest
  {
    DropPart(s, i, PrintToken(Ch(c)), rest);
    CharsFrom(s, i, PrintToken(Ch(c)) + rest);
  }

  /** Formatting a printed template in front of the position p, from where `last` is known. */
  lemma {:induction false} TemplateFrom(args: seq<Arg>, s: string, start: nat, i: nat, ix: Indexing, tokens: seq<Token>,
                                        p: nat, last: Result<(seq<Atom>, Indexing), string>)
    requires start <= i <= p <= |s| && WellFormedTokens(tokens) && s[i..] == PrintTokens(tokens) + s[p..]
    requires var m := Meaning(args, tokens, ix); m.Success? ==> Continues(args, s, p, m.value.1, last)
    ensures Formats(args, s, start, i, ix, Followed(Meaning(args, tokens, ix), last))
    decreases |tokens|
  {
    hide ParseField, WellWritten, PrintToken, FieldText, Formats, FormatFrom, FieldMeaning, Refer, WellFormedRef, Ahead, Followed;
    if tokens == [] {
      assert "" + s[p..] == s[p..];
      FollowedNothing(ix, last);
    } else {
      var rest := PrintTokens(tokens[1..]) + s[p..];
      assert PrintTokens(tokens) + s[p..] == PrintToken(tokens[0]) + rest;
      TokenFits(s, i, tokens, p);
      match tokens[0]
      case Ch(c) =>
        CharToken(s, i, c, rest);
        FollowedAhead(Character(c), Meaning(args, tokens[1..], ix), last);
        AheadEnds(Character(c), Meaning(args, tokens[1..], ix));
        if c == '{' || c == '}' {
          TemplateFrom(args, s, i + 2, i + 2, ix, tokens[1..], p, last);
          BraceStep(args, s, start, i, ix, Followed(Meaning(args, tokens[1..], ix), last));
        } else {
          TemplateFrom(args, s, start, i + 1, ix, tokens[1..], p, last);
          PlainStep(args, s, start, i, ix, Followed(Meaning(args, tokens[1..], ix), last));
        }
      case Fd(ref, w) =>
        FieldPrinted(ref, w);
        PrintedField(args, s, i, ix, ref, w, rest);
        match FieldMeaning(args, ref, w, ix) {
          case Failure(e) =>
            FieldFails(args, s, start, i, ix, e);
            FollowedFailure(e, last);
          case Success(((arg, spec), ix')) =>
            var j := i + |FieldText(ref, w)|;
            DropPart(s, i, FieldText(ref, w), rest);
            FollowedAhead(Formatted(arg, spec), Meaning(args, tokens[1..], ix'), last);
            AheadEnds(Formatted(arg, spec), Meaning(args, tokens[1..], ix'));
            TemplateFrom(args, s, j, j, ix', tokens[1..], p, last);
            FieldStep(args, s, start, i, ix, arg, spec, j, ix', Followed(Meaning(args, tokens[1..], ix'), last));
        }
    }
  }

  lemma FollowedFailure(e: string, last: Result<(seq<Atom>, Indexing), string>)
    ensures Followed(Failure(e), last) == Failure(e)
  {
  }

  lemma AheadEnds(atom: Atom, m: Result<(seq<Atom>, Indexing), string>)
    ensures Ahead(atom, m).Success? <==> m.Success?
    ensures m.Success? ==> Ahead(atom, m).value.1 == m.value.1
  {
  }

  /** The rest of the tokens ends at p as well. */
  lemma TokenFits(s: string, i: nat, tokens: seq<Token>, p: nat)
    requires i <= p <= |s| && tokens != [] && s[i..] == PrintTokens(tokens) + s[p..]
    ensures i + |PrintToken(tokens[0])| <= p && PrintToken(tokens[0]) != ""
    ensures tokens[0].Ch? ==> |PrintToken(tokens[0])| == if tokens[0].c == '{' || tokens[0].c == '}' then 2 else 1
  {
    hide FieldText;
    if tokens[0].Fd? { FieldPrinted(tokens[0].ref, tokens[0].w); }
  }

  lemma FieldPrinted(ref: Ref, w: Written)
    ensures PrintToken(Fd(ref, w)) == FieldText(ref, w) && FieldText(ref, w) != ""
  {
  }

  /** Formatting a printed template yields exactly its meaning, for all arguments: doubled braces
      become single ones, every field formats the argument its reference stands for (automatic ones in
      order, those of nested widths and precisions included) with the specification it means; and the
      first reference without an argument, mixture of numbering styles or objection is the error. */
  lemma TemplateRoundTrip(args: seq<Arg>, tokens: seq<Token>)
    requires WellFormedTokens(tokens)
    ensures var r := Format(args, PrintTokens(tokens));
      match Meaning(args, tokens, Indexing(0, []))
      case Success((atoms, ix)) => r.Success? && Atoms(r.value.0) == atoms && r.value.1 == ix
      case Failure(e) => r == Failure(e)
  {
    var s, m := PrintTokens(tokens), Meaning(args, tokens, Indexing(0, []));
    var last: Result<(seq<Atom>, Indexing), string> := if m.Success? then Success(([], m.value.1)) else Failure("");
    if m.Success? {
      forall start | 0 <= start <= |s| ensures Formats(args, s, start, |s|, m.value.1, last) {
        EndStep(args, s, start, m.value.1);
      }
    }
    hide FormatFrom, Meaning, WellFormedTokens, Atoms, PrintTokens;
    assert s + s[|s|..] == s;
    TemplateFrom(args, s, 0, 0, Indexing(0, []), tokens, |s|, last);
    assert Chars(s[0..0]) == [];
    if m.Success? {
      assert m.value.0 + [] == m.value.0;
      assert [] + m.value.0 == m.value.0;
    }
  }

  // ----- what is refused -----

  /** Behind any template: a text that breaks there is refused with its error, unless the template
      has one before. */
  lemma TemplateBreaks(args: seq<Arg>, tokens: seq<Token>, tail: string, error: string)
    requires WellFormedTokens(tokens)
    requires var s := PrintTokens(tokens) + tail; var m := Meaning(args, tokens, Indexing(0, []));
      m.Success? ==> Continues(args, s, |PrintTokens(tokens)|, m.value.1, Failure(error))
    ensures Format(args, PrintTokens(tokens) + tail)
      == Failure(if Meaning(args, tokens, Indexing(0, [])).Success? then error else Meaning(args, tokens, Indexing(0, [])).error)
  {
    hide FormatFrom, Meaning, WellFormedTokens, PrintTokens, Atoms;
    var s, p := PrintTokens(tokens) + tail, |PrintTokens(tokens)|;
    assert s[p..] == tail;
    TemplateFrom(args, s, 0, 0, Indexing(0, []), tokens, p, Failure(error));
  }

  /** A closing brace that is not doubled. */
  lemma LoneBraceRefused(args: seq<Arg>, tokens: seq<Token>, tail: string)
    requires WellFormedTokens(tokens) && Meaning(args, tokens, Indexing(0, [])).Success?
    requires CharAt(tail, 0) == '}' && CharAt(tail, 1) != '}'
    ensures Format(args, PrintTokens(tokens) + tail) == Failure("unmatched '}' in format string")
  {
    hide Meaning, WellFormedTokens, PrintTokens;
    var s, p := PrintTokens(tokens) + tail, |PrintTokens(tokens)|;
    assert s[p..] == tail;
    CharsFrom(s, p, tail);
    var error: Result<(seq<Atom>, Indexing), string> := Failure("unmatched '}' in format string");
    forall start, ix: Indexing | 0 <= start <= p ensures Formats(args, s, start, p, ix, error) {
    }
    hide FormatFrom, Formats;
    TemplateBreaks(args, tokens, tail, "unmatched '}' in format string");
  }

  /** A field that fails there breaks the text. */
  lemma FieldBreaks(args: seq<Arg>, tokens: seq<Token>, tail: string, error: string)
    requires WellFormedTokens(tokens) && Meaning(args, tokens, Indexing(0, [])).Success?
    requires CharAt(tail, 0) == '{' && CharAt(tail, 1) != '{'
    requires ParseField(args, PrintTokens(tokens) + tail, |PrintTokens(tokens)| + 1, Meaning(args, tokens, Indexing(0, [])).value.1) == Failure(error)
    ensures Format(args, PrintTokens(tokens) + tail) == Failure(error)
  {
    hide Meaning, WellFormedTokens, PrintTokens, ParseField, FormatFrom, Formats;
    var s, p := PrintTokens(tokens) + tail, |PrintTokens(tokens)|;
    var ix := Meaning(args, tokens, Indexing(0, [])).value.1;
    assert s[p..] == tail;
    CharsFrom(s, p, tail);
    var last: Result<(seq<Atom>, Indexing), string> := Failure(error);
    forall start | 0 <= start <= p ensures Formats(args, s, start, p, ix, last) {
      FieldFails(args, s, start, p, ix, error);
    }
    TemplateBreaks(args, tokens, tail, error);
  }

  /** A field whose specification ends with a type but not with a brace. */
  lemma OpenFieldRefused(args: seq<Arg>, tokens: seq<Token>, ref: Ref, w: Written, close: string)
    requires WellFormedTokens(tokens) && WellFormedRef(ref) && WellWritten(w) && Closes(w, close)
    requires w.base.typeCode != '\0' && CharAt(close, 0) != '}'
    requires var m := Meaning(args, tokens, Indexing(0, [])); m.Success? && FieldMeaning(args, ref, w, m.value.1).Success?
    ensures Format(args, PrintTokens(tokens) + ("{" + (RefText(ref) + (PrintSpec(w) + close)))) == Failure("missing '}' in format string")
  {
    hide Meaning, WellFormedTokens, PrintTokens, ParseField, WellWritten, PrintSpec, RefText, Refer, Resolve, WellFormedRef, MiddleText;
    var tail := "{" + (RefText(ref) + (PrintSpec(w) + close));
    var s, p := PrintTokens(tokens) + tail, |PrintTokens(tokens)|;
    assert s[p..] == tail;
    FieldFrom(args, s, p, Meaning(args, tokens, Indexing(0, [])).value.1, ref, w, close);
    CharsFrom(s, p, tail);
    FieldBreaks(args, tokens, tail, "missing '}' in format string");
  }

  /** What cannot follow the colon of a field: a dot without a number, or a brace as the fill. */
  predicate BadStart(text: string) {
    || (CharAt(text, 0) == '.' && !IsDigit(CharAt(text, 1)) && CharAt(text, 1) !in "{<>=^")
    || (CharAt(text, 0) == '{' && CharAt(text, 1) in "<>=^")
  }

  function BadStartError(text: string): string {
    if CharAt(text, 0) == '.' then "missing precision specifier" else "invalid fill character '{'"
  }

  lemma BadBody(args: seq<Arg>, s: string, i: nat, ix: Indexing, arg: Arg, text: string)
    requires i <= |s| && s[i..] == text && BadStart(text)
    ensures ParseSpecBody(args, s, i, ix, arg) == Failure(BadStartError(text))
  {
    CharsFrom(s, i, text);
    hide ParseInt, ParseNested;
  }

  /** A field with a reference and what follows it. */
  lemma FieldWith(args: seq<Arg>, s: string, i: nat, ix: Indexing, ref: Ref, rest: string)
    requires i <= |s| && WellFormedRef(ref) && Stops(ref, rest) && CharAt(rest, 0) != '{' && s[i..] == "{" + (RefText(ref) + rest)
    ensures i < |s| && CharAt(s, i) == '{' && CharAt(s, i + 1) != '{'
    ensures i + 1 + |RefText(ref)| <= |s| && s[i + 1 + |RefText(ref)|..] == rest
    ensures var j := i + 1 + |RefText(ref)|;
      match Reported(Refer(args, ref, ix), ref, rest)
      case Failure(e) => ParseField(args, s, i + 1, ix) == Failure(e)
      case Success((arg, ix1)) => ParseSpec(args, s, j, ix1, arg).Failure? ==>
        ParseField(args, s, i + 1, ix) == Failure(ParseSpec(args, s, j, ix1, arg).error)
  {
    hide ParseSpec, ParseArgRef, RefText, Refer, WellFormedRef, Stops, Reported;
    RefStart(ref, rest);
    CharsFrom(s, i, "{" + (RefText(ref) + rest));
    DropPart(s, i, "{", RefText(ref) + rest);
    CharsFrom(s, i + 1, RefText(ref) + rest);
    RefFrom(args, s, i + 1, ix, ref, rest);
    DropPart(s, i + 1, RefText(ref), rest);
  }

  lemma BadSpec(args: seq<Arg>, s: string, j: nat, ix: Indexing, arg: Arg, text: string)
    requires j <= |s| && s[j..] == ":" + text && BadStart(text)
    ensures ParseSpec(args, s, j, ix, arg) == Failure(BadStartError(text))
  {
    hide ParseSpecBody, BadStart, BadStartError;
    CharsFrom(s, j, ":" + text);
    DropPart(s, j, ":", text);
    BadBody(args, s, j + 1, ix, arg, text);
  }

  /** A dot without a number, or a brace as the fill character. */
  lemma BadSpecRefused(args: seq<Arg>, tokens: seq<Token>, ref: Ref, text: string)
    requires WellFormedTokens(tokens) && WellFormedRef(ref) && BadStart(text)
    requires var m := Meaning(args, tokens, Indexing(0, [])); m.Success? && Refer(args, ref, m.value.1).Success?
    ensures Format(args, PrintTokens(tokens) + ("{" + (RefText(ref) + (":" + text)))) == Failure(BadStartError(text))
  {
    hide Meaning, WellFormedTokens, PrintTokens, RefText, Refer, WellFormedRef, ParseField, ParseSpec, Format, BadStart, BadStartError;
    var rest := ":" + text;
    var tail := "{" + (RefText(ref) + rest);
    var s, p := PrintTokens(tokens) + tail, |PrintTokens(tokens)|;
    var ix := Meaning(args, tokens, Indexing(0, [])).value.1;
    assert s[p..] == tail;
    CharsFrom(s, p, tail);
    FieldWith(args, s, p, ix, ref, rest);
    var (arg, ix1) := Refer(args, ref, ix).value;
    BadSpec(args, s, p + 1 + |RefText(ref)|, ix1, arg, text);
    FieldBreaks(args, tokens, tail, BadStartError(text));
  }

  lemma NoSpec(args: seq<Arg>, s: string, j: nat, ix: Indexing, arg: Arg, rest: string)
    requires j <= |s| && s[j..] == rest && CharAt(rest, 0) != ':' && CharAt(rest, 0) != '}'
    ensures ParseSpec(args, s, j, ix, arg) == Failure("missing '}' in format string")
  {
    CharsFrom(s, j, rest);
  }

  /** A reference followed by neither a specification nor a closing brace. */
  lemma OpenRefRefused(args: seq<Arg>, tokens: seq<Token>, ref: Ref, rest: string)
    requires WellFormedTokens(tokens) && WellFormedRef(ref) && Stops(ref, rest) && Meaning(args, tokens, Indexing(0, [])).Success?
    requires CharAt(rest, 0) != ':' && CharAt(rest, 0) != '}' && CharAt(rest, 0) != '{'
    ensures var r := Refer(args, ref, Meaning(args, tokens, Indexing(0, [])).value.1);
      Format(args, PrintTokens(tokens) + ("{" + (RefText(ref) + rest)))
      == Failure(if r.Success? then "missing '}' in format string" else if ref.Named? then r.error else "invalid format string")
  {
    hide Meaning, WellFormedTokens, PrintTokens, RefText, Refer, WellFormedRef, ParseField, ParseSpec, Format, Stops;
    var tail := "{" + (RefText(ref) + rest);
    var s, p := PrintTokens(tokens) + tail, |PrintTokens(tokens)|;
    var ix := Meaning(args, tokens, Indexing(0, [])).value.1;
    var r := Refer(args, ref, ix);
    assert s[p..] == tail;
    CharsFrom(s, p, tail);
    FieldWith(args, s, p, ix, ref, rest);
    if r.Success? { NoSpec(args, s, p + 1 + |RefText(ref)|, r.value.1, r.value.0, rest); }
    FieldBreaks(args, tokens, tail,
      if r.Success? then "missing '}' in format string" else if ref.Named? then r.error else "invalid format string");
  }

  /** A nested width that is not closed. */
  lemma OpenWidth(args: seq<Arg>, s: string, j: nat, ix: Indexing, arg: Arg, ref: Ref, rest: string)
    requires j <= |s| && WellFormedRef(ref) && Stops(ref, rest) && s[j..] == ":" + ("{" + (RefText(ref) + rest))
    requires CharAt(rest, 0) != '}' && CharAt(RefText(ref) + rest, 0) !in "<>=^"
    ensures var r := Reported(Refer(args, ref, ix), ref, rest);
      ParseSpec(args, s, j, ix, arg) == Failure(if r.Success? then "invalid format string" else r.error)
  {
    hide RefText, Refer, ParseNested, ParseSpecBody, WellFormedRef, Reported, Stops;
    var inner := RefText(ref) + rest;
    CharsFrom(s, j, ":" + ("{" + inner));
    DropPart(s, j, ":", "{" + inner);
    CharsFrom(s, j + 1, "{" + inner);
    DropPart(s, j + 1, "{", inner);
    CharsFrom(s, j + 2, inner);
    NestedOpen(args, s, j + 2, ix, ref, rest);
    var r := Reported(Refer(args, ref, ix), ref, rest);
    NestedFails(args, s, j + 1, ix, arg, if r.Success? then "invalid format string" else r.error);
  }

  lemma NestedOpen(args: seq<Arg>, s: string, i: nat, ix: Indexing, ref: Ref, rest: string)
    requires i <= |s| && WellFormedRef(ref) && Stops(ref, rest) && s[i..] == RefText(ref) + rest && CharAt(rest, 0) != '}'
    ensures var r := Reported(Refer(args, ref, ix), ref, rest);
      ParseNested(args, s, i, ix, "width") == Failure(if r.Success? then "invalid format string" else r.error)
  {
    hide RefText, Refer, ParseArgRef, WellFormedRef, Reported, Stops, CountOf;
    RefFrom(args, s, i, ix, ref, rest);
    DropPart(s, i, RefText(ref), rest);
    CharsFrom(s, i + |RefText(ref)|, rest);
  }

  lemma NestedFails(args: seq<Arg>, s: string, i: nat, ix: Indexing, arg: Arg, error: string)
    requires i < |s| && s[i] == '{' && AlignOf(CharAt(s, i + 1)) == AlignDefault
    requires ParseNested(args, s, i + 1, ix, "width") == Failure(error)
    ensures ParseSpecBody(args, s, i, ix, arg) == Failure(error)
  {
    hide ParseNested;
  }

  lemma OpenWidthRefused(args: seq<Arg>, tokens: seq<Token>, ref: Ref, inner: Ref, rest: string)
    requires WellFormedTokens(tokens) && WellFormedRef(ref) && WellFormedRef(inner) && Stops(inner, rest)
    requires CharAt(rest, 0) != '}' && CharAt(RefText(inner) + rest, 0) !in "<>=^"
    requires var m := Meaning(args, tokens, Indexing(0, [])); m.Success? && Refer(args, ref, m.value.1).Success?
    ensures var ix := Refer(args, ref, Meaning(args, tokens, Indexing(0, [])).value.1).value.1;
      var r := Reported(Refer(args, inner, ix), inner, rest);
      Format(args, PrintTokens(tokens) + ("{" + (RefText(ref) + (":" + ("{" + (RefText(inner) + rest))))))
      == Failure(if r.Success? then "invalid format string" else r.error)
  {
    ColonStops(ref, "{" + (RefText(inner) + rest));
    hide Meaning, WellFormedTokens, PrintTokens, RefText, Refer, WellFormedRef, ParseField, ParseSpec, Format, Stops;
    var spec := ":" + ("{" + (RefText(inner) + rest));
    var tail := "{" + (RefText(ref) + spec);
    var s, p := PrintTokens(tokens) + tail, |PrintTokens(tokens)|;
    var ix := Meaning(args, tokens, Indexing(0, [])).value.1;
    assert s[p..] == tail;
    CharsFrom(s, p, tail);
    FieldWith(args, s, p, ix, ref, spec);
    var (arg, ix1) := Refer(args, ref, ix).value;
    OpenWidth(args, s, p + 1 + |RefText(ref)|, ix1, arg, inner, rest);
    var r := Reported(Refer(args, inner, ix1), inner, rest);
    FieldBreaks(args, tokens, tail, if r.Success? then "invalid format string" else r.error);
  }

  lemma ColonStops(ref: Ref, rest: string)
    ensures Stops(ref, ":" + rest) && CharAt(":" + rest, 0) == ':'
  {
  }
}
