/** Replacement fields: argument references, format specifications, and whole format strings. */
module FormatParser {
  import opened Wrappers
  import opened Numerals
  import opened IntParser
  import opened FormatSpecs

  datatype ArgKind =
    | IntKind | UintKind | LongLongKind | ULongLongKind | BoolKind | CharKind   // integers
    | DoubleKind | LongDoubleKind                                              // other numbers
    | StringKind | PointerKind

  /** `value` matters for the four integer kinds; a named argument also has a position. */
  datatype Arg = Arg(kind: ArgKind, value: int, name: Option<string>)

  predicate IsNumeric(arg: Arg) {
    !arg.kind.StringKind? && !arg.kind.PointerKind?
  }

  predicate IsInteger(arg: Arg) {
    IsNumeric(arg) && !arg.kind.DoubleKind? && !arg.kind.LongDoubleKind?
  }

  datatype Use = Auto(k: nat, arg: Arg) | ByIndex(n: nat, arg: Arg) | ByName(name: string, arg: Arg)

  /** `next` is the number of automatic references so far, -1 once a reference was numbered or
      named.  `uses` is history: every reference of the format string and the argument it got. */
  datatype Indexing = Indexing(next: int, uses: seq<Use>)

  datatype Step<+T> = Step(value: T, pos: nat, ix: Indexing)

  // ----- argument references -----

  function ArgAt(args: seq<Arg>, n: nat): Result<Arg, string> {
    if n < |args| then Success(args[n]) else Failure("argument index out of range")
  }

  function NextArg(args: seq<Arg>, ix: Indexing): Result<(Arg, Indexing), string> {
    if ix.next >= 0 then
      match ArgAt(args, ix.next)
      case Success(arg) => Success((arg, Indexing(ix.next + 1, ix.uses + [Auto(ix.next, arg)])))
      case Failure(e) => Failure(e)
    else Failure("cannot switch from manual to automatic argument indexing")
  }

  const NO_MANUAL: string := "cannot switch from automatic to manual argument indexing"

  function GetArg(args: seq<Arg>, n: nat, ix: Indexing): Result<(Arg, Indexing), string> {
    if ix.next > 0 then Failure(NO_MANUAL)
    else
      match ArgAt(args, n)
      case Success(arg) => Success((arg, Indexing(-1, ix.uses + [ByIndex(n, arg)])))
      case Failure(e) => Failure(e)
  }

  /** The first argument of that name. */
  function FindArg(args: seq<Arg>, name: string): Option<Arg> {
    if args == [] then None
    else if args[0].name == Some(name) then Some(args[0])
    else FindArg(args[1..], name)
  }

  function GetNamed(args: seq<Arg>, name: string, ix: Indexing): Result<(Arg, Indexing), string> {
    if ix.next > 0 then Failure(NO_MANUAL)
    else
      match FindArg(args, name)
      case Some(arg) => Success((arg, Indexing(-1, ix.uses + [ByName(name, arg)])))
      case None => Failure("argument not found")
  }

  const INVALID: string := "invalid format string"

  function ParseArgIndex(args: seq<Arg>, s: string, i: nat, ix: Indexing): Result<Step<Arg>, string>
    requires i <= |s|
  {
    if !IsDigit(CharAt(s, i)) then
      match NextArg(args, ix)
      case Success((arg, ix')) => Success(Step(arg, i, ix'))
      case Failure(e) => Failure(IndexError(s, i, e))
    else
      match ParseInt(s, i)
      case Failure(e) => Failure(e)
      case Success((n, j)) =>
        match GetArg(args, n, ix)
        case Success((arg, ix')) => Success(Step(arg, j, ix'))
        case Failure(e) => Failure(IndexError(s, j, e))
  }

  function IndexError(s: string, i: nat, error: string): string {
    if CharAt(s, i) != '}' && CharAt(s, i) != ':' then INVALID else error
  }

  predicate IsNameStart(c: char) {
    'a' <= c <= 'z' || 'A' <= c <= 'Z' || c == '_'
  }

  /** The end of the name whose first character is before i. */
  function NameEnd(s: string, i: nat): (j: nat)
    requires i <= |s|
    ensures i <= j <= |s|
    decreases |s| - i
  {
    if i < |s| && (IsNameStart(s[i]) || IsDigit(s[i])) then NameEnd(s, i + 1) else i
  }

  function ParseArgName(args: seq<Arg>, s: string, i: nat, ix: Indexing): Result<Step<Arg>, string>
    requires i < |s|
  {
    var j := NameEnd(s, i + 1);
    match GetNamed(args, s[i..j], ix)
    case Success((arg, ix')) => Success(Step(arg, j, ix'))
    case Failure(e) => Failure(e)
  }

  function ParseArgRef(args: seq<Arg>, s: string, i: nat, ix: Indexing): (r: Result<Step<Arg>, string>)
    requires i <= |s|
    ensures r.Success? ==> i <= r.value.pos <= |s|
  {
    if IsNameStart(CharAt(s, i)) then ParseArgName(args, s, i, ix) else ParseArgIndex(args, s, i, ix)
  }

  // ----- format specifications -----

  function AlignOf(c: char): Alignment {
    if c == '<' then AlignLeft else if c == '>' then AlignRight
    else if c == '=' then AlignNumeric else if c == '^' then AlignCenter else AlignDefault
  }

  function NeedNumeric(arg: Arg, c: char): string {
    "format specifier '" + [c] + "' requires numeric argument"
  }

  /** Fill and alignment; the lookahead sees one character beyond the current one. */
  function ParseAlign(s: string, i: nat, arg: Arg): (r: Result<(Alignment, char, nat), string>)
    requires i <= |s|
    ensures r.Success? ==> i <= r.value.2 <= |s|
  {
    var c := CharAt(s, i);
    var ahead := AlignOf(CharAt(s, i + 1));
    if c == '\0' then Success((AlignDefault, ' ', i))
    else if ahead != AlignDefault then
      if c == '}' then Success((ahead, ' ', i))
      else if c == '{' then Failure("invalid fill character '{'")
      else if ahead == AlignNumeric && !IsNumeric(arg) then Failure(NeedNumeric(arg, '='))
      else Success((ahead, c, i + 2))
    else if AlignOf(c) != AlignDefault then
      if AlignOf(c) == AlignNumeric && !IsNumeric(arg) then Failure(NeedNumeric(arg, '='))
      else Success((AlignOf(c), ' ', i + 1))
    else Success((AlignDefault, ' ', i))
  }

  datatype SignFlags = SignFlags(sign: bool, plus: bool, minus: bool)

  function ParseSign(s: string, i: nat, arg: Arg): (r: Result<(SignFlags, nat), string>)
    requires i <= |s|
    ensures r.Success? ==> i <= r.value.1 <= |s|
  {
    var c := CharAt(s, i);
    if c == '+' || c == '-' || c == ' ' then
      if !IsNumeric(arg) then Failure(NeedNumeric(arg, c))
      else if arg.kind.UintKind? || arg.kind.ULongLongKind? then
        Failure("format specifier '" + [c] + "' requires signed argument")
      else Success((SignFlags(c != '-', c == '+', c == '-'), i + 1))
    else Success((SignFlags(false, false, false), i))
  }

  /** '#' and '0': present or not, for numbers only. */
  function ParseFlag(s: string, i: nat, flag: char, arg: Arg): (r: Result<(bool, nat), string>)
    requires i <= |s| && flag != '\0'
    ensures r.Success? ==> i <= r.value.1 <= |s|
  {
    if CharAt(s, i) != flag then Success((false, i))
    else if !IsNumeric(arg) then Failure(NeedNumeric(arg, flag))
    else Success((true, i + 1))
  }

  /** A width or precision taken from an argument. */
  function CountOf(arg: Arg, what: string): Result<nat, string> {
    match arg.kind
    case IntKind => if arg.value < 0 then Failure("negative " + what) else InRange(arg.value)
    case LongLongKind => if arg.value < 0 then Failure("negative " + what) else InRange(arg.value)
    case UintKind => InRange(arg.value)
    case ULongLongKind => InRange(arg.value)
    case _ => Failure(what + " is not integer")
  }

  function InRange(value: int): Result<nat, string> {
    if value < 0 || value > INT_MAX then Failure(TOO_BIG) else Success(value)
  }

  /** A nested field, from behind its opening brace. */
  function ParseNested(args: seq<Arg>, s: string, i: nat, ix: Indexing, what: string): (r: Result<Step<nat>, string>)
    requires i <= |s|
    ensures r.Success? ==> i <= r.value.pos <= |s|
  {
    match ParseArgRef(args, s, i, ix)
    case Failure(e) => Failure(e)
    case Success(Step(arg, j, ix')) =>
      if CharAt(s, j) != '}' then Failure(INVALID)
      else
        match CountOf(arg, what)
        case Failure(e) => Failure(e)
        case Success(n) => Success(Step(n, j + 1, ix'))
  }

  function ParseWidth(args: seq<Arg>, s: string, i: nat, ix: Indexing): (r: Result<Step<nat>, string>)
    requires i <= |s|
    ensures r.Success? ==> i <= r.value.pos <= |s|
  {
    if IsDigit(CharAt(s, i)) then
      match ParseInt(s, i)
      case Failure(e) => Failure(e)
      case Success((n, j)) => Success(Step(n, j, ix))
    else if CharAt(s, i) == '{' then ParseNested(args, s, i + 1, ix, "width")
    else Success(Step(0, i, ix))
  }

  function ParsePrecision(args: seq<Arg>, s: string, i: nat, ix: Indexing, arg: Arg): (r: Result<Step<int>, string>)
    requires i <= |s|
    ensures r.Success? ==> i <= r.value.pos <= |s|
  {
    if CharAt(s, i) != '.' then var absent: int := -1; Success(Step(absent, i, ix))
    else
      var count: Result<Step<nat>, string> :=
        if IsDigit(CharAt(s, i + 1)) || CharAt(s, i + 1) == '{' then
          (if IsDigit(CharAt(s, i + 1)) then
             match ParseInt(s, i + 1)
             case Failure(e) => Failure(e)
             case Success((n, j)) => Success(Step(n, j, ix))
           else ParseNested(args, s, i + 2, ix, "precision"))
        else Failure("missing precision specifier");
      match count
      case Failure(e) => Failure(e)
      case Success(Step(n, j, ix')) =>
        if IsInteger(arg) || arg.kind.PointerKind? then
          Failure("precision not allowed in " + (if arg.kind.PointerKind? then "pointer" else "integer") + " format specifier")
        else Success(Step(n, j, ix'))
  }

  /** Everything between the colon and the closing brace. */
  function ParseSpecBody(args: seq<Arg>, s: string, i: nat, ix: Indexing, arg: Arg): (r: Result<Step<FormatSpec>, string>)
    requires i <= |s|
    ensures r.Success? ==> i <= r.value.pos <= |s|
  {
    match ParseAlign(s, i, arg)
    case Failure(e) => Failure(e)
    case Success((align, fill, j)) =>
      match ParseSign(s, j, arg)
      case Failure(e) => Failure(e)
      case Success((flags, k)) =>
        match ParseFlag(s, k, '#', arg)
        case Failure(e) => Failure(e)
        case Success((hash, l)) =>
          match ParseFlag(s, l, '0', arg)
          case Failure(e) => Failure(e)
          case Success((zero, m)) =>
            ParseCounts(args, s, m, ix, arg,
              FormatSpec(0, if zero then '0' else fill, if zero then AlignNumeric else align,
                         flags.sign, flags.plus, flags.minus, hash, -1, '\0'))
  }

  /** Width, precision and type. */
  function ParseCounts(args: seq<Arg>, s: string, i: nat, ix: Indexing, arg: Arg, spec: FormatSpec): (r: Result<Step<FormatSpec>, string>)
    requires i <= |s|
    ensures r.Success? ==> i <= r.value.pos <= |s|
  {
    match ParseWidth(args, s, i, ix)
    case Failure(e) => Failure(e)
    case Success(Step(width, j, ix1)) =>
      match ParsePrecision(args, s, j, ix1, arg)
      case Failure(e) => Failure(e)
      case Success(Step(precision, k, ix2)) =>
        var c := CharAt(s, k);
        if c != '}' && c != '\0' then
          Success(Step(spec.(width := width, precision := precision, typeCode := c), k + 1, ix2))
        else Success(Step(spec.(width := width, precision := precision), k, ix2))
  }

  /** From behind the argument reference to behind the closing brace. */
  function ParseSpec(args: seq<Arg>, s: string, i: nat, ix: Indexing, arg: Arg): (r: Result<Step<FormatSpec>, string>)
    requires i <= |s|
    ensures r.Success? ==> i < r.value.pos <= |s|
  {
    var body := if CharAt(s, i) == ':' then ParseSpecBody(args, s, i + 1, ix, arg) else Success(Step(DEFAULT_SPEC, i, ix));
    match body
    case Failure(e) => Failure(e)
    case Success(Step(spec, j, ix')) =>
      if CharAt(s, j) != '}' then Failure("missing '}' in format string") else Success(Step(spec, j + 1, ix'))
  }

  // ----- format strings -----

  datatype Piece = Text(text: string) | Field(arg: Arg, spec: FormatSpec)

  /** Behind an opening brace: one replacement field. */
  function ParseField(args: seq<Arg>, s: string, i: nat, ix: Indexing): (r: Result<Step<Piece>, string>)
    requires i <= |s|
    ensures r.Success? ==> i < r.value.pos <= |s|
  {
    match ParseArgRef(args, s, i, ix)
    case Failure(e) => Failure(e)
    case Success(Step(arg, j, ix')) =>
      match ParseSpec(args, s, j, ix', arg)
      case Failure(e) => Failure(e)
      case Success(Step(spec, k, ix'')) => Success(Step(Field(arg, spec), k, ix''))
  }

  /** The main loop: `start` is where the pending text began, i the current position. */
  function FormatFrom(args: seq<Arg>, s: string, start: nat, i: nat, ix: Indexing): Result<(seq<Piece>, Indexing), string>
    requires start <= i <= |s|
    decreases |s| - i
  {
    if CharAt(s, i) == '\0' then Success(([Text(s[start..i])], ix))
    else
      var c := s[i];
      if c != '{' && c != '}' then FormatFrom(args, s, start, i + 1, ix)
      else if CharAt(s, i + 1) == c then Prepend([Text(s[start..i + 1])], FormatFrom(args, s, i + 2, i + 2, ix))
      else if c == '}' then Failure("unmatched '}' in format string")
      else
        match ParseField(args, s, i + 1, ix)
        case Failure(e) => Failure(e)
        case Success(Step(field, j, ix')) =>
          Prepend([Text(s[start..i]), field], FormatFrom(args, s, j, j, ix'))
  }

  function Prepend(pieces: seq<Piece>, rest: Result<(seq<Piece>, Indexing), string>): Result<(seq<Piece>, Indexing), string> {
    match rest
    case Failure(e) => Failure(e)
    case Success((more, ix)) => Success((pieces + more, ix))
  }

  function Format(args: seq<Arg>, s: string): Result<(seq<Piece>, Indexing), string> {
    FormatFrom(args, s, 0, 0, Indexing(0, []))
  }

  // ----- indexing discipline -----

  /** Automatic references are numbered 0, 1, 2, ... and are never mixed with others. */
  ghost predicate Disciplined(args: seq<Arg>, ix: Indexing) {
    if ix.next >= 0 then
      |ix.uses| == ix.next <= |args| && forall k :: 0 <= k < |ix.uses| ==> ix.uses[k] == Auto(k, args[k])
    else
      ix.next == -1 && forall k :: 0 <= k < |ix.uses| ==> ManualUse(args, ix.uses[k])
  }

  predicate ManualUse(args: seq<Arg>, use: Use) {
    match use
    case Auto(_, _) => false
    case ByIndex(n, arg) => n < |args| && arg == args[n]
    case ByName(name, arg) => arg.name == Some(name) && arg in args
  }

  /** A lookup finds the first argument of that name, if there is one. */
  lemma {:induction false} FoundArg(args: seq<Arg>, name: string)
    ensures match FindArg(args, name)
      case Some(arg) =>
        arg in args &&
        exists k :: 0 <= k < |args| && args[k] == arg && arg.name == Some(name) && forall j :: 0 <= j < k ==> args[j].name != Some(name)
      case None => forall k :: 0 <= k < |args| ==> args[k].name != Some(name)
  {
    if args != [] && args[0].name != Some(name) {
      FoundArg(args[1..], name);
      match FindArg(args[1..], name)
      case Some(arg) =>
        var k :| 0 <= k < |args[1..]| && args[1..][k] == arg && arg.name == Some(name) && forall j :: 0 <= j < k ==> args[1..][j].name != Some(name);
        assert args[k + 1] == arg;
        forall j | 0 <= j < k + 1 ensures args[j].name != Some(name) { if j > 0 { assert args[j] == args[1..][j - 1]; } }
      case None =>
        forall j | 0 <= j < |args| ensures args[j].name != Some(name) { if j > 0 { assert args[j] == args[1..][j - 1]; } }
    }
  }

  lemma RefDisciplined(args: seq<Arg>, s: string, i: nat, ix: Indexing)
    requires i <= |s| && Disciplined(args, ix)
    ensures ParseArgRef(args, s, i, ix).Success? ==> Disciplined(args, ParseArgRef(args, s, i, ix).value.ix)
  {
    if i < |s| { FoundArg(args, s[i..NameEnd(s, i + 1)]); }
  }

  lemma SpecDisciplined(args: seq<Arg>, s: string, i: nat, ix: Indexing, arg: Arg)
    requires i <= |s| && Disciplined(args, ix)
    ensures ParseSpec(args, s, i, ix, arg).Success? ==> Disciplined(args, ParseSpec(args, s, i, ix, arg).value.ix)
  {
    if ParseSpec(args, s, i, ix, arg).Success? && CharAt(s, i) == ':' {
      var a := ParseAlign(s, i + 1, arg).value;
      var b := ParseSign(s, a.2, arg).value;
      var c := ParseFlag(s, b.1, '#', arg).value;
      var d := ParseFlag(s, c.1, '0', arg).value;
      WidthDisciplined(args, s, d.1, ix);
      var w := ParseWidth(args, s, d.1, ix).value;
      PrecisionDisciplined(args, s, w.pos, w.ix, arg);
    }
  }

  lemma WidthDisciplined(args: seq<Arg>, s: string, i: nat, ix: Indexing)
    requires i <= |s| && Disciplined(args, ix)
    ensures ParseWidth(args, s, i, ix).Success? ==> Disciplined(args, ParseWidth(args, s, i, ix).value.ix)
  {
    if i + 1 <= |s| { RefDisciplined(args, s, i + 1, ix); }
  }

  lemma PrecisionDisciplined(args: seq<Arg>, s: string, i: nat, ix: Indexing, arg: Arg)
    requires i <= |s| && Disciplined(args, ix)
    ensures ParsePrecision(args, s, i, ix, arg).Success? ==> Disciplined(args, ParsePrecision(args, s, i, ix, arg).value.ix)
  {
    if i + 2 <= |s| { RefDisciplined(args, s, i + 2, ix); }
  }

  lemma {:induction false} FormatFromDisciplined(args: seq<Arg>, s: string, start: nat, i: nat, ix: Indexing)
    requires start <= i <= |s| && Disciplined(args, ix)
    ensures FormatFrom(args, s, start, i, ix).Success? ==> Disciplined(args, FormatFrom(args, s, start, i, ix).value.1)
    decreases |s| - i
  {
    if CharAt(s, i) != '\0' {
      var c := s[i];
      if c != '{' && c != '}' {
        FormatFromDisciplined(args, s, start, i + 1, ix);
      } else if CharAt(s, i + 1) == c {
        FormatFromDisciplined(args, s, i + 2, i + 2, ix);
      } else if c == '{' {
        FieldDisciplined(args, s, i + 1, ix);
        match ParseField(args, s, i + 1, ix)
        case Success(Step(_, j, ix')) => FormatFromDisciplined(args, s, j, j, ix');
        case Failure(_) =>
      }
    }
  }

  lemma FieldDisciplined(args: seq<Arg>, s: string, i: nat, ix: Indexing)
    requires i <= |s| && Disciplined(args, ix)
    ensures ParseField(args, s, i, ix).Success? ==> Disciplined(args, ParseField(args, s, i, ix).value.ix)
  {
    RefDisciplined(args, s, i, ix);
    match ParseArgRef(args, s, i, ix)
    case Success(Step(arg, j, ix')) => SpecDisciplined(args, s, j, ix', arg);
    case Failure(_) =>
  }

  /** For every format string that succeeds: either all references, nested widths and precisions
      included, are automatic and the k-th takes argument k, or each names its argument. */
  lemma NoMixedIndexing(args: seq<Arg>, s: string)
    ensures Format(args, s).Success? ==>
      var uses := Format(args, s).value.1.uses;
      || (forall k :: 0 <= k < |uses| ==> k < |args| && uses[k] == Auto(k, args[k]))
      || (forall k :: 0 <= k < |uses| ==> ManualUse(args, uses[k]))
  {
    FormatFromDisciplined(args, s, 0, 0, Indexing(0, []));
  }
}
