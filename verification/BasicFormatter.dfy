/** The formatter object: its methods advance through the format string, update the argument index
    and append to the output, and compute exactly the functions of FormatParser. */
module BasicFormatter {
  import opened Wrappers
  import opened IntParser
  import opened FormatSpecs
  import F = FormatParser

  class Formatter {
    const args: seq<F.Arg>
    var nextArgIndex: int
    var writer: seq<F.Piece>
    ghost var uses: seq<F.Use>

    constructor (args: seq<F.Arg>)
      ensures this.args == args && Indexing() == F.Indexing(0, []) && writer == []
    {
      this.args := args;
      nextArgIndex := 0;
      writer, uses := [], [];
    }

    ghost function Indexing(): F.Indexing
      reads this
    {
      F.Indexing(nextArgIndex, uses)
    }

    /** A call that parsed `value` and stopped at `pos`, or threw, did what the function says. */
    ghost predicate Did<T>(r: Result<(T, nat), string>, expected: Result<F.Step<T>, string>)
      reads this
    {
      match expected
      case Success(step) => r == Success((step.value, step.pos)) && Indexing() == step.ix
      case Failure(e) => r == Failure(e)
    }

    ghost predicate Found(r: Result<F.Arg, string>, expected: Result<(F.Arg, F.Indexing), string>)
      reads this
    {
      match expected
      case Success((arg, ix)) => r == Success(arg) && Indexing() == ix
      case Failure(e) => r == Failure(e)
    }

    method NextArg() returns (r: Result<F.Arg, string>)
      modifies this`nextArgIndex, this`uses
      ensures Found(r, F.NextArg(args, old(Indexing())))
    {
      if nextArgIndex >= 0 {
        r := F.ArgAt(args, nextArgIndex);
        if r.Success? { uses := uses + [F.Auto(nextArgIndex, r.value)]; }
        nextArgIndex := nextArgIndex + 1;
      } else {
        r := Failure("cannot switch from manual to automatic argument indexing");
      }
    }

    method CheckNoAutoIndex() returns (ok: bool)
      modifies this`nextArgIndex
      ensures ok == (old(nextArgIndex) <= 0)
      ensures nextArgIndex == if ok then -1 else old(nextArgIndex)
    {
      if nextArgIndex > 0 { return false; }
      nextArgIndex := -1;
      return true;
    }

    method GetArg(n: nat) returns (r: Result<F.Arg, string>)
      modifies this`nextArgIndex, this`uses
      ensures Found(r, F.GetArg(args, n, old(Indexing())))
    {
      var ok := CheckNoAutoIndex();
      if !ok { return Failure(F.NO_MANUAL); }
      r := F.ArgAt(args, n);
      if r.Success? { uses := uses + [F.ByIndex(n, r.value)]; }
    }

    method GetNamed(name: string) returns (r: Result<F.Arg, string>)
      modifies this`nextArgIndex, this`uses
      ensures Found(r, F.GetNamed(args, name, old(Indexing())))
    {
      var ok := CheckNoAutoIndex();
      if !ok { return Failure(F.NO_MANUAL); }
      match F.FindArg(args, name)
      case Some(arg) =>
        uses := uses + [F.ByName(name, arg)];
        r := Success(arg);
      case None => r := Failure("argument not found");
    }

    method ParseArgIndex(s: string, i: nat) returns (r: Result<(F.Arg, nat), string>)
      requires i <= |s|
      modifies this`nextArgIndex, this`uses
      ensures Did(r, F.ParseArgIndex(args, s, i, old(Indexing())))
    {
      var arg, p := Failure(""), i;
      if CharAt(s, i) < '0' || CharAt(s, i) > '9' {
        arg := NextArg();
      } else {
        var number := ParseNonnegativeInt(s, i);
        if number.Failure? { return Failure(number.error); }
        p := number.value.1;
        arg := GetArg(number.value.0);
      }
      if arg.Failure? { return Failure(F.IndexError(s, p, arg.error)); }
      return Success((arg.value, p));
    }

    method ParseArgName(s: string, i: nat) returns (r: Result<(F.Arg, nat), string>)
      requires i < |s|
      modifies this`nextArgIndex, this`uses
      ensures Did(r, F.ParseArgName(args, s, i, old(Indexing())))
    {
      var p := i + 1;
      while F.IsNameStart(CharAt(s, p)) || '0' <= CharAt(s, p) <= '9'
        invariant i + 1 <= p <= |s| && F.NameEnd(s, p) == F.NameEnd(s, i + 1)
        decreases |s| - p
      {
        p := p + 1;
      }
      var arg := GetNamed(s[i..p]);
      if arg.Failure? { return Failure(arg.error); }
      return Success((arg.value, p));
    }

    method ParseArg(s: string, i: nat) returns (r: Result<(F.Arg, nat), string>)
      requires i <= |s|
      modifies this`nextArgIndex, this`uses
      ensures Did(r, F.ParseArgRef(args, s, i, old(Indexing())))
    {
      if F.IsNameStart(CharAt(s, i)) { r := ParseArgName(s, i); } else { r := ParseArgIndex(s, i); }
    }

    /** Fill and alignment: first the character after the current one, then the current one. */
    static method ParseAlign(s: string, i: nat, arg: F.Arg) returns (r: Result<(Alignment, char, nat), string>)
      requires i <= |s|
      ensures r == F.ParseAlign(s, i, arg)
    {
      var c := CharAt(s, i);
      if c == '\0' { return Success((AlignDefault, ' ', i)); }
      var p: int := i + 1;
      while p >= i
        invariant i - 1 <= p <= i + 1
        invariant p <= i ==> F.AlignOf(CharAt(s, i + 1)) == AlignDefault
        invariant p < i ==> F.AlignOf(c) == AlignDefault
      {
        var align := F.AlignOf(CharAt(s, p));
        if align != AlignDefault {
          var fill, next := ' ', i;
          if p != i {
            if c == '}' { return Success((align, ' ', i)); }
            if c == '{' { return Failure("invalid fill character '{'"); }
            next, fill := i + 2, c;
          } else {
            next := i + 1;
          }
          if align == AlignNumeric && !F.IsNumeric(arg) { return Failure(F.NeedNumeric(arg, '=')); }
          return Success((align, fill, next));
        }
        p := p - 1;
      }
      return Success((AlignDefault, ' ', i));
    }

    /** A nested width or precision, from behind its opening brace. */
    method ParseNested(s: string, i: nat, what: string) returns (r: Result<(nat, nat), string>)
      requires i <= |s|
      modifies this`nextArgIndex, this`uses
      ensures Did(r, F.ParseNested(args, s, i, old(Indexing()), what))
    {
      var arg := ParseArg(s, i);
      if arg.Failure? { return Failure(arg.error); }
      if CharAt(s, arg.value.1) != '}' { return Failure(F.INVALID); }
      var count := F.CountOf(arg.value.0, what);
      if count.Failure? { return Failure(count.error); }
      return Success((count.value, arg.value.1 + 1));
    }

    method ParseWidth(s: string, i: nat) returns (r: Result<(nat, nat), string>)
      requires i <= |s|
      modifies this`nextArgIndex, this`uses
      ensures Did(r, F.ParseWidth(args, s, i, old(Indexing())))
    {
      if '0' <= CharAt(s, i) <= '9' {
        r := ParseNonnegativeInt(s, i);
      } else if CharAt(s, i) == '{' {
        r := ParseNested(s, i + 1, "width");
      } else {
        r := Success((0, i));
      }
    }

    method ParsePrecision(s: string, i: nat, arg: F.Arg) returns (r: Result<(int, nat), string>)
      requires i <= |s|
      modifies this`nextArgIndex, this`uses
      ensures Did(r, F.ParsePrecision(args, s, i, old(Indexing()), arg))
    {
      if CharAt(s, i) != '.' { return Success((-1, i)); }
      var count: Result<(nat, nat), string>;
      if '0' <= CharAt(s, i + 1) <= '9' {
        count := ParseNonnegativeInt(s, i + 1);
      } else if CharAt(s, i + 1) == '{' {
        count := ParseNested(s, i + 2, "precision");
      } else {
        return Failure("missing precision specifier");
      }
      if count.Failure? { return Failure(count.error); }
      if F.IsInteger(arg) || arg.kind.PointerKind? {
        return Failure("precision not allowed in " + (if arg.kind.PointerKind? then "pointer" else "integer") + " format specifier");
      }
      return Success((count.value.0, count.value.1));
    }

    /** Everything between the colon and the closing brace. */
    method ParseSpecBody(s: string, i: nat, arg: F.Arg) returns (r: Result<(FormatSpec, nat), string>)
      requires i <= |s|
      modifies this`nextArgIndex, this`uses
      ensures Did(r, F.ParseSpecBody(args, s, i, old(Indexing()), arg))
    {
      hide F.ParseAlign, F.ParseSign, F.ParseFlag, F.ParseWidth, F.ParsePrecision;
      var spec := DEFAULT_SPEC;
      var align := ParseAlign(s, i, arg);
      if align.Failure? { return Failure(align.error); }
      spec := spec.(align := align.value.0, fill := align.value.1);
      var sign := F.ParseSign(s, align.value.2, arg);
      if sign.Failure? { return Failure(sign.error); }
      spec := spec.(sign := sign.value.0.sign, plus := sign.value.0.plus, minus := sign.value.0.minus);
      var hash := F.ParseFlag(s, sign.value.1, '#', arg);
      if hash.Failure? { return Failure(hash.error); }
      spec := spec.(hash := hash.value.0);
      var zero := F.ParseFlag(s, hash.value.1, '0', arg);
      if zero.Failure? { return Failure(zero.error); }
      if zero.value.0 { spec := spec.(align := AlignNumeric, fill := '0'); }
      var width := ParseWidth(s, zero.value.1);
      if width.Failure? { return Failure(width.error); }
      spec := spec.(width := width.value.0);
      var precision := ParsePrecision(s, width.value.1, arg);
      if precision.Failure? { return Failure(precision.error); }
      spec := spec.(precision := precision.value.0);
      var p := precision.value.1;
      if CharAt(s, p) != '}' && CharAt(s, p) != '\0' {
        spec := spec.(typeCode := CharAt(s, p));
        p := p + 1;
      }
      return Success((spec, p));
    }

    /** One replacement field, from behind its argument reference; its output is appended. */
    method FormatArg(s: string, i: nat, arg: F.Arg) returns (r: Result<(FormatSpec, nat), string>)
      requires i <= |s|
      modifies this
      ensures Did(r, F.ParseSpec(args, s, i, old(Indexing()), arg))
      ensures writer == old(writer) + if r.Success? then [F.Field(arg, r.value.0)] else []
    {
      hide F.ParseSpecBody;
      r := Success((DEFAULT_SPEC, i));
      if CharAt(s, i) == ':' { r := ParseSpecBody(s, i + 1, arg); }
      if r.Failure? { return; }
      if CharAt(s, r.value.1) != '}' { return Failure("missing '}' in format string"); }
      writer := writer + [F.Field(arg, r.value.0)];
      return Success((r.value.0, r.value.1 + 1));
    }

    /** A whole format string. */
    method Format(s: string) returns (r: Result<(), string>)
      modifies this
      ensures match F.FormatFrom(args, s, 0, 0, old(Indexing()))
        case Success((pieces, ix)) => r == Success(()) && writer == old(writer) + pieces && Indexing() == ix
        case Failure(e) => r == Failure(e)
    {
      hide F.ParseArgRef, F.ParseSpec;
      ghost var all := F.FormatFrom(args, s, 0, 0, Indexing());
      var start: nat, i: nat := 0, 0;
      ghost var written: seq<F.Piece> := [];
      PrependNothing(all);
      while CharAt(s, i) != '\0'
        invariant start <= i <= |s| && writer == old(writer) + written
        invariant all == F.Prepend(written, F.FormatFrom(args, s, start, i, Indexing()))
        decreases |s| - i
      {
        var c := s[i];
        if c != '{' && c != '}' {
          i := i + 1;
        } else if CharAt(s, i + 1) == c {
          writer := writer + [F.Text(s[start..i + 1])];
          i := i + 2;
          PrependTwice(written, [F.Text(s[start..i - 1])], F.FormatFrom(args, s, i, i, Indexing()));
          written := written + [F.Text(s[start..i - 1])];
          start := i;
        } else if c == '}' {
          return Failure("unmatched '}' in format string");
        } else {
          writer := writer + [F.Text(s[start..i])];
          var arg := ParseArg(s, i + 1);
          if arg.Failure? { return Failure(arg.error); }
          var field := FormatArg(s, arg.value.1, arg.value.0);
          if field.Failure? { return Failure(field.error); }
          ghost var pieces := [F.Text(s[start..i]), F.Field(arg.value.0, field.value.0)];
          i := field.value.1;
          PrependTwice(written, pieces, F.FormatFrom(args, s, i, i, Indexing()));
          written := written + pieces;
          start := i;
        }
      }
      writer := writer + [F.Text(s[start..i])];
      return Success(());
    }
  }

  lemma PrependNothing(rest: Result<(seq<F.Piece>, F.Indexing), string>)
    ensures F.Prepend([], rest) == rest
  {
    if rest.Success? { assert [] + rest.value.0 == rest.value.0; }
  }

  lemma PrependTwice(a: seq<F.Piece>, b: seq<F.Piece>, rest: Result<(seq<F.Piece>, F.Indexing), string>)
    ensures F.Prepend(a, F.Prepend(b, rest)) == F.Prepend(a + b, rest)
  {
    if rest.Success? { assert a + (b + rest.value.0) == (a + b) + rest.value.0; }
  }
}
