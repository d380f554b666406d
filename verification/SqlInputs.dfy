/** How the values of a custom SQL call are stripped, quoted and sanitized before they are bound. */
module SqlInputs {
  import opened SqfGrammar
  import opened SqfQuoting
  import R = SqfRoundTrip
  import Numerals

  datatype InputOption = InputOption(
    number: nat, strip: bool, asString: bool, escapeQuotes: bool, boolean: bool,
    check: bool, addQuotes: bool, addEscapeQuotes: bool)

  datatype StripAction = NoAction | Strip | StripLog | StripError

  /** Every strip character erased, one after the other. */
  function Stripped(s: string, chars: string): string
    decreases |chars|
  {
    if chars == "" then s else Stripped(Erase(s, chars[0]), chars[1..])
  }

  function Lower(s: string): (r: string)
    ensures |r| == |s|
  {
    seq(|s|, i requires 0 <= i < |s| => if 'A' <= s[i] <= 'Z' then (s[i] as int + 32) as char else s[i])
  }

  /** The value in the form its type option asks for. */
  function Typed(opt: InputOption, s: string): string {
    if opt.asString then (if s == "" then "\"\"" else Wrap(EraseQuotes(s)))
    else if opt.escapeQuotes then (if s == "" then "\"\"" else Wrap(Escape(s)))
    else if opt.boolean then (if Lower(s) == "true" then "1" else "0")
    else s
  }

  /** The text the sanitizer sees. */
  function Sanitized(opt: InputOption, typed: string): string {
    if opt.addQuotes then Wrap(typed)
    else if opt.addEscapeQuotes then Wrap(Escape(typed))
    else typed
  }

  /** The value that is bound. */
  function Bound(opt: InputOption, typed: string): string {
    if opt.check && !opt.addQuotes && opt.addEscapeQuotes then Escape(typed) else typed
  }

  function AfterStrip(opt: InputOption, input: string, chars: string): string {
    if opt.strip then Stripped(input, chars) else input
  }

  function Processed(opt: InputOption, input: string, chars: string): string {
    Bound(opt, Typed(opt, AfterStrip(opt, input, chars)))
  }

  predicate StripAllows(opt: InputOption, input: string, chars: string, action: StripAction) {
    AfterStrip(opt, input, chars) != input ==> !action.StripError?
  }

  predicate Accepts(opt: InputOption, input: string, chars: string, action: StripAction) {
    && StripAllows(opt, input, chars, action)
    && (opt.check ==> Check(Sanitized(opt, Typed(opt, AfterStrip(opt, input, chars)))))
  }

  const STRIP_FOUND: string := "[0,\"Error Strip Char Found\"]"
  const NOT_SANITIZED: string := "[0,\"Error Input Value is not sanitized\"]"

  /** The message after one value: the sanitizer's has the last word, then the stripping's. */
  function Report(opt: InputOption, input: string, chars: string, action: StripAction, before: string): string {
    if opt.check && !Check(Sanitized(opt, Typed(opt, AfterStrip(opt, input, chars)))) then NOT_SANITIZED
    else if AfterStrip(opt, input, chars) != input && !action.NoAction? then STRIP_FOUND
    else before
  }

  /** The message after the first k values of a statement. */
  function LineReport(line: seq<InputOption>, k: nat, inputs: seq<string>, chars: string, action: StripAction, before: string): string
    requires k <= |line| && forall j :: 0 <= j < |line| ==> line[j].number < |inputs|
  {
    if k == 0 then before
    else
      Report(line[k - 1], inputs[line[k - 1].number], chars, action, LineReport(line, k - 1, inputs, chars, action, before))
  }

  /** The message after the first l statements. */
  function CallReport(lines: seq<seq<InputOption>>, l: nat, inputs: seq<string>, chars: string, action: StripAction, before: string): string
    requires l <= |lines|
    requires forall m, k :: 0 <= m < |lines| && 0 <= k < |lines[m]| ==> lines[m][k].number < |inputs|
  {
    if l == 0 then before
    else LineReport(lines[l - 1], |lines[l - 1]|, inputs, chars, action, CallReport(lines, l - 1, inputs, chars, action, before))
  }

  // ----- the loops -----

  method StripChars(input: string, chars: string) returns (temp: string)
    ensures temp == Stripped(input, chars)
  {
    temp := input;
    for k := 0 to |chars|
      invariant Stripped(temp, chars[k..]) == Stripped(input, chars)
    {
      temp := Erase(temp, chars[k]);
      assert chars[k..][1..] == chars[k + 1..];
    }
  }

  method ApplyType(opt: InputOption, s: string) returns (temp: string)
    ensures temp == Typed(opt, s)
  {
    hide Wrap, EraseQuotes, Escape, Lower;
    temp := s;
    if opt.asString {
      if temp == "" { temp := "\"\""; } else { temp := Wrap(EraseQuotes(temp)); }
    } else if opt.escapeQuotes {
      if temp == "" { temp := "\"\""; } else { temp := Wrap(Escape(temp)); }
    } else if opt.boolean {
      temp := if Lower(temp) == "true" then "1" else "0";
    }
  }

  method ProcessInput(opt: InputOption, input: string, chars: string, action: StripAction, status: bool, result: string)
    returns (temp: string, status': bool, result': string)
    ensures temp == Processed(opt, input, chars)
    ensures status' <==> status && Accepts(opt, input, chars, action)
    ensures result' == Report(opt, input, chars, action, result)
  {
    hide Check, Stripped, Escape, Wrap, Typed;
    temp, status', result' := input, status, result;
    if opt.strip {
      temp := StripChars(input, chars);
      if temp != input && action != NoAction {
        if action == StripError { status' := false; }
        result' := STRIP_FOUND;
      }
    }
    temp := ApplyType(opt, temp);
    if opt.check {
      var text := temp;
      if opt.addQuotes {
        text := Wrap(text);
      } else if opt.addEscapeQuotes {
        temp := Escape(temp);
        text := Wrap(temp);
      }
      if !Check(text) {
        status' := false;
        result' := NOT_SANITIZED;
      }
    }
  }

  /** A refused value leaves one of the two messages, and a message is only replaced by one. */
  lemma RefusalReported(opt: InputOption, input: string, chars: string, action: StripAction, before: string)
    ensures var r := Report(opt, input, chars, action, before);
      && (!Accepts(opt, input, chars, action) ==> r == STRIP_FOUND || r == NOT_SANITIZED)
      && (r == before || r == STRIP_FOUND || r == NOT_SANITIZED)
  {
  }

  /** Both messages are SQF arrays of a 0 and the text, as the caller expects of an error. */
  lemma StripFoundRead()
    ensures ParseAll(STRIP_FOUND) == ([Arr([Int(0), Str("Error Strip Char Found")])], "")
  {
    hide ParseAll;
    R.ErrorRead("Error Strip Char Found");
    StripMessage();
  }

  lemma NotSanitizedRead()
    ensures ParseAll(NOT_SANITIZED) == ([Arr([Int(0), Str("Error Input Value is not sanitized")])], "")
  {
    hide ParseAll;
    R.ErrorRead("Error Input Value is not sanitized");
    SanitizeMessage();
  }

  lemma StripMessage()
    ensures "[0,\"" + "Error Strip Char Found" + "\"]" == STRIP_FOUND
  {
  }

  lemma SanitizeMessage()
    ensures "[0,\"" + "Error Input Value is not sanitized" + "\"]" == NOT_SANITIZED
  {
  }

  /** The values of one statement. */
  method ProcessLine(inputs: seq<string>, line: seq<InputOption>, chars: string, action: StripAction, status: bool, result: string)
    returns (processed: seq<string>, status': bool, result': string)
    requires forall k :: 0 <= k < |line| ==> line[k].number < |inputs|
    requires !status ==> result == STRIP_FOUND || result == NOT_SANITIZED
    ensures |processed| == |line|
    ensures forall k :: 0 <= k < |line| ==> processed[k] == Processed(line[k], inputs[line[k].number], chars)
    ensures status' <==> status && forall k :: 0 <= k < |line| ==> Accepts(line[k], inputs[line[k].number], chars, action)
    ensures result' == LineReport(line, |line|, inputs, chars, action, result)
    ensures !status' ==> result' == STRIP_FOUND || result' == NOT_SANITIZED
  {
    hide Accepts, Processed, Report;
    processed, status', result' := [], status, result;
    for k := 0 to |line|
      invariant |processed| == k
      invariant forall j :: 0 <= j < k ==> processed[j] == Processed(line[j], inputs[line[j].number], chars)
      invariant status' <==> status && forall j :: 0 <= j < k ==> Accepts(line[j], inputs[line[j].number], chars, action)
      invariant result' == LineReport(line, k, inputs, chars, action, result)
      invariant !status' ==> result' == STRIP_FOUND || result' == NOT_SANITIZED
    {
      RefusalReported(line[k], inputs[line[k].number], chars, action, result');
      var temp: string;
      temp, status', result' := ProcessInput(line[k], inputs[line[k].number], chars, action, status', result');
      processed := processed + [temp];
    }
  }

  /** The values of every statement of a call: they are bound only if all of them are accepted. */
  method ProcessInputs(inputs: seq<string>, lines: seq<seq<InputOption>>, chars: string, action: StripAction, result: string)
    returns (all: seq<seq<string>>, status: bool, result': string)
    requires forall l, k :: 0 <= l < |lines| && 0 <= k < |lines[l]| ==> lines[l][k].number < |inputs|
    ensures |all| == |lines| && forall l :: 0 <= l < |lines| ==> |all[l]| == |lines[l]|
    ensures forall l, k :: 0 <= l < |lines| && 0 <= k < |lines[l]| ==>
      all[l][k] == Processed(lines[l][k], inputs[lines[l][k].number], chars)
    ensures status <==> forall l, k :: 0 <= l < |lines| && 0 <= k < |lines[l]| ==>
      Accepts(lines[l][k], inputs[lines[l][k].number], chars, action)
    ensures result' == CallReport(lines, |lines|, inputs, chars, action, result)
    ensures !status ==> result' == STRIP_FOUND || result' == NOT_SANITIZED
  {
    hide Accepts, Processed, Report, LineReport;
    all, status, result' := [], true, result;
    for l := 0 to |lines|
      invariant |all| == l && forall m :: 0 <= m < l ==> |all[m]| == |lines[m]|
      invariant forall m, k :: 0 <= m < l && 0 <= k < |lines[m]| ==>
        all[m][k] == Processed(lines[m][k], inputs[lines[m][k].number], chars)
      invariant status <==> forall m, k :: 0 <= m < l && 0 <= k < |lines[m]| ==>
        Accepts(lines[m][k], inputs[lines[m][k].number], chars, action)
      invariant result' == CallReport(lines, l, inputs, chars, action, result)
      invariant !status ==> result' == STRIP_FOUND || result' == NOT_SANITIZED
    {
      var processed: seq<string>;
      processed, status, result' := ProcessLine(inputs, lines[l], chars, action, status, result');
      all := all + [processed];
    }
  }

  // ----- what is accepted -----

  /** Stripping one character after the other removes exactly the strip characters, in any order. */
  lemma {:induction false} StrippedIsWithout(s: string, chars: string)
    ensures Stripped(s, chars) == Without(s, chars)
    decreases |chars|
  {
    if chars == "" {
      WithoutNone(s);
    } else {
      StrippedIsWithout(Erase(s, chars[0]), chars[1..]);
      EraseThenWithout(s, chars[0], chars[1..]);
      assert [chars[0]] + chars[1..] == chars;
    }
  }

  /** What stripping leaves. */
  function Left(opt: InputOption, input: string, chars: string): string {
    if opt.strip then Without(input, chars) else input
  }

  lemma AfterStripLeft(opt: InputOption, input: string, chars: string)
    ensures AfterStrip(opt, input, chars) == Left(opt, input, chars)
    ensures Left(opt, input, chars) != input <==> opt.strip && exists i :: 0 <= i < |input| && input[i] in chars
  {
    StrippedIsWithout(input, chars);
    WithoutSame(input, chars);
  }

  predicate SaysTrue(s: string) {
    |s| == 4 && s[0] in "tT" && s[1] in "rR" && s[2] in "uU" && s[3] in "eE"
  }

  lemma LowerTrue(s: string)
    ensures Lower(s) == "true" <==> SaysTrue(s)
  {
    var r := Lower(s);
    if |s| == 4 {
      assert r == [r[0], r[1], r[2], r[3]] && "true" == ['t', 'r', 'u', 'e'];
      assert r[0] == 't' <==> s[0] in "tT";
      assert r[1] == 'r' <==> s[1] in "rR";
      assert r[2] == 'u' <==> s[2] in "uU";
      assert r[3] == 'e' <==> s[3] in "eE";
    }
  }

  lemma WrapInside(s: string)
    ensures Wrap(s) == "\"" + s + "\"" && |Wrap(s)| == |s| + 2
    ensures Wrap(s)[0] == '"' && Wrap(s)[|s| + 1] == '"' && Wrap(s)[1..|s| + 1] == s
  {
  }

  lemma TypedValue(opt: InputOption, s: string)
    ensures var typed := Typed(opt, s);
      && (opt.asString ==> typed == "\"" + Without(s, "\"'") + "\"")
      && (!opt.asString && opt.escapeQuotes ==>
           && |typed| >= 2 && typed[0] == '"' && typed[|typed| - 1] == '"'
           && var inside := typed[1..|typed| - 1];
              Paired(inside, '"') && Paired(inside, '\'') && Halve(Halve(inside, '\''), '"') == s)
      && (!opt.asString && !opt.escapeQuotes && opt.boolean ==> typed == if SaysTrue(s) then "1" else "0")
      && (!opt.asString && !opt.escapeQuotes && !opt.boolean ==> typed == s)
  {
    EmptyQuoted();
    LowerTrue(s);
    EraseQuotesIs(s);
    EscapeUndone(s);
    EscapePairs(s);
    WrapInside(EraseQuotes(s));
    WrapInside(Escape(s));
    hide Wrap, EraseQuotes, Escape, Halve, Paired, Lower, SaysTrue, Without;
  }

  /** What is bound for a value whose check, if there is one, does not escape it: a string between
      double quotes without any quotes inside; an escaped string between double quotes, its quotes
      in pairs, that halving them turns back; 1 for true in any case of letters and 0 for anything
      else; or the value as it is. */
  lemma BoundValue(opt: InputOption, input: string, chars: string)
    requires !(opt.check && !opt.addQuotes && opt.addEscapeQuotes)
    ensures var s, bound := if opt.strip then Without(input, chars) else input, Processed(opt, input, chars);
      && (opt.asString ==> bound == "\"" + Without(s, "\"'") + "\"")
      && (!opt.asString && opt.escapeQuotes ==>
           && |bound| >= 2 && bound[0] == '"' && bound[|bound| - 1] == '"'
           && var inside := bound[1..|bound| - 1];
              Paired(inside, '"') && Paired(inside, '\'') && Halve(Halve(inside, '\''), '"') == s)
      && (!opt.asString && !opt.escapeQuotes && opt.boolean ==>
           bound == if |s| == 4 && s[0] in "tT" && s[1] in "rR" && s[2] in "uU" && s[3] in "eE" then "1" else "0")
      && (!opt.asString && !opt.escapeQuotes && !opt.boolean ==> bound == s)
  {
    AfterStripLeft(opt, input, chars);
    TypedValue(opt, Left(opt, input, chars));
    hide Typed, Halve, Paired, AfterStrip, Without;
  }

  /** A check that escapes has the escaped form bound: its quotes in pairs, and halving them gives
      what would be bound without the check. */
  lemma BoundEscaped(opt: InputOption, input: string, chars: string)
    requires opt.check && !opt.addQuotes && opt.addEscapeQuotes
    ensures var bound := Processed(opt, input, chars);
      && Paired(bound, '"') && Paired(bound, '\'')
      && Halve(Halve(bound, '\''), '"') == Processed(opt.(check := false), input, chars)
  {
    hide Typed, Halve, Paired, Stripped, Escape;
    var typed := Typed(opt, AfterStrip(opt, input, chars));
    EscapeUndone(typed);
    EscapePairs(typed);
    assert Typed(opt.(check := false), AfterStrip(opt, input, chars)) == typed by { SameType(opt, AfterStrip(opt, input, chars)); }
  }

  lemma SameType(opt: InputOption, s: string)
    ensures Typed(opt.(check := false), s) == Typed(opt, s)
  {
  }

  /** The verdict on one value: it is refused by the check, which an unchecked option does not have,
      or because something was stripped and that is an error; the messages word for word. */
  lemma Verdict(opt: InputOption, input: string, chars: string, action: StripAction, before: string)
    ensures var found := opt.strip && exists i :: 0 <= i < |input| && input[i] in chars;
      var passes := Accepts(opt, input, chars, NoAction);
      && (!opt.check ==> passes)
      && (Accepts(opt, input, chars, action) <==> passes && !(found && action.StripError?))
      && Report(opt, input, chars, action, before)
         == (if !passes then "[0,\"Error Input Value is not sanitized\"]"
             else if found && !action.NoAction? then "[0,\"Error Strip Char Found\"]" else before)
  {
    AfterStripLeft(opt, input, chars);
    hide Typed, AfterStrip, Left, Sanitized, Check;
  }

  /** Values of the string and escape options in either form, and booleans. */
  lemma TypedAscii(opt: InputOption, s: string)
    ensures AllAscii(Typed(opt, s)) <==> (opt.boolean && !opt.asString && !opt.escapeQuotes) || AllAscii(s)
  {
    EmptyQuoted();
    hide Wrap, EraseQuotes, Escape, AllAscii, Lower;
    EraseAscii(s, '"');
    EraseAscii(Erase(s, '"'), '\'');
    DoubleAscii(s, '"');
    DoubleAscii(Double(s, '"'), '\'');
    WrapAscii(EraseQuotes(s));
    WrapAscii(Escape(s));
    BooleanAscii();
    ErasedTwice(s);
  }

  lemma ErasedTwice(s: string)
    ensures EraseQuotes(s) == Erase(Erase(s, '"'), '\'') && Escape(s) == Double(Double(s, '"'), '\'')
  {
  }

  lemma WrapAscii(s: string)
    ensures AllAscii(Wrap(s)) <==> AllAscii(s)
  {
    AsciiAppend(s, "\"");
    AsciiAppend("\"", s + "\"");
  }

  lemma BooleanAscii()
    ensures AllAscii("1") && AllAscii("0")
  {
  }

  lemma EmptyQuoted()
    ensures Wrap(EraseQuotes("")) == "\"\"" && Wrap(Escape("")) == "\"\""
  {
  }

  lemma BooleanAccepted()
    ensures Check("1") && Check("0")
  {
    assert Numerals.Integer(1) == "1" && Numerals.Integer(0) == "0";
    R.PrintedIsAccepted(Int(1));
    R.PrintedIsAccepted(Int(0));
  }

  /** With the check on and no quotes added for it: a string value in either form is accepted exactly
      when what stripping left of it is ASCII, a boolean always, and any other value when it is a run
      of SQF values itself; unless stripping something is an error. */
  lemma CheckedOption(opt: InputOption, input: string, chars: string, action: StripAction)
    requires opt.check && !opt.addQuotes && !opt.addEscapeQuotes
    ensures Accepts(opt, input, chars, action) <==>
      && StripAllows(opt, input, chars, action)
      && if opt.asString || opt.escapeQuotes then AllAscii(AfterStrip(opt, input, chars))
         else opt.boolean || Check(AfterStrip(opt, input, chars))
  {
    EmptyQuoted();
    hide AfterStrip, Check, AllAscii, Escape, EraseQuotes, Lower, Wrap;
    var s := AfterStrip(opt, input, chars);
    ErasedAccepted(s);
    EscapedAccepted(s);
    BooleanAccepted();
  }

  /** A value that is escaped for the check, in whatever form its type option gave it, is accepted
      exactly when what stripping left of it is ASCII, or it is a boolean, unless stripping something
      is an error; it is bound escaped, without the quotes, and its form can be recovered. */
  lemma EscapeCheckedOption(opt: InputOption, input: string, chars: string, action: StripAction)
    requires opt.check && !opt.addQuotes && opt.addEscapeQuotes
    ensures Accepts(opt, input, chars, action) <==>
      && StripAllows(opt, input, chars, action)
      && ((opt.boolean && !opt.asString && !opt.escapeQuotes) || AllAscii(AfterStrip(opt, input, chars)))
    ensures Halve(Halve(Processed(opt, input, chars), '\''), '"') == Typed(opt, AfterStrip(opt, input, chars))
  {
    hide AfterStrip, Check, AllAscii, Escape, Halve, Typed;
    var s := AfterStrip(opt, input, chars);
    TypedAscii(opt, s);
    EscapedAccepted(Typed(opt, s));
    EscapeUndone(Typed(opt, s));
  }

  /** A value that only gets quotes around it for the check is accepted exactly when it passes in
      quotes: as one string without a double quote, or as two with accepted text between them. */
  lemma QuoteCheckedOption(opt: InputOption, input: string, chars: string, action: StripAction)
    requires opt.check && opt.addQuotes
    ensures Accepts(opt, input, chars, action) <==>
      StripAllows(opt, input, chars, action) && PassesInQuotes(Typed(opt, AfterStrip(opt, input, chars)))
    ensures Processed(opt, input, chars) == Typed(opt, AfterStrip(opt, input, chars))
  {
    hide AfterStrip, Check, Typed, PassesInQuotes, Wrap;
    InQuotesAccepted(Typed(opt, AfterStrip(opt, input, chars)));
  }
}
