/** Quoting of text values: erasing or doubling quotes, and what the sanitizer makes of the result. */
module SqfQuoting {
  import opened Wrappers
  import opened SqfGrammar
  import T = SqfTokens
  import L = SqfLanguage
  import Numerals

  // ----- library replacements -----

  /** replace_all of a quote by two. */
  function Double(s: string, quote: char): string {
    if s == "" then "" else (if s[0] == quote then [quote, quote] else [s[0]]) + Double(s[1..], quote)
  }

  /** The reverse: each pair of quotes becomes one. */
  function Halve(s: string, quote: char): string {
    if s == "" then ""
    else if s[0] == quote && |s| > 1 && s[1] == quote then [quote] + Halve(s[2..], quote)
    else [s[0]] + Halve(s[1..], quote)
  }

  /** Every quote is followed by its twin. */
  predicate Paired(s: string, quote: char) {
    s == ""
    || if s[0] == quote then |s| > 1 && s[1] == quote && Paired(s[2..], quote) else Paired(s[1..], quote)
  }

  /** The characters outside a set, in order. */
  function Without(s: string, chars: string): string {
    if s == "" then "" else (if s[0] in chars then "" else [s[0]]) + Without(s[1..], chars)
  }

  /** erase_all of one character. */
  function Erase(s: string, c: char): string {
    if s == "" then "" else (if s[0] == c then "" else [s[0]]) + Erase(s[1..], c)
  }

  function Escape(s: string): string {
    Double(Double(s, '"'), '\'')
  }

  function Wrap(s: string): string {
    "\"" + (s + "\"")
  }

  function EraseQuotes(s: string): string {
    Erase(Erase(s, '"'), '\'')
  }

  // ----- what escaping and erasing leave -----

  lemma {:induction false} DoublePairs(s: string, quote: char)
    ensures Paired(Double(s, quote), quote)
  {
    if s != "" {
      var d := Double(s[1..], quote);
      DoublePairs(s[1..], quote);
      if s[0] == quote {
        assert ([quote, quote] + d)[2..] == d;
      } else {
        assert ([s[0]] + d)[1..] == d;
      }
    }
  }

  lemma {:induction false} DoubleKeepsPairs(s: string, quote: char, other: char)
    requires quote != other && Paired(s, quote)
    ensures Paired(Double(s, other), quote)
  {
    if s != "" {
      if s[0] == quote {
        var d := Double(s[2..], other);
        DoubleKeepsPairs(s[2..], quote, other);
        assert s[1..][0] == quote && s[1..][1..] == s[2..];
        assert Double(s, other) == [quote] + ([quote] + d);
        assert ([quote] + ([quote] + d))[2..] == d;
      } else {
        var d := Double(s[1..], other);
        DoubleKeepsPairs(s[1..], quote, other);
        if s[0] == other {
          assert ([other, other] + d)[1..] == [other] + d && ([other] + d)[1..] == d;
        } else {
          assert ([s[0]] + d)[1..] == d;
        }
      }
    }
  }

  /** Escaped text has no single quote character of either kind left alone. */
  lemma EscapePairs(s: string)
    ensures Paired(Escape(s), '"') && Paired(Escape(s), '\'')
  {
    hide Paired, Double;
    DoublePairs(s, '"');
    DoublePairs(Double(s, '"'), '\'');
    DoubleKeepsPairs(Double(s, '"'), '"', '\'');
  }

  lemma {:induction false} EraseThenWithout(s: string, c: char, chars: string)
    ensures Without(Erase(s, c), chars) == Without(s, [c] + chars)
  {
    if s != "" {
      EraseThenWithout(s[1..], c, chars);
      var e := Erase(s[1..], c);
      if s[0] == c {
        assert "" + e == e;
      } else {
        assert ([s[0]] + e)[1..] == e;
      }
    }
  }

  lemma {:induction false} WithoutNone(s: string)
    ensures Without(s, "") == s
  {
    if s != "" {
      WithoutNone(s[1..]);
      assert [s[0]] + s[1..] == s;
    }
  }

  lemma {:induction false} WithoutSame(s: string, chars: string)
    ensures |Without(s, chars)| <= |s|
    ensures Without(s, chars) == s <==> forall i :: 0 <= i < |s| ==> s[i] !in chars
  {
    if s != "" {
      WithoutSame(s[1..], chars);
      var w := Without(s[1..], chars);
      if s[0] in chars {
        assert |"" + w| < |s|;
      } else {
        assert [s[0]] + s[1..] == s;
        assert ([s[0]] + w)[1..] == w;
        assert forall i :: 1 <= i < |s| ==> s[i] == s[1..][i - 1];
      }
    }
  }

  /** Erasing one kind of quote and then the other leaves the other characters, in order. */
  lemma EraseQuotesIs(s: string)
    ensures EraseQuotes(s) == Without(s, "\"'")
  {
    EraseThenWithout(s, '"', "'");
    EraseThenWithout(Erase(s, '"'), '\'', "");
    WithoutNone(EraseQuotes(s));
    assert ['"'] + "'" == "\"'" && ['\''] + "" == "'";
  }

  // ----- escaping loses nothing -----

  lemma {:induction false} HalveDouble(s: string, quote: char)
    ensures Halve(Double(s, quote), quote) == s
  {
    if s != "" {
      var d := Double(s[1..], quote);
      HalveDouble(s[1..], quote);
      if s[0] == quote {
        assert ([quote, quote] + d)[2..] == d;
        assert [quote] + s[1..] == s;
      } else {
        assert ([s[0]] + d)[1..] == d;
        assert [s[0]] + s[1..] == s;
      }
    }
  }

  /** Halving in the reverse order undoes the escape. */
  lemma EscapeUndone(s: string)
    ensures Halve(Halve(Escape(s), '\''), '"') == s
  {
    HalveDouble(Double(s, '"'), '\'');
    HalveDouble(s, '"');
  }

  lemma EscapeInjective(s: string, t: string)
    requires Wrap(Escape(s)) == Wrap(Escape(t))
    ensures s == t
  {
    assert Wrap(Escape(s))[1..|Escape(s)| + 1] == Escape(s);
    assert Wrap(Escape(t))[1..|Escape(t)| + 1] == Escape(t);
    EscapeUndone(s);
    EscapeUndone(t);
  }

  // ----- what the sanitizer reads -----

  /** The order of the two replacements does not matter. */
  lemma {:induction false} DoubleCommutes(s: string)
    ensures Escape(s) == Double(Double(s, '\''), '"')
  {
    if s != "" {
      DoubleCommutes(s[1..]);
      DoublePrefix([s[0]], s[1..], '"');
      DoublePrefix([s[0]], s[1..], '\'');
      assert [s[0]] + s[1..] == s;
      DoublePrefix(Double([s[0]], '"'), Double(s[1..], '"'), '\'');
      DoublePrefix(Double([s[0]], '\''), Double(s[1..], '\''), '"');
      DoubleChar(s[0]);
    }
  }

  lemma {:induction false} DoublePrefix(a: string, b: string, quote: char)
    ensures Double(a + b, quote) == Double(a, quote) + Double(b, quote)
  {
    if a == "" {
      assert a + b == b;
    } else {
      assert (a + b)[1..] == a[1..] + b;
      DoublePrefix(a[1..], b, quote);
    }
  }

  lemma DoubleChar(c: char)
    ensures Double(Double([c], '"'), '\'') == Double(Double([c], '\''), '"')
  {
    assert [c][1..] == "" && [c, c][1..] == [c];
  }

  /** Where the first quote is, or the length. */
  function UpTo(s: string, quote: char): (n: nat)
    ensures n <= |s| && quote !in s[..n] && (n < |s| ==> s[n] == quote)
  {
    if s == "" || s[0] == quote then 0
    else
      var n := UpTo(s[1..], quote);
      assert s[..n + 1] == [s[0]] + s[1..][..n];
      n + 1
  }

  /** The pieces between double quotes, as values. */
  function Pieces(s: string): (r: seq<Value>)
    ensures r != []
  {
    var n := UpTo(s, '"');
    if n == |s| then [Str(s)] else [Str(s[..n])] + Pieces(s[n + 1..])
  }

  lemma {:induction false} DoubleNone(s: string, quote: char)
    requires quote !in s
    ensures Double(s, quote) == s
  {
    if s != "" {
      DoubleNone(s[1..], quote);
      assert [s[0]] + s[1..] == s;
    }
  }

  lemma DoubleAtQuote(a: string, b: string)
    requires '"' !in a
    ensures Double(a + ("\"" + b), '"') == a + ("\"\"" + Double(b, '"'))
  {
    DoubleNone(a, '"');
    DoublePrefix(a, "\"" + b, '"');
    var t := "\"" + b;
    assert t[1..] == b;
  }

  lemma WrapSplit(a: string, d: string)
    ensures Wrap(a + ("\"\"" + d)) == "\"" + (a + ("\"" + Wrap(d)))
  {
    var q := "\"";
    assert "\"\"" == q + q;
    assert (a + ((q + q) + d)) + q == a + (q + (q + (d + q)));
  }

  lemma SplitAt(s: string, n: nat)
    requires n < |s|
    ensures s == s[..n] + ([s[n]] + s[n + 1..])
  {
  }

  lemma RunOfOne(s: string)
    requires '"' !in s
    ensures Wrap(Double(s, '"')) == "\"" + (s + ("\"" + ""))
  {
    hide Double, Wrap;
    DoubleNone(s, '"');
    WrapShape(s);
  }

  lemma RunOfMore(s: string, a: string, b: string)
    requires s == a + ("\"" + b) && '"' !in a
    ensures Wrap(Double(s, '"')) == "\"" + (a + ("\"" + Wrap(Double(b, '"'))))
  {
    hide Double, Wrap;
    DoubleAtQuote(a, b);
    WrapSplit(a, Double(b, '"'));
  }

  /** What follows the first piece of wrapped doubled text: nothing, or the rest, wrapped and doubled. */
  function RunTail(s: string): string {
    var n := UpTo(s, '"');
    if n == |s| then "" else Wrap(Double(s[n + 1..], '"'))
  }

  /** Wrapped doubled text is its first piece, quoted, and then the rest. */
  lemma RunShape(s: string)
    ensures Wrap(Double(s, '"')) == "\"" + (s[..UpTo(s, '"')] + ("\"" + RunTail(s)))
  {
    hide Double, Wrap, RunTail;
    var n := UpTo(s, '"');
    RunTailOf(s);
    if n == |s| {
      assert s[..n] == s;
      RunOfOne(s);
    } else {
      SplitAt(s, n);
      RunOfMore(s, s[..n], s[n + 1..]);
    }
  }

  lemma RunTailOf(s: string)
    ensures var n := UpTo(s, '"'); if n == |s| then RunTail(s) == "" else RunTail(s) == Wrap(Double(s[n + 1..], '"'))
  {
    hide Double, Wrap;
  }

  lemma WrapShape(s: string)
    ensures Wrap(s) == "\"" + (s + ("\"" + ""))
  {
    assert "\"" + "" == "\"";
  }

  lemma {:induction false} InsideStops(text: string, rest: string, quote: char)
    requires !AllAscii(text) && quote !in text
    ensures var n := Inside(text + rest, quote); n < |text| && !IsAscii(text[n])
  {
    assert (text + rest)[0] == text[0];
    if IsAscii(text[0]) {
      assert (text + rest)[1..] == text[1..] + rest;
      InsideStops(text[1..], rest, quote);
    }
  }

  lemma NotAQuoted(text: string, rest: string)
    requires !AllAscii(text) && '"' !in text
    ensures ParseValue("\"" + (text + rest)) == None && Skip("\"" + (text + rest)) == "\"" + (text + rest)
  {
    var u := text + rest;
    var t := "\"" + u;
    hide Integral, Begins;
    InsideStops(text, rest, '"');
    assert t[1..] == u;
    T.NoNumber(t);
    T.OtherWord(t, "true");
    T.OtherWord(t, "false");
    T.OtherWord(t, "any");
  }

  lemma QuotedValue(text: string, rest: string)
    requires AllAscii(text) && '"' !in text
    ensures ParseValue("\"" + (text + ("\"" + rest))) == Some((Str(text), rest))
  {
    hide Scalar;
    var t := "\"" + (text + ("\"" + rest));
    T.StrPrinted(text, rest);
    assert Skip(t) == t;
  }

  lemma AsciiSplit(s: string, n: nat)
    requires n < |s| && IsAscii(s[n])
    ensures AllAscii(s) <==> AllAscii(s[..n]) && AllAscii(s[n + 1..])
  {
    if AllAscii(s[..n]) && AllAscii(s[n + 1..]) {
      forall i | 0 <= i < |s| ensures IsAscii(s[i]) {
        if i < n { assert s[i] == s[..n][i]; } else if i > n { assert s[i] == s[n + 1..][i - n - 1]; }
      }
    }
  }

  /** Doubled text in quotes is accepted exactly when it is ASCII, as a run of adjacent strings. */
  lemma {:induction false} RunAccepted(s: string)
    ensures Check(Wrap(Double(s, '"'))) <==> AllAscii(s)
    ensures AllAscii(s) ==> ParseAll(Wrap(Double(s, '"'))).0 == Pieces(s)
    decreases |s|
  {
    hide ParseValue, Skip, Wrap, Double, RunTail;
    var n := UpTo(s, '"');
    var tail := RunTail(s);
    RunShape(s);
    RunTailOf(s);
    if n < |s| {
      RunAccepted(s[n + 1..]);
      AsciiSplit(s, n);
    } else {
      T.NothingLeft();
      assert s[..n] == s;
    }
    if AllAscii(s[..n]) {
      QuotedValue(s[..n], tail);
    } else {
      NotAQuoted(s[..n], "\"" + tail);
    }
  }

  lemma {:induction false} DoubleAscii(s: string, quote: char)
    requires IsAscii(quote)
    ensures AllAscii(Double(s, quote)) <==> AllAscii(s)
  {
    if s != "" {
      DoubleAscii(s[1..], quote);
      var head := if s[0] == quote then [quote, quote] else [s[0]];
      AsciiAppend(head, Double(s[1..], quote));
      AsciiAppend([s[0]], s[1..]);
      assert [s[0]] + s[1..] == s;
    }
  }

  lemma AsciiAppend(a: string, b: string)
    ensures AllAscii(a + b) <==> AllAscii(a) && AllAscii(b)
  {
    if AllAscii(a + b) {
      forall i | 0 <= i < |a| ensures IsAscii(a[i]) { assert a[i] == (a + b)[i]; }
      forall i | 0 <= i < |b| ensures IsAscii(b[i]) { assert b[i] == (a + b)[|a| + i]; }
    }
  }

  /** The escape-quotes option passes the sanitizer exactly for ASCII input. */
  lemma EscapedAccepted(s: string)
    ensures Check(Wrap(Escape(s))) <==> AllAscii(s)
    ensures AllAscii(s) ==> ParseAll(Wrap(Escape(s))).0 == Pieces(Double(s, '\''))
  {
    DoubleCommutes(s);
    RunAccepted(Double(s, '\''));
    DoubleAscii(s, '\'');
  }

  lemma {:induction false} EraseAscii(s: string, c: char)
    requires IsAscii(c)
    ensures (AllAscii(Erase(s, c)) <==> AllAscii(s)) && c !in Erase(s, c)
    ensures forall x :: x in Erase(s, c) ==> x in s
  {
    if s != "" {
      EraseAscii(s[1..], c);
      AsciiAppend([s[0]], s[1..]);
      AsciiAppend(if s[0] == c then "" else [s[0]], Erase(s[1..], c));
      assert [s[0]] + s[1..] == s;
    }
  }

  /** The String option passes exactly for ASCII input, and is then exactly one string. */
  lemma ErasedAccepted(s: string)
    ensures Check(Wrap(EraseQuotes(s))) <==> AllAscii(s)
    ensures AllAscii(s) ==> ParseAll(Wrap(EraseQuotes(s))) == ([Str(EraseQuotes(s))], "")
  {
    var e := EraseQuotes(s);
    EraseAscii(s, '"');
    EraseAscii(Erase(s, '"'), '\'');
    assert '"' !in e;
    DoubleNone(e, '"');
    RunAccepted(e);
    assert UpTo(e, '"') == |e|;
  }

  // ----- text wrapped as it is -----

  predicate PlainString(s: string) {
    AllAscii(s) && '"' !in s
  }

  /** What passes when quotes are merely put around it: one string without a double quote, or two of
      them with any accepted text between them, each behind or in front of a double quote. */
  ghost predicate PassesInQuotes(s: string) {
    PlainString(s)
    || exists a, m, b :: s == a + ("\"" + (m + ("\"" + b))) && PlainString(a) && Check(m) && PlainString(b)
  }

  /** Reading one value in front of something that does not continue it. */
  lemma OneStep(spaces: string, x: L.Syntax, rest: string)
    requires L.AllSpaces(spaces) && L.WellSpelled(x) && L.Ends(x, rest)
    ensures Check(spaces + (L.Text(x) + rest)) <==> Check(rest)
  {
    hide ParseValue, L.Text, L.WellSpelled, L.Meaning, L.Ends;
    L.ValueRead(spaces, x, rest);
  }

  lemma SpacesPass(m: string)
    requires ParseValue(m) == None && Check(m)
    ensures L.AllSpaces(m)
  {
    hide ParseValue;
    L.AllSpacesSkip(m);
  }

  lemma SpacesAccepted(m: string)
    requires L.AllSpaces(m)
    ensures Check(m)
  {
    hide ParseValue;
    L.AllSpacesSkip(m);
    L.SpacesAreNoValue(m);
  }

  lemma EndsInFront(x: L.Syntax, rest: string, more: string)
    requires L.Ends(x, rest) && (rest == "" ==> L.Ends(x, more))
    ensures L.Ends(x, rest + more)
  {
    if rest == "" { assert rest + more == more; }
  }

  /** A quoted string may follow any accepted text. */
  lemma {:induction false} QuotedBehind(m: string, b: string)
    requires Check(m) && PlainString(b)
    ensures Check(m + Wrap(b))
    decreases |m|
  {
    hide ParseValue, L.Text, L.WellSpelled, L.Meaning, L.Ends, Wrap;
    if ParseValue(m).Some? {
      var rest := ParseValue(m).value.1;
      var spaces, x := L.SpelledValue(m);
      QuotedBehind(rest, b);
      WrapEnds(x, b);
      EndsInFront(x, rest, Wrap(b));
      OneStep(spaces, x, rest + Wrap(b));
      assert (spaces + (L.Text(x) + rest)) + Wrap(b) == spaces + (L.Text(x) + (rest + Wrap(b)));
    } else {
      SpacesPass(m);
      QuoteText(b);
      T.NothingLeft();
      OneStep(m, L.Quote('"', b), "");
      assert m + (Wrap(b) + "") == m + Wrap(b);
    }
  }

  lemma QuoteText(b: string)
    requires PlainString(b)
    ensures L.Text(L.Quote('"', b)) == Wrap(b) && L.WellSpelled(L.Quote('"', b)) && L.Ends(L.Quote('"', b), "")
  {
  }

  lemma WrapEnds(x: L.Syntax, b: string)
    ensures L.Ends(x, Wrap(b))
  {
  }

  lemma LastChar(x: L.Syntax)
    requires L.WellSpelled(x)
    ensures L.Text(x) != ""
    ensures var c := L.Text(x)[|L.Text(x)| - 1];
      match x
      case Numeral(_, _) => Numerals.IsDigit(c)
      case Word(_) => c == 'e' || c == 'y'
      case Quote(mark, _) => c == mark
      case Array(_, _) => c == ']'
  {
    if x.Array? { ArrayEnds(L.ItemsText(x.items), x.last); }
  }

  lemma ArrayEnds(items: string, last: string)
    ensures var t := "[" + (items + (last + "]")); t[|t| - 1] == ']'
  {
  }

  /** A spelled value that ends with a double quote is a string in double quotes. */
  lemma EndsInQuote(x: L.Syntax)
    requires L.WellSpelled(x) && L.Text(x) != "" && L.Text(x)[|L.Text(x)| - 1] == '"'
    ensures x.Quote? && x.mark == '"' && PlainString(x.text)
  {
    hide L.Text;
    LastChar(x);
  }

  lemma EndsUnspaced(r: string)
    ensures !L.AllSpaces(r + "\"")
  {
    assert (r + "\"")[|r|] == '"';
  }

  /** Accepted text that ends with a double quote ends with a string, behind accepted text. */
  lemma {:induction false} LastString(r: string) returns (m: string, b: string)
    requires Check(r + "\"")
    ensures r == m + ("\"" + b) && Check(m) && PlainString(b)
    decreases |r|
  {
    hide ParseValue, L.Text, L.WellSpelled, L.Meaning, L.Ends;
    var t := r + "\"";
    EndsUnspaced(r);
    if ParseValue(t) == None {
      SpacesPass(t);
      assert false;
    }
    var rest := ParseValue(t).value.1;
    var spaces, x := L.SpelledValue(t);
    LastChar(x);
    if rest == "" {
      WholeValue(r, spaces, L.Text(x));
      EndsInQuote(x);
      QuoteText(x.text);
      m, b := spaces, x.text;
      SpacesAccepted(m);
      StripLast(r, spaces, b);
    } else {
      var k := |rest| - 1;
      RestEnds(r, spaces + L.Text(x), rest);
      var m', b' := LastString(rest[..k]);
      m, b := spaces + (L.Text(x) + m'), b';
      EndsShorter(x, m', rest, b');
      OneStep(spaces, x, m');
      Rejoin(r, spaces, L.Text(x), rest, m', b');
    }
  }

  lemma WholeValue(r: string, spaces: string, value: string)
    requires r + "\"" == spaces + (value + "") && value != ""
    ensures value[|value| - 1] == '"'
  {
    assert (r + "\"")[|r|] == '"';
  }

  lemma StripLast(r: string, spaces: string, b: string)
    requires r + "\"" == spaces + (Wrap(b) + "")
    ensures r == spaces + ("\"" + b)
  {
    assert spaces + (Wrap(b) + "") == (spaces + ("\"" + b)) + "\"";
    assert (r + "\"")[..|r|] == r;
  }

  lemma RestEnds(r: string, front: string, rest: string)
    requires r + "\"" == front + rest && rest != "" && front != ""
    ensures rest == rest[..|rest| - 1] + "\"" && |rest| - 1 < |r|
  {
    assert (r + "\"")[|r|] == '"';
  }

  lemma EndsShorter(x: L.Syntax, m: string, rest: string, b: string)
    requires L.Ends(x, rest) && rest != "" && rest[..|rest| - 1] == m + ("\"" + b)
    ensures L.Ends(x, m)
  {
    if m != "" { assert m[0] == rest[..|rest| - 1][0]; }
  }

  lemma Rejoin(r: string, spaces: string, value: string, rest: string, m: string, b: string)
    requires rest != "" && rest == rest[..|rest| - 1] + "\"" && r + "\"" == spaces + (value + rest)
    requires rest[..|rest| - 1] == m + ("\"" + b)
    ensures r == (spaces + (value + m)) + ("\"" + b)
  {
    assert spaces + (value + rest) == ((spaces + (value + m)) + ("\"" + b)) + "\"";
    assert (r + "\"")[..|r|] == r;
  }

  /** Exactly what passes the check when quotes are put around it unescaped. */
  lemma InQuotesAccepted(s: string)
    ensures Check(Wrap(s)) <==> PassesInQuotes(s)
  {
    if Check(Wrap(s)) { PassesIfAccepted(s); }
    if PassesInQuotes(s) { AcceptedIfPasses(s); }
  }

  lemma AcceptedIfPasses(s: string)
    requires PassesInQuotes(s)
    ensures Check(Wrap(s))
  {
    hide ParseValue, Check;
    if PlainString(s) {
      SpacesAccepted("");
      QuotedBehind("", s);
      assert "" + Wrap(s) == Wrap(s);
    } else {
      var a, m, b :| s == a + ("\"" + (m + ("\"" + b))) && PlainString(a) && Check(m) && PlainString(b);
      QuotedBehind(m, b);
      QuoteText(a);
      AnyEnds(a, m + Wrap(b));
      OneStep("", L.Quote('"', a), m + Wrap(b));
      assert "" + (Wrap(a) + (m + Wrap(b))) == Wrap(s);
    }
  }

  lemma AnyEnds(a: string, rest: string)
    ensures L.Ends(L.Quote('"', a), rest)
  {
  }

  lemma FirstPiece(t: string, a: string, rest: string)
    requires t == "\"" + (a + ("\"" + rest)) && '"' !in a && Check(t)
    ensures AllAscii(a) && Check(rest)
  {
    hide ParseValue, AllAscii, Skip;
    if AllAscii(a) { QuotedValue(a, rest); } else { NotAQuoted(a, "\"" + rest); }
  }

  lemma WrappedFront(a: string, b: string)
    ensures Wrap(a + ("\"" + b)) == "\"" + (a + ("\"" + (b + "\"")))
  {
    assert (a + ("\"" + b)) + "\"" == a + ("\"" + (b + "\""));
  }

  /** The first value of wrapped text is the string up to its first double quote. */
  lemma FirstString(s: string)
    requires Check(Wrap(s))
    ensures var n := UpTo(s, '"');
      PlainString(s[..n]) && (n < |s| ==> Check(s[n + 1..] + "\""))
  {
    hide Check, AllAscii, Wrap;
    var n := UpTo(s, '"');
    if n == |s| {
      assert s[..n] == s;
      WrapShape(s);
      FirstPiece(Wrap(s), s, "");
    } else {
      SplitAt(s, n);
      WrappedFront(s[..n], s[n + 1..]);
      FirstPiece(Wrap(s), s[..n], s[n + 1..] + "\"");
    }
  }

  lemma PassesIfAccepted(s: string)
    requires Check(Wrap(s))
    ensures PassesInQuotes(s)
  {
    hide Check;
    var n := UpTo(s, '"');
    FirstString(s);
    if n == |s| {
      assert s[..n] == s;
    } else {
      var m, b := LastString(s[n + 1..]);
      SplitAt(s, n);
      assert s == s[..n] + ("\"" + (m + ("\"" + b)));
    }
  }
}
