/** What the sanitizer accepts: every printed value, and only text with balanced brackets. */
module SqfRoundTrip {
  import opened Wrappers
  import opened SqfGrammar
  import T = SqfTokens
  import L = SqfLanguage
  import Numerals

  // ----- printed values are read back -----

  function Print(v: Value): string
    decreases v
  {
    match v
    case Int(n) => Numerals.Integer(n)
    case Bool(b) => if b then "true" else "false"
    case Str(text) => "\"" + (text + "\"")
    case Any => "any"
    case Arr(items) => "[" + (PrintItems(items) + "]")
  }

  function PrintItems(items: seq<Value>): string
    decreases items
  {
    if items == [] then "" else Print(items[0]) + PrintMore(items[1..])
  }

  function PrintMore(items: seq<Value>): string
    decreases items
  {
    if items == [] then "" else "," + (Print(items[0]) + PrintMore(items[1..]))
  }

  /** Values with a printed form: 64-bit numbers, ASCII strings without a double quote. */
  predicate Printable(v: Value)
    decreases v
  {
    match v
    case Int(n) => -9223372036854775808 <= n < 9223372036854775808
    case Str(text) => AllAscii(text) && '"' !in text
    case Arr(items) => AllPrintable(items)
    case _ => true
  }

  predicate AllPrintable(items: seq<Value>)
    decreases items
  {
    items == [] || (Printable(items[0]) && AllPrintable(items[1..]))
  }

  predicate Follows(v: Value, rest: string) {
    v.Int? ==> !Numerals.IsDigit(First(rest))
  }

  /** The printed form as a spelling: no spaces, double quotes, no leading zeros. */
  function Spell(v: Value): L.Syntax
    decreases v
  {
    match v
    case Int(n) => L.Numeral(if n < 0 then "-" else "", Numerals.Decimal(if n < 0 then -n else n))
    case Bool(b) => L.Word(if b then "true" else "false")
    case Str(text) => L.Quote('"', text)
    case Any => L.Word("any")
    case Arr(items) => L.Array(SpellAll(items), "")
  }

  function SpellAll(items: seq<Value>): seq<L.Item>
    decreases items
  {
    if items == [] then [] else [L.Item("", "", Spell(items[0]))] + SpellAll(items[1..])
  }

  lemma {:induction false} SpellPrints(v: Value)
    requires Printable(v)
    ensures L.WellSpelled(Spell(v)) && L.Meaning(Spell(v)) == v && L.Text(Spell(v)) == Print(v)
    decreases v
  {
    match v
    case Int(n) => NumberPrints(n);
    case Arr(items) =>
      SpellAllPrints(items);
      hide L.ItemsText, PrintItems, L.AllWellSpelled, L.Meanings, SpellAll;
      assert "" + "]" == "]";
    case Bool(b) =>
    case Any =>
    case Str(text) =>
  }

  lemma NumberPrints(n: int)
    requires T.Within(n, LONG_BOUND)
    ensures L.WellSpelled(Spell(Int(n))) && L.Meaning(Spell(Int(n))) == Int(n) && L.Text(Spell(Int(n))) == Print(Int(n))
  {
    var magnitude: nat := if n < 0 then -n else n;
    var d := Numerals.Decimal(magnitude);
    T.DecimalStart(magnitude);
    NumeralPrints(n, d);
  }

  lemma NumeralPrints(n: int, d: string)
    requires T.Within(n, LONG_BOUND) && d != "" && Numerals.AllDigits(d) && d == Numerals.Decimal(if n < 0 then -n else n)
    requires DecimalValue(d) == if n < 0 then -n else n
    ensures var v := L.Numeral(if n < 0 then "-" else "", d);
      L.WellSpelled(v) && L.Meaning(v) == Int(n) && L.Text(v) == Print(Int(n))
  {
    hide Numerals.Decimal, DecimalValue, Numerals.AllDigits;
    assert "" + d == d;
  }

  lemma {:induction false} SpellAllPrints(items: seq<Value>)
    requires AllPrintable(items)
    ensures L.AllWellSpelled(SpellAll(items)) && L.Meanings(SpellAll(items)) == items
    ensures L.ItemsText(SpellAll(items)) == PrintItems(items) && L.MoreText(SpellAll(items)) == PrintMore(items)
    decreases items
  {
    hide Print, Spell, L.Text, L.WellSpelled, L.Meaning;
    if items != [] {
      SpellPrints(items[0]);
      SpellAllPrints(items[1..]);
      assert SpellAll(items)[1..] == SpellAll(items[1..]);
      assert [items[0]] + items[1..] == items;
      OneItem(Print(items[0]), PrintMore(items[1..]));
    }
  }

  lemma OneItem(value: string, more: string)
    ensures "" + (value + more) == value + more && "" + ("," + ("" + (value + more))) == "," + (value + more)
  {
  }

  /** Every printed value, nested arrays included, is read back, and the rest is left. */
  lemma ValueRoundTrip(v: Value, rest: string)
    requires Printable(v) && Follows(v, rest)
    ensures ParseValue(Print(v) + rest) == Some((v, rest))
  {
    SpellPrints(v);
    hide ParseValue, Print, L.Text, L.WellSpelled;
    L.ValueRead("", Spell(v), rest);
    assert "" + (Print(v) + rest) == Print(v) + rest;
  }

  /** The sanitizer accepts the printed form of every value, and reads exactly that value. */
  lemma PrintedIsAccepted(v: Value)
    requires Printable(v)
    ensures Check(Print(v)) && ParseAll(Print(v)) == ([v], "")
  {
    hide ParseValue, Print;
    assert Print(v) + "" == Print(v);
    ValueRoundTrip(v, "");
    T.NothingLeft();
    assert [v] + [] == [v];
  }

  /** An array of a one-digit number and a string, character by character. */
  lemma PairIsRead(n: nat, text: string)
    requires n < 10 && AllAscii(text) && '"' !in text
    ensures ParseAll("[" + [('0' as int + n) as char] + ",\"" + text + "\"]") == ([Arr([Int(n), Str(text)])], "")
  {
    var v := Arr([Int(n), Str(text)]);
    PairPrinted(n, text);
    assert Printable(v) by {
      assert [Int(n), Str(text)][1..] == [Str(text)] && [Str(text)][1..] == [];
      assert T.Within(n, LONG_BOUND) && AllPrintable([Str(text)]) && AllPrintable([Int(n), Str(text)]);
    }
    hide Print, Printable, ParseAll;
    PrintedIsAccepted(v);
  }

  /** An error text: an array of a 0 and the message. */
  lemma ErrorRead(text: string)
    requires AllAscii(text) && '"' !in text
    ensures ParseAll("[0,\"" + text + "\"]") == ([Arr([Int(0), Str(text)])], "")
  {
    hide ParseAll;
    PairIsRead(0, text);
    assert "[" + [('0' as int + 0) as char] + ",\"" == "[0,\"";
  }

  lemma PairPrinted(n: nat, text: string)
    requires n < 10
    ensures Print(Arr([Int(n), Str(text)])) == "[" + [('0' as int + n) as char] + ",\"" + text + "\"]"
  {
    var digit := [('0' as int + n) as char];
    assert Print(Int(n)) == digit;
    assert [Int(n), Str(text)][1..] == [Str(text)] && [Str(text)][1..] == [];
    assert PrintMore([Str(text)]) == "," + (("\"" + (text + "\"")) + "");
    assert PrintItems([Int(n), Str(text)]) == digit + ("," + (("\"" + (text + "\"")) + ""));
    PairJoined(digit, text);
  }

  lemma PairJoined(digit: string, text: string)
    ensures "[" + ((digit + ("," + (("\"" + (text + "\"")) + ""))) + "]") == "[" + digit + ",\"" + text + "\"]"
  {
    Bracketed(digit, ",", "\"", text, "]");
    assert "," + "\"" == ",\"" && "\"" + "]" == "\"]";
  }

  lemma Bracketed(digit: string, comma: string, quote: string, text: string, close: string)
    ensures "[" + ((digit + (comma + ((quote + (text + quote)) + ""))) + close)
      == "[" + digit + (comma + quote) + text + (quote + close)
  {
  }

  // ----- accepted text has balanced brackets -----

  /** Brackets balance outside quoted text; `quote` is the open quote, '\0' outside. */
  predicate Balanced(t: string, depth: nat, quote: char) {
    if t == "" then depth == 0 && quote == '\0'
    else
      var c := t[0];
      if quote != '\0' then Balanced(t[1..], depth, if c == quote then '\0' else quote)
      else if c == '"' || c == '\'' then Balanced(t[1..], depth, c)
      else if c == '[' then Balanced(t[1..], depth + 1, quote)
      else if c == ']' then depth > 0 && Balanced(t[1..], depth - 1, quote)
      else Balanced(t[1..], depth, quote)
  }

  predicate Neutral(s: string) {
    forall i :: 0 <= i < |s| ==> s[i] !in "\"'[]"
  }

  lemma {:induction false} NeutralPrefix(s: string, rest: string, depth: nat)
    requires Neutral(s)
    ensures Balanced(s + rest, depth, '\0') == Balanced(rest, depth, '\0')
  {
    if s == "" {
      assert s + rest == rest;
    } else {
      assert (s + rest)[1..] == s[1..] + rest;
      NeutralPrefix(s[1..], rest, depth);
    }
  }

  lemma {:induction false} QuotedPrefix(text: string, rest: string, quote: char, depth: nat)
    requires quote !in text && (quote == '"' || quote == '\'') && rest != "" && rest[0] == quote
    ensures Balanced(text + rest, depth, quote) == Balanced(rest[1..], depth, '\0')
  {
    if text == "" {
      assert text + rest == rest;
    } else {
      assert (text + rest)[1..] == text[1..] + rest;
      QuotedPrefix(text[1..], rest, quote, depth);
    }
  }

  lemma {:induction false} SkipBalance(t: string, depth: nat)
    ensures Balanced(Skip(t), depth, '\0') == Balanced(t, depth, '\0')
  {
    if IsSpace(First(t)) { SkipBalance(t[1..], depth); }
  }

  lemma NumberBalance(t: string, bound: nat, depth: nat)
    ensures Number(t, bound).Some? ==> Balanced(Number(t, bound).value.1, depth, '\0') == Balanced(t, depth, '\0')
  {
    hide Balanced, DecimalValue;
    var u := Unsigned(t);
    var k := Digits(u);
    if k > 0 {
      assert u == u[..k] + u[k..];
      NeutralPrefix(u[..k], u[k..], depth);
      if u != t {
        assert t == [t[0]] + u;
        NeutralPrefix([t[0]], u, depth);
      }
    }
  }

  lemma IntegralBalance(t: string, depth: nat)
    ensures Integral(t).Some? ==> Balanced(Integral(t).value.1, depth, '\0') == Balanced(t, depth, '\0')
  {
    hide Number;
    NumberBalance(t, INT_BOUND, depth);
    NumberBalance(t, LONG_BOUND, depth);
  }

  lemma QuotedBalance(t: string, quote: char, depth: nat)
    requires quote == '"' || quote == '\''
    ensures Quoted(t, quote).Some? ==> Balanced(Quoted(t, quote).value.1, depth, '\0') == Balanced(t, depth, '\0')
  {
    if Quoted(t, quote).Some? {
      var u := t[1..];
      var n := Inside(u, quote);
      QuotedPrefix(u[..n], u[n..], quote, depth);
      assert u[..n] + u[n..] == u;
      assert u[n..][1..] == u[n + 1..];
    }
  }

  lemma WordBalance(t: string, word: string, depth: nat)
    requires Neutral(word)
    ensures Begins(t, word) ==> Balanced(t[|word|..], depth, '\0') == Balanced(t, depth, '\0')
  {
    if Begins(t, word) {
      NeutralPrefix(word, t[|word|..], depth);
      assert word + t[|word|..] == t;
    }
  }

  lemma ScalarBalance(t: string, depth: nat)
    ensures Scalar(t).Some? ==> Balanced(Scalar(t).value.1, depth, '\0') == Balanced(t, depth, '\0')
  {
    hide Integral, Quoted, Balanced, Begins;
    IntegralBalance(t, depth);
    QuotedBalance(t, '"', depth);
    QuotedBalance(t, '\'', depth);
    WordBalance(t, "true", depth);
    WordBalance(t, "false", depth);
    WordBalance(t, "any", depth);
  }

  lemma {:induction false} ValueBalance(t: string, depth: nat)
    ensures ParseValue(t).Some? ==> Balanced(ParseValue(t).value.1, depth, '\0') == Balanced(t, depth, '\0')
    decreases |t|, 0
  {
    hide Scalar, Balanced, Skip;
    var u := Skip(t);
    SkipBalance(t, depth);
    ScalarBalance(u, depth);
    if Scalar(u) == None && First(u) == '[' {
      var rest := ParseItems(u[1..]).1;
      OpenBalance(u, depth);
      ItemsBalance(u[1..], depth + 1);
      SkipBalance(rest, depth + 1);
      CloseBalance(Skip(rest), depth);
    }
  }

  lemma OpenBalance(t: string, depth: nat)
    requires First(t) == '['
    ensures Balanced(t, depth, '\0') == Balanced(t[1..], depth + 1, '\0')
  {
  }

  lemma CloseBalance(t: string, depth: nat)
    ensures First(t) == ']' ==> Balanced(t, depth + 1, '\0') == Balanced(t[1..], depth, '\0')
  {
  }

  lemma CommaBalance(t: string, depth: nat)
    requires First(t) == ','
    ensures Balanced(t, depth, '\0') == Balanced(t[1..], depth, '\0')
  {
  }

  lemma {:induction false} ItemsBalance(t: string, depth: nat)
    ensures Balanced(ParseItems(t).1, depth, '\0') == Balanced(t, depth, '\0')
    decreases |t|, 1
  {
    hide ParseValue, ParseMore, Balanced;
    ValueBalance(t, depth);
    if ParseValue(t).Some? { MoreBalance(ParseValue(t).value.1, depth); }
  }

  lemma {:induction false} MoreBalance(t: string, depth: nat)
    ensures Balanced(ParseMore(t).1, depth, '\0') == Balanced(t, depth, '\0')
    decreases |t|, 1
  {
    hide ParseValue, Balanced, Skip;
    var u := Skip(t);
    SkipBalance(t, depth);
    if First(u) == ',' {
      CommaBalance(u, depth);
      ValueBalance(u[1..], depth);
      if ParseValue(u[1..]).Some? { MoreBalance(ParseValue(u[1..]).value.1, depth); }
    }
  }

  lemma {:induction false} AllBalance(t: string, depth: nat)
    ensures Balanced(ParseAll(t).1, depth, '\0') == Balanced(t, depth, '\0')
    decreases |t|
  {
    hide ParseValue, Balanced;
    ValueBalance(t, depth);
    if ParseValue(t).Some? { AllBalance(ParseValue(t).value.1, depth); } else { SkipBalance(t, depth); }
  }

  /** Everything the sanitizer accepts has its brackets balanced outside quoted text. */
  lemma AcceptedIsBalanced(t: string)
    requires Check(t)
    ensures Balanced(t, 0, '\0')
  {
    AllBalance(t, 0);
  }

  // ----- joining balanced texts -----

  /** Balanced text in front changes nothing about what follows. */
  lemma {:induction false} BalancedInFront(s: string, rest: string, depth: nat, more: nat, quote: char)
    requires Balanced(s, depth, quote)
    ensures Balanced(s + rest, depth + more, quote) == Balanced(rest, more, '\0')
    decreases |s|
  {
    if s == "" {
      assert s + rest == rest;
    } else {
      var c := s[0];
      assert (s + rest)[1..] == s[1..] + rest && (s + rest)[0] == c;
      if quote != '\0' { BalancedInFront(s[1..], rest, depth, more, if c == quote then '\0' else quote); }
      else if c == '"' || c == '\'' { BalancedInFront(s[1..], rest, depth, more, c); }
      else if c == '[' { BalancedInFront(s[1..], rest, depth + 1, more, quote); }
      else if c == ']' { BalancedInFront(s[1..], rest, depth - 1, more, quote); }
      else { BalancedInFront(s[1..], rest, depth, more, quote); }
    }
  }
}
