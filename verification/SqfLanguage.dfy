/** The language the sanitizer accepts, without ordered choice: values spelled with any spacing,
    either quote, any sign and leading zeros.  The parser accepts exactly this language. */
module SqfLanguage {
  import opened Wrappers
  import opened SqfGrammar
  import T = SqfTokens
  import Numerals

  // ----- spelled values -----

  datatype Syntax =
    | Numeral(sign: string, digits: string)
    | Word(word: string)
    | Quote(mark: char, text: string)
    | Array(items: seq<Item>, last: string)   // spaces in front of the closing bracket

  /** A value of an array with the spaces around the comma in front of it. */
  datatype Item = Item(gap: string, spaces: string, value: Syntax)

  function Text(v: Syntax): string
    decreases v
  {
    match v
    case Numeral(sign, digits) => sign + digits
    case Word(word) => word
    case Quote(mark, text) => [mark] + (text + [mark])
    case Array(items, last) => "[" + (ItemsText(items) + (last + "]"))
  }

  function ItemsText(items: seq<Item>): string
    decreases items
  {
    if items == [] then "" else items[0].spaces + (Text(items[0].value) + MoreText(items[1..]))
  }

  function MoreText(items: seq<Item>): string
    decreases items
  {
    if items == [] then ""
    else items[0].gap + ("," + (items[0].spaces + (Text(items[0].value) + MoreText(items[1..]))))
  }

  predicate AllSpaces(s: string) {
    forall i :: 0 <= i < |s| ==> s[i] == ' ' || '\t' <= s[i] <= '\r'
  }

  predicate WellSpelled(v: Syntax)
    decreases v
  {
    match v
    case Numeral(sign, digits) =>
      (sign == "" || sign == "+" || sign == "-") && digits != "" && Numerals.AllDigits(digits)
      && -9223372036854775808 <= T.NumberOf(sign, digits) < 9223372036854775808
    case Word(word) => word == "true" || word == "false" || word == "any"
    case Quote(mark, text) => (mark == '"' || mark == '\'') && AllAscii(text) && mark !in text
    case Array(items, last) => AllSpaces(last) && AllWellSpelled(items)
  }

  predicate AllWellSpelled(items: seq<Item>)
    decreases items
  {
    items == []
    || (AllSpaces(items[0].gap) && AllSpaces(items[0].spaces) && WellSpelled(items[0].value) && AllWellSpelled(items[1..]))
  }

  function Meaning(v: Syntax): Value
    decreases v
  {
    match v
    case Numeral(sign, digits) => Int(T.NumberOf(sign, digits))
    case Word(word) => if word == "true" then Bool(true) else if word == "false" then Bool(false) else Any
    case Quote(_, text) => Str(text)
    case Array(items, _) => Arr(Meanings(items))
  }

  function Meanings(items: seq<Item>): seq<Value>
    decreases items
  {
    if items == [] then [] else [Meaning(items[0].value)] + Meanings(items[1..])
  }

  /** A number ends where its digits end. */
  predicate Ends(v: Syntax, rest: string) {
    v.Numeral? ==> !Numerals.IsDigit(First(rest))
  }

  // ----- every spelled value is read -----

  lemma {:induction false} SkipSpaces(spaces: string, rest: string)
    requires AllSpaces(spaces)
    ensures Skip(spaces + rest) == Skip(rest)
  {
    if spaces == "" {
      assert spaces + rest == rest;
    } else {
      assert (spaces + rest)[1..] == spaces[1..] + rest;
      SkipSpaces(spaces[1..], rest);
    }
  }

  lemma NumeralRead(sign: string, digits: string, rest: string)
    requires WellSpelled(Numeral(sign, digits)) && !Numerals.IsDigit(First(rest))
    ensures Integral((sign + digits) + rest) == Some((Int(T.NumberOf(sign, digits)), rest))
  {
    T.NumberRead(sign, digits, rest, LONG_BOUND);
    T.IntAlternativeRedundant((sign + digits) + rest);
    hide Integral, Number, T.NumberOf;
  }

  lemma WordRead(word: string, rest: string)
    requires WellSpelled(Word(word))
    ensures Scalar(word + rest) == Some((Meaning(Word(word)), rest))
  {
    hide Scalar;
    if word == "any" { T.AnyPrinted(rest); } else { T.BoolPrinted(word == "true", rest); }
  }

  lemma QuoteRead(mark: char, text: string, rest: string)
    requires WellSpelled(Quote(mark, text))
    ensures Scalar([mark] + (text + ([mark] + rest))) == Some((Str(text), rest))
  {
    hide Integral, Begins, Quoted;
    var t := [mark] + (text + ([mark] + rest));
    T.NoNumber(t);
    T.OtherWord(t, "true");
    T.OtherWord(t, "false");
    T.QuotedPrinted(text, rest, mark);
    if mark == '\'' { NotQuoted(t); }
  }

  lemma NotQuoted(t: string)
    requires First(t) != '"'
    ensures Quoted(t, '"') == None
  {
  }

  lemma ScalarRead(v: Syntax, rest: string)
    requires WellSpelled(v) && !v.Array? && Ends(v, rest)
    ensures Scalar(Text(v) + rest) == Some((Meaning(v), rest)) && Skip(Text(v) + rest) == Text(v) + rest
  {
    match v
    case Numeral(sign, digits) => NumeralRead(sign, digits, rest); hide Integral;
    case Word(word) => hide Scalar; WordRead(word, rest);
    case Quote(mark, text) =>
      hide Scalar;
      assert Text(v) + rest == [mark] + (text + ([mark] + rest));
      QuoteRead(mark, text, rest);
  }

  lemma ArrayShape(items: seq<Item>, last: string, rest: string)
    ensures var t := Text(Array(items, last)) + rest;
      First(t) == '[' && Skip(t) == t && t[1..] == ItemsText(items) + (last + ("]" + rest))
  {
    assert Text(Array(items, last)) + rest == "[" + (ItemsText(items) + (last + ("]" + rest)));
  }

  /** Spaces and a spelled value in front of anything that does not continue a number. */
  lemma {:induction false} ValueRead(spaces: string, v: Syntax, rest: string)
    requires AllSpaces(spaces) && WellSpelled(v) && Ends(v, rest)
    ensures ParseValue(spaces + (Text(v) + rest)) == Some((Meaning(v), rest))
    decreases v, 1
  {
    hide Scalar, Text, Skip;
    var t := Text(v) + rest;
    SkipSpaces(spaces, t);
    if v.Array? {
      ArrayShape(v.items, v.last, rest);
      T.NoScalar(t);
      ItemsRead(v.items, v.last, rest);
      CloseRead(v.last, rest);
    } else {
      ScalarRead(v, rest);
    }
  }

  lemma CloseRead(last: string, rest: string)
    requires AllSpaces(last)
    ensures Skip(last + ("]" + rest)) == "]" + rest && First("]" + rest) == ']' && ("]" + rest)[1..] == rest
    ensures ParseValue(last + ("]" + rest)) == None && !Numerals.IsDigit(First(last + ("]" + rest)))
  {
    SkipSpaces(last, "]" + rest);
    T.NoScalar("]" + rest);
    hide Scalar;
  }

  /** What comes behind a value of an array. */
  lemma MoreStart(items: seq<Item>, close: string)
    requires AllWellSpelled(items) && !Numerals.IsDigit(First(close))
    ensures !Numerals.IsDigit(First(MoreText(items) + close))
  {
    if items != [] && items[0].gap != "" {
      assert First(MoreText(items) + close) == items[0].gap[0];
    } else if items == [] {
      assert "" + close == close;
    }
  }

  lemma {:induction false} ItemsRead(items: seq<Item>, last: string, rest: string)
    requires AllSpaces(last) && AllWellSpelled(items)
    ensures ParseItems(ItemsText(items) + (last + ("]" + rest))) == (Meanings(items), last + ("]" + rest))
    decreases items, 0
  {
    hide Text, ParseValue, ParseMore, Skip, WellSpelled;
    var close := last + ("]" + rest);
    CloseRead(last, rest);
    if items == [] {
      assert "" + close == close;
    } else {
      var tail := MoreText(items[1..]) + close;
      assert ItemsText(items) + close == items[0].spaces + (Text(items[0].value) + tail);
      MoreStart(items[1..], close);
      ValueRead(items[0].spaces, items[0].value, tail);
      MoreRead(items[1..], last, rest);
    }
  }

  lemma MoreShape(gap: string, spaces: string, value: string, more: string, close: string)
    requires AllSpaces(gap)
    ensures var t := (gap + ("," + (spaces + (value + more)))) + close;
      First(Skip(t)) == ',' && Skip(t)[1..] == spaces + (value + (more + close))
  {
    var u := "," + (spaces + (value + (more + close)));
    assert (gap + ("," + (spaces + (value + more)))) + close == gap + u;
    SkipSpaces(gap, u);
    assert Skip(u) == u;
  }

  lemma {:induction false} MoreRead(items: seq<Item>, last: string, rest: string)
    requires AllSpaces(last) && AllWellSpelled(items)
    ensures ParseMore(MoreText(items) + (last + ("]" + rest))) == (Meanings(items), last + ("]" + rest))
    decreases items, 0
  {
    hide Text, ParseValue, Skip, WellSpelled;
    var close := last + ("]" + rest);
    CloseRead(last, rest);
    if items == [] {
      assert "" + close == close;
    } else {
      var x := items[0];
      MoreShape(x.gap, x.spaces, Text(x.value), MoreText(items[1..]), close);
      MoreStart(items[1..], close);
      ValueRead(x.spaces, x.value, MoreText(items[1..]) + close);
      MoreRead(items[1..], last, rest);
    }
  }

  // ----- whatever is read was spelled -----

  lemma {:induction false} Spaces(t: string) returns (spaces: string)
    ensures AllSpaces(spaces) && t == spaces + Skip(t)
  {
    if IsSpace(First(t)) {
      spaces := Spaces(t[1..]);
      spaces := [t[0]] + spaces;
    } else {
      spaces := "";
    }
  }

  function SignOf(t: string): (sign: string)
    ensures t == sign + Unsigned(t)
  {
    if First(t) == '-' then "-" else if First(t) == '+' then "+" else ""
  }

  lemma SplitNumeral(t: string, sign: string, u: string, k: nat)
    requires k <= |u| && t == sign + u
    ensures t == (sign + u[..k]) + u[k..]
  {
  }

  lemma SpelledNumeral(t: string) returns (v: Syntax)
    requires Number(t, LONG_BOUND).Some?
    ensures var (n, rest) := Number(t, LONG_BOUND).value;
      WellSpelled(v) && v.Numeral? && Meaning(v) == Int(n) && t == Text(v) + rest && Ends(v, rest)
  {
    hide DecimalValue, Digits;
    var u := Unsigned(t);
    var k := Digits(u);
    var sign := SignOf(t);
    v := Numeral(sign, u[..k]);
    SplitNumeral(t, sign, u, k);
  }

  lemma SpelledWord(t: string, word: string) returns (v: Syntax)
    requires Begins(t, word) && (word == "true" || word == "false" || word == "any")
    ensures WellSpelled(v) && v == Word(word) && t == Text(v) + t[|word|..]
  {
    v := Word(word);
  }

  lemma SplitQuote(t: string, n: nat)
    requires 1 + n < |t| && t[1 + n] == t[0]
    ensures var u := t[1..]; t == ([t[0]] + (u[..n] + [t[0]])) + u[n + 1..]
  {
  }

  lemma SpelledQuote(t: string, mark: char) returns (v: Syntax)
    requires Quoted(t, mark).Some? && (mark == '"' || mark == '\'')
    ensures var (s, rest) := Quoted(t, mark).value;
      WellSpelled(v) && v.Quote? && Meaning(v) == s && t == Text(v) + rest
  {
    var u := t[1..];
    var n := Inside(u, mark);
    v := Quote(mark, u[..n]);
    SplitQuote(t, n);
  }

  lemma SpelledScalar(t: string) returns (v: Syntax)
    requires Scalar(t).Some?
    ensures var (x, rest) := Scalar(t).value;
      WellSpelled(v) && !v.Array? && Meaning(v) == x && t == Text(v) + rest && Ends(v, rest)
  {
    T.IntAlternativeRedundant(t);
    hide Integral, Number, Quoted, Begins, WellSpelled, Text;
    if Integral(t).Some? { v := SpelledNumeral(t); }
    else if Begins(t, "true") { v := SpelledWord(t, "true"); }
    else if Begins(t, "false") { v := SpelledWord(t, "false"); }
    else if Quoted(t, '"').Some? { v := SpelledQuote(t, '"'); }
    else if Quoted(t, '\'').Some? { v := SpelledQuote(t, '\''); }
    else { v := SpelledWord(t, "any"); }
  }

  lemma {:induction false} SpelledValue(t: string) returns (spaces: string, v: Syntax)
    requires ParseValue(t).Some?
    ensures var (x, rest) := ParseValue(t).value;
      AllSpaces(spaces) && WellSpelled(v) && Meaning(v) == x && t == spaces + (Text(v) + rest) && Ends(v, rest)
    decreases |t|, 0
  {
    hide Scalar, Skip, AllWellSpelled, Ends;
    var u := Skip(t);
    spaces := Spaces(t);
    if Scalar(u).Some? {
      hide Text, WellSpelled, Meaning;
      v := SpelledScalar(u);
    } else {
      var rest := ParseItems(u[1..]).1;
      var items := SpelledItems(u[1..]);
      var last := Spaces(rest);
      var close := Skip(rest);
      v := Array(items, last);
      hide ItemsText;
      SpelledArray(u, items, last, close);
    }
  }

  lemma SpelledArray(u: string, items: seq<Item>, last: string, close: string)
    requires First(u) == '[' && First(close) == ']' && u[1..] == ItemsText(items) + (last + close)
    ensures u == Text(Array(items, last)) + close[1..] && Ends(Array(items, last), close[1..])
  {
    hide ItemsText;
    assert close == "]" + close[1..];
    assert u == "[" + u[1..];
    assert "[" + (ItemsText(items) + (last + ("]" + close[1..]))) == ("[" + (ItemsText(items) + (last + "]"))) + close[1..];
  }

  lemma {:induction false} SpelledItems(t: string) returns (items: seq<Item>)
    ensures var (values, rest) := ParseItems(t);
      AllWellSpelled(items) && Meanings(items) == values && t == ItemsText(items) + rest
    decreases |t|, 1
  {
    hide ParseValue, ParseMore, Text, WellSpelled, Meaning;
    if ParseValue(t).Some? {
      var spaces, v := SpelledValue(t);
      var more := SpelledMore(ParseValue(t).value.1);
      items := [Item("", spaces, v)] + more;
      assert items[1..] == more;
    } else {
      items := [];
    }
  }

  lemma {:induction false} SpelledMore(t: string) returns (items: seq<Item>)
    ensures var (values, rest) := ParseMore(t);
      AllWellSpelled(items) && Meanings(items) == values && t == MoreText(items) + rest
    decreases |t|, 1
  {
    hide ParseValue, Text, WellSpelled, Meaning, Skip;
    var u := Skip(t);
    items := [];
    if First(u) == ',' && ParseValue(u[1..]).Some? {
      var gap := Spaces(t);
      var spaces, v := SpelledValue(u[1..]);
      var more := SpelledMore(ParseValue(u[1..]).value.1);
      items := [Item(gap, spaces, v)] + more;
      assert items[1..] == more;
      assert u == "," + u[1..];
    }
  }

  // ----- whole texts -----

  datatype Part = Part(spaces: string, value: Syntax)

  function PartsText(parts: seq<Part>, end: string): string {
    if parts == [] then end else parts[0].spaces + (Text(parts[0].value) + PartsText(parts[1..], end))
  }

  /** A run of values: spaces where one likes, but no number runs into the digits behind it. */
  predicate WellSpelledRun(parts: seq<Part>, end: string) {
    if parts == [] then AllSpaces(end)
    else
      && AllSpaces(parts[0].spaces) && WellSpelled(parts[0].value)
      && Ends(parts[0].value, PartsText(parts[1..], end)) && WellSpelledRun(parts[1..], end)
  }

  lemma {:induction false} AllSpacesSkip(s: string)
    ensures AllSpaces(s) <==> Skip(s) == ""
  {
    if s != "" && IsSpace(s[0]) {
      AllSpacesSkip(s[1..]);
      assert s == [s[0]] + s[1..];
    }
  }

  lemma {:induction false} RunRead(parts: seq<Part>, end: string)
    requires WellSpelledRun(parts, end)
    ensures Check(PartsText(parts, end))
  {
    hide ParseValue, WellSpelled, Text;
    if parts == [] {
      AllSpacesSkip(end);
      SpacesAreNoValue(end);
    } else {
      ValueRead(parts[0].spaces, parts[0].value, PartsText(parts[1..], end));
      RunRead(parts[1..], end);
    }
  }

  lemma SpacesAreNoValue(s: string)
    requires Skip(s) == ""
    ensures ParseValue(s) == None
  {
    T.NoNumber("");
  }

  lemma {:induction false} SpelledRun(t: string) returns (parts: seq<Part>, end: string)
    requires Check(t)
    ensures t == PartsText(parts, end) && WellSpelledRun(parts, end)
    decreases |t|
  {
    hide ParseValue, WellSpelled, Text;
    if ParseValue(t).Some? {
      var spaces, v := SpelledValue(t);
      parts, end := SpelledRun(ParseValue(t).value.1);
      var all := [Part(spaces, v)] + parts;
      assert all[1..] == parts;
      parts := all;
    } else {
      AllSpacesSkip(t);
      parts, end := [], t;
    }
  }

  /** The sanitizer accepts a text if and only if it is a run of spelled values. */
  lemma AcceptedLanguage(t: string)
    ensures Check(t) <==> exists parts, end :: WellSpelledRun(parts, end) && PartsText(parts, end) == t
  {
    hide Check, WellSpelledRun, PartsText;
    if Check(t) {
      var parts, end := SpelledRun(t);
    }
    forall parts, end | WellSpelledRun(parts, end) && PartsText(parts, end) == t ensures Check(t) {
      RunRead(parts, end);
    }
  }
}
