/** What the grammar makes of single tokens. */
module SqfTokens {
  import opened Wrappers
  import opened SqfGrammar
  import Numerals

  predicate Within(n: int, bound: nat) {
    0 <= n + bound && n < bound
  }

  // ----- numbers -----

  function NumberOf(sign: string, digits: string): int {
    if sign == "-" then 0 - DecimalValue(digits) else DecimalValue(digits)
  }

  lemma {:induction false} DigitsOf(d: string, rest: string)
    requires Numerals.AllDigits(d) && !Numerals.IsDigit(First(rest))
    ensures Digits(d + rest) == |d|
  {
    if d == "" {
      assert d + rest == rest;
    } else {
      assert (d + rest)[1..] == d[1..] + rest;
      DigitsOf(d[1..], rest);
    }
  }

  lemma DecimalStart(n: nat)
    ensures |Numerals.Decimal(n)| >= 1 && Numerals.AllDigits(Numerals.Decimal(n))
    ensures DecimalValue(Numerals.Decimal(n)) == n
  {
    Numerals.DecimalDigits(n);
    Numerals.NumeralReadsBack(n, 10, false);
  }

  lemma SignRead(sign: string, u: string)
    requires (sign == "" || sign == "+" || sign == "-") && Numerals.IsDigit(First(u))
    ensures Unsigned(sign + u) == u && (First(sign + u) == '-' <==> sign == "-")
  {
    if sign == "" { assert sign + u == u; } else { assert (sign + u)[1..] == u; }
  }

  /** A sign and digits in front of something else: the number, if it is within the bound. */
  lemma NumberRead(sign: string, digits: string, rest: string, bound: nat)
    requires (sign == "" || sign == "+" || sign == "-") && digits != "" && Numerals.AllDigits(digits)
    requires !Numerals.IsDigit(First(rest))
    ensures var n := NumberOf(sign, digits);
      Number((sign + digits) + rest, bound) == if Within(n, bound) then Some((n, rest)) else None
  {
    hide Unsigned, DecimalValue, Digits;
    var u := digits + rest;
    assert (sign + digits) + rest == sign + u;
    assert digits[0] == u[0];
    SignRead(sign, u);
    DigitsOf(digits, rest);
    assert u[..|digits|] == digits && u[|digits|..] == rest;
  }

  /** The 32-bit alternative never changes what is read: the grammar could do without it. */
  lemma IntAlternativeRedundant(t: string)
    ensures Integral(t) == Long(t)
  {
  }

  /** Text that starts with none of '+', '-' and a digit is no number. */
  lemma NoNumber(t: string)
    requires !Numerals.IsDigit(First(t)) && First(t) != '-' && First(t) != '+'
    ensures Integral(t) == None
  {
  }

  // ----- quoted text and words -----

  lemma {:induction false} InsideOf(text: string, rest: string, quote: char)
    requires AllAscii(text) && quote !in text && rest != "" && rest[0] == quote
    ensures Inside(text + rest, quote) == |text|
  {
    if text == "" {
      assert text + rest == rest;
    } else {
      assert (text + rest)[1..] == text[1..] + rest;
      InsideOf(text[1..], rest, quote);
    }
  }

  lemma QuotedPrinted(text: string, rest: string, quote: char)
    requires AllAscii(text) && quote !in text
    ensures Quoted([quote] + (text + ([quote] + rest)), quote) == Some((Str(text), rest))
  {
    var u := text + ([quote] + rest);
    InsideOf(text, [quote] + rest, quote);
    assert ([quote] + u)[1..] == u;
    assert u[..|text|] == text && u[|text| + 1..] == rest;
  }

  lemma WordPrinted(word: string, rest: string)
    ensures Begins(word + rest, word) && (word + rest)[|word|..] == rest
  {
  }

  lemma OtherWord(t: string, word: string)
    requires word != "" && First(t) != word[0]
    ensures !Begins(t, word)
  {
  }

  lemma BoolPrinted(b: bool, rest: string)
    ensures Scalar((if b then "true" else "false") + rest) == Some((Bool(b), rest))
  {
    hide Integral, Begins;
    var t := (if b then "true" else "false") + rest;
    NoNumber(t);
    WordPrinted(if b then "true" else "false", rest);
    if !b { OtherWord(t, "true"); }
  }

  lemma AnyPrinted(rest: string)
    ensures Scalar("any" + rest) == Some((Any, rest))
  {
    hide Integral, Begins;
    var t := "any" + rest;
    NoNumber(t);
    WordPrinted("any", rest);
    OtherWord(t, "true");
    OtherWord(t, "false");
  }

  lemma StrPrinted(text: string, rest: string)
    requires AllAscii(text) && '"' !in text
    ensures Scalar("\"" + (text + ("\"" + rest))) == Some((Str(text), rest))
  {
    hide Integral, Begins, Quoted;
    var t := "\"" + (text + ("\"" + rest));
    NoNumber(t);
    OtherWord(t, "true");
    OtherWord(t, "false");
    QuotedPrinted(text, rest, '"');
  }

  lemma NoScalar(t: string)
    requires First(t) == '[' || First(t) == ']'
    ensures Scalar(t) == None && Skip(t) == t
  {
    NoNumber(t);
  }

  lemma NothingLeft()
    ensures ParseValue("") == None && ParseAll("") == ([], "")
  {
    NoNumber("");
  }
}
