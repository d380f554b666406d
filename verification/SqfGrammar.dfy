/** The grammar of SQF values: ordered choice over the remaining input, spaces skipped in front of
    every token. */
module SqfGrammar {
  import opened Wrappers
  import opened Numerals

  datatype Value = Int(n: int) | Bool(b: bool) | Str(text: string) | Any | Arr(items: seq<Value>)

  predicate IsSpace(c: char) {
    c == ' ' || ('\t' <= c && c <= '\r')
  }

  predicate IsAscii(c: char) {
    c as int < 128
  }

  predicate AllAscii(s: string) {
    forall i :: 0 <= i < |s| ==> s[i] as int < 128
  }

  function First(t: string): char {
    if t == "" then '\0' else t[0]
  }

  function Skip(t: string): (r: string)
    ensures |r| <= |t| && !IsSpace(First(r))
  {
    if IsSpace(First(t)) then Skip(t[1..]) else t
  }

  /** The length of the run of digits at the front. */
  function Digits(t: string): (n: nat)
    ensures n <= |t| && AllDigits(t[..n]) && !IsDigit(First(t[n..]))
  {
    if IsDigit(First(t)) then
      var n := Digits(t[1..]);
      assert t[..n + 1] == [t[0]] + t[1..][..n] && t[n + 1..] == t[1..][n..];
      n + 1
    else 0
  }

  function Unsigned(t: string): (u: string)
    ensures |u| <= |t|
  {
    if First(t) == '-' || First(t) == '+' then t[1..] else t
  }

  /** An optional sign and digits, the number within [-bound, bound). */
  function Number(t: string, bound: nat): (r: Option<(int, string)>)
    ensures r.Some? ==> |r.value.1| < |t|
  {
    var u := Unsigned(t);
    var k := Digits(u);
    var n := if First(t) == '-' then 0 - DecimalValue(u[..k]) else DecimalValue(u[..k]);
    if k == 0 || n + bound < 0 || n >= bound then None else Some((n, u[k..]))
  }

  function DecimalValue(s: string): int {
    Numerals.Value(s, 10)
  }

  const INT_BOUND: nat := 0x8000_0000
  const LONG_BOUND: nat := 0x8000_0000_0000_0000

  /** A 32-bit integer that no digit follows, else a 64-bit integer. */
  function Integral(t: string): (r: Option<(Value, string)>)
    ensures r.Some? ==> |r.value.1| < |t|
  {
    match Number(t, INT_BOUND)
    case Some((n, rest)) => if !IsDigit(First(Skip(rest))) then Some((Int(n), rest)) else Long(t)
    case None => Long(t)
  }

  function Long(t: string): (r: Option<(Value, string)>)
    ensures r.Some? ==> |r.value.1| < |t|
  {
    match Number(t, LONG_BOUND)
    case Some((n, rest)) => Some((Int(n), rest))
    case None => None
  }

  /** The length of the run of ASCII characters other than the quote. */
  function Inside(t: string, quote: char): (n: nat)
    ensures n <= |t| && (forall i :: 0 <= i < n ==> IsAscii(t[i]) && t[i] != quote)
    ensures n < |t| ==> !IsAscii(t[n]) || t[n] == quote
  {
    if t != "" && IsAscii(t[0]) && t[0] != quote then 1 + Inside(t[1..], quote) else 0
  }

  function Quoted(t: string, quote: char): (r: Option<(Value, string)>)
    ensures r.Some? ==> |r.value.1| < |t|
  {
    if First(t) != quote || t == "" then None
    else
      var u := t[1..];
      var n := Inside(u, quote);
      if n < |u| && u[n] == quote then Some((Str(u[..n]), u[n + 1..])) else None
  }

  predicate Begins(t: string, word: string) {
    |word| <= |t| && t[..|word|] == word
  }

  function Scalar(t: string): (r: Option<(Value, string)>)
    ensures r.Some? ==> |r.value.1| < |t|
  {
    var number := Integral(t);
    if number.Some? then number
    else if Begins(t, "true") then Some((Bool(true), t[4..]))
    else if Begins(t, "false") then Some((Bool(false), t[5..]))
    else if Quoted(t, '"').Some? then Quoted(t, '"')
    else if Quoted(t, '\'').Some? then Quoted(t, '\'')
    else if Begins(t, "any") then Some((Any, t[3..]))
    else None
  }

  /** One value: the value and what is left.  Every value takes at least one character. */
  function ParseValue(t: string): (r: Option<(Value, string)>)
    ensures r.Some? ==> |r.value.1| < |t|
    decreases |t|, 0
  {
    var u := Skip(t);
    if Scalar(u).Some? then Scalar(u)
    else if First(u) != '[' then None
    else
      var (items, rest) := ParseItems(u[1..]);
      var close := Skip(rest);
      if First(close) == ']' then Some((Arr(items), close[1..])) else None
  }

  /** Zero or more values with commas between them. */
  function ParseItems(t: string): (r: (seq<Value>, string))
    ensures |r.1| <= |t|
    decreases |t|, 1
  {
    match ParseValue(t)
    case None => ([], t)
    case Some((v, rest)) => var (more, left) := ParseMore(rest); ([v] + more, left)
  }

  function ParseMore(t: string): (r: (seq<Value>, string))
    ensures |r.1| <= |t|
    decreases |t|, 1
  {
    var u := Skip(t);
    if First(u) != ',' then ([], t)
    else
      match ParseValue(u[1..])
      case None => ([], t)
      case Some((v, rest)) => var (more, left) := ParseMore(rest); ([v] + more, left)
  }

  /** As many values as possible. */
  function ParseAll(t: string): (seq<Value>, string)
    decreases |t|
  {
    match ParseValue(t)
    case None => ([], Skip(t))
    case Some((v, rest)) => var (more, left) := ParseAll(rest); ([v] + more, left)
  }

  /** The sanitizer: the whole text is a run of values. */
  predicate Check(t: string) {
    ParseAll(t).1 == ""
  }
}
