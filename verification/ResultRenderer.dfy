/** Rendering the rows of a query as one nested SQF array. */
module ResultRenderer {
  import opened Wrappers
  import opened Numerals
  import opened SqfGrammar
  import opened SqfQuoting
  import T = SqfTokens
  import L = SqfLanguage
  import R = SqfRoundTrip

  // ----- text that reads as one value inside an array -----

  /** In front of a comma the text is read as v, and nothing more. */
  predicate ReadsAs(text: string, v: Value) {
    ParseValue(text + ",") == Some((v, ","))
  }

  /** Such a text is a spelling of the value behind spaces. */
  lemma Spelled(text: string, v: Value) returns (spaces: string, x: L.Syntax)
    requires ReadsAs(text, v)
    ensures L.AllSpaces(spaces) && L.WellSpelled(x) && L.Meaning(x) == v && text == spaces + L.Text(x)
  {
    hide ParseValue, L.Text, L.WellSpelled, L.Meaning;
    spaces, x := L.SpelledValue(text + ",");
    SameFront(text, spaces, L.Text(x));
  }

  lemma SameFront(text: string, spaces: string, value: string)
    requires text + "," == spaces + (value + ",")
    ensures text == spaces + value
  {
    assert (text + ",")[..|text|] == text;
    assert spaces + (value + ",") == (spaces + value) + ",";
    assert ((spaces + value) + ",")[..|spaces + value|] == spaces + value;
  }

  lemma EndsThere(x: L.Syntax, rest: string)
    requires First(rest) == ',' || First(rest) == ']'
    ensures L.Ends(x, rest)
  {
  }

  /** It reads the same wherever an array's value can stand. */
  lemma ReadsAnywhere(text: string, v: Value, rest: string)
    requires ReadsAs(text, v) && (First(rest) == ',' || First(rest) == ']')
    ensures ParseValue(text + rest) == Some((v, rest))
  {
    hide *;
    var spaces, x := Spelled(text, v);
    EndsThere(x, rest);
    L.ValueRead(spaces, x, rest);
    assert (spaces + L.Text(x)) + rest == spaces + (L.Text(x) + rest);
  }

  /** Texts with commas between them. */
  function Join(texts: seq<string>): string {
    if texts == [] then "" else texts[0] + JoinMore(texts[1..])
  }

  function JoinMore(texts: seq<string>): string {
    if texts == [] then "" else "," + (texts[0] + JoinMore(texts[1..]))
  }

  function Bracket(texts: seq<string>): string {
    "[" + (Join(texts) + "]")
  }

  lemma {:induction false} JoinMoreSnoc(texts: seq<string>, t: string)
    ensures JoinMore(texts + [t]) == JoinMore(texts) + ("," + t)
  {
    if texts == [] {
      assert (texts + [t])[1..] == [];
      assert t + "" == t && "" + ("," + t) == "," + t;
    } else {
      assert (texts + [t])[1..] == texts[1..] + [t];
      JoinMoreSnoc(texts[1..], t);
    }
  }

  lemma JoinSnoc(texts: seq<string>, t: string)
    ensures Join(texts + [t]) == if texts == [] then t else Join(texts) + ("," + t)
  {
    if texts == [] {
      assert (texts + [t])[1..] == [];
      assert t + "" == t;
    } else {
      assert (texts + [t])[1..] == texts[1..] + [t];
      JoinMoreSnoc(texts[1..], t);
    }
  }

  predicate AllRead(texts: seq<string>, values: seq<Value>) {
    |texts| == |values| && forall i :: 0 <= i < |texts| ==> ReadsAs(texts[i], values[i])
  }

  lemma {:induction false} SpelledMore(texts: seq<string>, values: seq<Value>) returns (items: seq<L.Item>)
    requires AllRead(texts, values)
    ensures L.AllWellSpelled(items) && L.Meanings(items) == values && L.MoreText(items) == JoinMore(texts)
    decreases |texts|
  {
    hide ReadsAs, L.Text, L.WellSpelled, L.Meaning;
    items := [];
    if texts != [] {
      var spaces, x := Spelled(texts[0], values[0]);
      var more := SpelledMore(texts[1..], values[1..]);
      items := [L.Item("", spaces, x)] + more;
      assert items[1..] == more && [values[0]] + values[1..] == values;
      Regrouped(spaces, L.Text(x), JoinMore(texts[1..]));
    }
  }

  lemma Regrouped(spaces: string, value: string, more: string)
    ensures "" + ("," + (spaces + (value + more))) == "," + ((spaces + value) + more)
    ensures spaces + (value + more) == (spaces + value) + more
  {
  }

  lemma SpelledItems(texts: seq<string>, values: seq<Value>) returns (items: seq<L.Item>)
    requires AllRead(texts, values)
    ensures L.AllWellSpelled(items) && L.Meanings(items) == values && L.ItemsText(items) == Join(texts)
  {
    hide ReadsAs, L.Text, L.WellSpelled, L.Meaning;
    items := [];
    if texts != [] {
      var spaces, x := Spelled(texts[0], values[0]);
      var more := SpelledMore(texts[1..], values[1..]);
      items := [L.Item("", spaces, x)] + more;
      assert items[1..] == more && [values[0]] + values[1..] == values;
      Regrouped(spaces, L.Text(x), JoinMore(texts[1..]));
    }
  }

  /** An array of texts that read as values reads as the array of the values, whatever follows. */
  lemma ArrayReads(texts: seq<string>, values: seq<Value>, rest: string)
    requires AllRead(texts, values)
    ensures ParseValue(Bracket(texts) + rest) == Some((Arr(values), rest))
  {
    var items := SpelledItems(texts, values);
    hide ParseValue, AllRead, Join, L.ItemsText, L.AllWellSpelled, L.Meanings;
    var x := L.Array(items, "");
    assert "" + "]" == "]";
    assert L.Text(x) == Bracket(texts);
    L.ValueRead("", x, rest);
    assert "" + (Bracket(texts) + rest) == Bracket(texts) + rest;
  }

  lemma ArrayReadsAs(texts: seq<string>, values: seq<Value>)
    requires AllRead(texts, values)
    ensures ReadsAs(Bracket(texts), Arr(values))
  {
    hide ParseValue, Bracket, AllRead;
    ArrayReads(texts, values, ",");
  }

  /** Printed values read as themselves. */
  lemma PrintedReads(v: Value)
    requires R.Printable(v)
    ensures ReadsAs(R.Print(v), v)
  {
    hide ParseValue, R.Print;
    R.ValueRoundTrip(v, ",");
  }

  // ----- cells -----

  /** A column value as text; `isInteger` and `number` are what the database reports beside it. */
  datatype Cell = Cell(text: string, isInteger: bool, number: int)

  datatype OutputOption = OutputOption(asString: bool, escapeQuotes: bool, boolean: bool, check: bool)

  function CellText(options: seq<OutputOption>, col: nat, cell: Cell): string {
    if col >= |options| then (if cell.text == "" then "\"\"" else cell.text)
    else
      var o := options[col];
      if o.asString then (if cell.text == "" then "\"\"" else Wrap(EraseQuotes(cell.text)))
      else if o.escapeQuotes then (if cell.text == "" then "\"\"" else Wrap(Escape(cell.text)))
      else if o.boolean then (if cell.text != "" && cell.isInteger && cell.number > 0 then "true" else "false")
      else if cell.text == "" then "\"\""
      else cell.text
  }

  predicate CellPasses(options: seq<OutputOption>, col: nat, cell: Cell) {
    col < |options| && options[col].check ==> Check(CellText(options, col, cell))
  }

  function RowTexts(options: seq<OutputOption>, row: seq<Cell>): (r: seq<string>)
    ensures |r| == |row|
  {
    seq(|row|, c requires 0 <= c < |row| => CellText(options, c, row[c]))
  }

  predicate RowPasses(options: seq<OutputOption>, row: seq<Cell>) {
    forall c :: 0 <= c < |row| ==> CellPasses(options, c, row[c])
  }

  function TableTexts(options: seq<OutputOption>, rows: seq<seq<Cell>>): (r: seq<string>)
    ensures |r| == |rows|
  {
    seq(|rows|, k requires 0 <= k < |rows| => Bracket(RowTexts(options, rows[k])))
  }

  // ----- the rendered result -----

  /** The rows, inside the player key's array, inside the insert id's array, beside the 1. */
  function Nested(id: Option<nat>, key: Option<string>, rows: string): string {
    var keyed := match key case Some(k) => Bracket([Wrap(k), rows]) case None => rows;
    var numbered := match id case Some(n) => Bracket([Decimal(n), keyed]) case None => keyed;
    Bracket(["1", numbered])
  }

  function NestedValue(id: Option<nat>, key: Option<string>, rows: Value): Value {
    var keyed := match key case Some(k) => Arr([Str(k), rows]) case None => rows;
    var numbered := match id case Some(n) => Arr([Int(n), keyed]) case None => keyed;
    Arr([Int(1), numbered])
  }

  const NOT_SANITIZED: string := "[0,\"Error Value Failed Sanitize Check\"]"

  lemma PairText(a: string, b: string)
    ensures Bracket([a, b]) == "[" + (a + ("," + (b + "]")))
  {
    assert [a, b][1..] == [b] && [b][1..] == [];
    assert JoinMore([b]) == "," + (b + JoinMore([])) && b + "" == b;
    assert Join([a, b]) == a + ("," + b);
    assert (a + ("," + b)) + "]" == a + ("," + (b + "]"));
  }

  lemma Opened(inner: string)
    ensures "[1,[" + (inner + "]]") == "[" + ("1" + ("," + (("[" + (inner + "]")) + "]")))
  {
  }

  lemma Deeper(a: string, inner: string)
    ensures (a + ",[") + inner + "]]" == (a + ("," + ("[" + (inner + "]")))) + "]"
  {
    assert ",[" == "," + "[" && "]]" == "]" + "]";
  }

  lemma Regroup(a: string, b: string, c: string, d: string, e: string)
    ensures a + b + c + d + e == a + ((b + c + d) + e)
  {
  }

  lemma FramedPlain(rows: string)
    ensures "[1,[" + rows + "]]" == Bracket(["1", "[" + (rows + "]")])
  {
    hide Bracket;
    PairText("1", "[" + (rows + "]"));
    Opened(rows);
    assert "[1,[" + rows + "]]" == "[1,[" + (rows + "]]");
  }

  lemma FramedOnce(a: string, rows: string)
    ensures "[1,[" + (a + ",[") + rows + "]]" + "]" == Bracket(["1", Bracket([a, "[" + (rows + "]")])])
  {
    hide Bracket;
    var r := "[" + (rows + "]");
    PairText(a, r);
    PairText("1", Bracket([a, r]));
    Deeper(a, rows);
    var inner := a + ("," + r);
    Regroup("[1,[", a + ",[", rows, "]]", "]");
    Opened(inner);
    assert (inner + "]") + "]" == inner + "]]";
    assert a + ("," + (r + "]")) == inner + "]";
  }

  lemma FramedTwice(a: string, b: string, rows: string)
    ensures "[1,[" + (a + ",[") + (b + ",[") + rows + "]]" + "]" + "]"
      == Bracket(["1", Bracket([a, Bracket([b, "[" + (rows + "]")])])])
  {
    hide Bracket;
    var r := "[" + (rows + "]");
    var inner := b + ("," + r);
    PairText(b, r);
    assert b + ("," + (r + "]")) == inner + "]";
    FramedOnce(a, inner);
    Deeper(b, rows);
    assert "[1,[" + (a + ",[") + (b + ",[") + rows + "]]" + "]" + "]"
      == "[1,[" + (a + ",[") + ((b + ",[") + rows + "]]") + "]" + "]";
    assert "[1,[" + (a + ",[") + (inner + "]") + "]" + "]" == "[1,[" + (a + ",[") + inner + "]]" + "]";
  }

  /** What the opening and the closing pieces around the rows amount to. */
  lemma Framed(id: Option<nat>, key: Option<string>, rows: string)
    ensures "[1,[" + (if id.Some? then Decimal(id.value) + ",[" else "") + (if key.Some? then "\"" + key.value + "\"" + ",[" else "")
        + rows + "]]" + (if id.Some? then "]" else "") + (if key.Some? then "]" else "")
      == Nested(id, key, "[" + (rows + "]"))
  {
    hide Decimal, Bracket, Wrap;
    if key.Some? {
      WrapText(key.value);
      if id.Some? { FramedTwice(Decimal(id.value), Wrap(key.value), rows); }
      else {
        FramedOnce(Wrap(key.value), rows);
        AddNothing("[1,[");
        AddNothing("[1,[" + (Wrap(key.value) + ",[") + rows + "]]");
      }
    } else {
      if id.Some? {
        FramedOnce(Decimal(id.value), rows);
        AddNothing("[1,[" + (Decimal(id.value) + ",["));
        AddNothing("[1,[" + (Decimal(id.value) + ",[") + rows + "]]" + "]");
      } else {
        FramedPlain(rows);
        AddNothing("[1,[");
        AddNothing("[1,[" + rows + "]]");
      }
    }
  }

  lemma WrapText(s: string)
    ensures Wrap(s) == "\"" + s + "\""
  {
  }

  lemma AddNothing(s: string)
    ensures s + "" == s
  {
  }

  /** One row; stops at the first cell that fails its check. */
  method RenderRow(options: seq<OutputOption>, row: seq<Cell>, before: string) returns (result: string, ok: bool)
    ensures ok <==> RowPasses(options, row)
    ensures ok ==> result == before + Join(RowTexts(options, row))
  {
    hide CellText, CellPasses, Join;
    result, ok := before, true;
    ghost var texts := RowTexts(options, row);
    JoinNothing();
    assert before + "" == before;
    for col := 0 to |row|
      invariant ok && forall c :: 0 <= c < col ==> CellPasses(options, c, row[c])
      invariant result == before + Join(texts[..col]) + (if 0 < col < |row| then "," else "")
    {
      var temp := CellText(options, col, row[col]);
      if !CellPasses(options, col, row[col]) { return result, false; }
      result := result + temp;
      JoinSnoc(texts[..col], temp);
      assert texts[..col + 1] == texts[..col] + [temp];
      if col < |row| - 1 { result := result + ","; }
    }
    assert texts[..|row|] == texts;
  }

  lemma JoinNothing()
    ensures Join([]) == ""
  {
  }

  /** The rows of a table; after a failed check the rendering goes on, but is of no use. */
  method RenderRows(options: seq<OutputOption>, rows: seq<seq<Cell>>, head: string) returns (result: string, status: bool)
    requires rows != []
    ensures status <==> forall k :: 0 <= k < |rows| ==> RowPasses(options, rows[k])
    ensures status ==> result == head + Join(TableTexts(options, rows))
  {
    hide RowPasses, Join, RowTexts, Bracket, Lead;
    status := true;
    ghost var table := TableTexts(options, rows);
    result := head + "[";
    NoLead(head);
    for k := 0 to |rows|
      invariant status <==> forall j :: 0 <= j < k ==> RowPasses(options, rows[j])
      invariant status ==> result == if k < |rows| then head + Lead(table[..k]) + "[" else head + Join(table[..k])
    {
      var ok: bool;
      NextRow(head, table[..k], RowTexts(options, rows[k]));
      result, ok := RenderRow(options, rows[k], result);
      status := status && ok;
      assert table[..k + 1] == table[..k] + [table[k]];
      result := result + (if k + 1 < |rows| then "],[" else "]");
    }
    assert table[..|rows|] == table;
  }

  /** The whole result, for any number of rows of `cols` columns. */
  method GetResult(options: seq<OutputOption>, cols: nat, rows: seq<seq<Cell>>, id: Option<nat>, key: Option<string>)
    returns (result: string, status: bool)
    requires forall k :: 0 <= k < |rows| ==> |rows[k]| == cols
    ensures status <==> forall k :: 0 <= k < |rows| ==> RowPasses(options, rows[k])
    ensures result == if status then Nested(id, key, Bracket(TableTexts(options, if cols == 0 then [] else rows))) else NOT_SANITIZED
  {
    hide Join, Nested, RowTexts, Bracket, Decimal, CellPasses;
    result := "[1,[";
    result := result + (if id.Some? then Decimal(id.value) + ",[" else "");
    result := result + (if key.Some? then "\"" + key.value + "\"" + ",[" else "");
    status := true;
    ghost var table := TableTexts(options, if cols == 0 then [] else rows);
    Framed(id, key, Join(table));
    BracketOf(table);
    AddNothing(result);
    if cols >= 1 && |rows| > 0 {
      result, status := RenderRows(options, rows, result);
    } else {
      JoinNothing();
      assert table == [];
    }
    if !status {
      result := NOT_SANITIZED;
    } else {
      result := result + "]]";
      result := result + (if id.Some? then "]" else "");
      result := result + (if key.Some? then "]" else "");
    }
  }

  function Lead(texts: seq<string>): string {
    if texts == [] then "" else Join(texts) + ","
  }

  lemma NoLead(head: string)
    ensures head + Lead([]) + "[" == head + "["
  {
  }

  lemma BracketOf(texts: seq<string>)
    ensures Bracket(texts) == "[" + (Join(texts) + "]")
  {
  }

  /** Closing a row, and opening the next one. */
  lemma NextRow(head: string, finished: seq<string>, cells: seq<string>)
    ensures (head + Lead(finished) + "[" + Join(cells)) + "]" == head + Join(finished + [Bracket(cells)])
    ensures (head + Lead(finished) + "[" + Join(cells)) + "],[" == head + Lead(finished + [Bracket(cells)]) + "["
  {
    hide Join;
    JoinSnoc(finished, Bracket(cells));
    var f, c := Join(finished), Join(cells);
    if finished == [] {
      assert (head + "" + "[" + c) + "]" == head + ("[" + (c + "]"));
      assert (head + "" + "[" + c) + "],[" == head + (("[" + (c + "]")) + ",") + "[";
    } else {
      assert (head + (f + ",") + "[" + c) + "]" == head + (f + ("," + ("[" + (c + "]"))));
      assert (head + (f + ",") + "[" + c) + "],[" == head + ((f + ("," + ("[" + (c + "]")))) + ",") + "[";
    }
  }

  // ----- the result reads back -----

  lemma PairReads(a: string, b: string, v: Value, w: Value)
    requires ReadsAs(a, v) && ReadsAs(b, w)
    ensures AllRead([a, b], [v, w])
  {
  }

  lemma RowsRead(options: seq<OutputOption>, rows: seq<seq<Cell>>, values: seq<seq<Value>>)
    requires |values| == |rows|
    requires forall k :: 0 <= k < |rows| ==> AllRead(RowTexts(options, rows[k]), values[k])
    ensures ReadsAs(Bracket(TableTexts(options, rows)), Arr(seq(|rows|, k requires 0 <= k < |rows| => Arr(values[k]))))
  {
    hide ReadsAs, Bracket, RowTexts;
    var arrays := seq(|rows|, k requires 0 <= k < |rows| => Arr(values[k]));
    forall k | 0 <= k < |rows| ensures ReadsAs(TableTexts(options, rows)[k], arrays[k]) {
      ArrayReadsAs(RowTexts(options, rows[k]), values[k]);
    }
    ArrayReadsAs(TableTexts(options, rows), arrays);
  }

  lemma KeyReads(k: string)
    requires AllAscii(k) && '"' !in k
    ensures ReadsAs(Wrap(k), Str(k))
  {
    PrintedReads(Str(k));
  }

  lemma NumberReads(n: nat)
    requires n < LONG_BOUND
    ensures ReadsAs(Decimal(n), Int(n))
  {
    PrintedReads(Int(n));
  }

  lemma InnerReads(id: Option<nat>, key: Option<string>, rows: string, v: Value)
    requires ReadsAs(rows, v)
    requires id.Some? ==> id.value < LONG_BOUND
    requires key.Some? ==> AllAscii(key.value) && '"' !in key.value
    ensures ParseValue(Nested(id, key, rows)) == Some((NestedValue(id, key, v), ""))
  {
    hide ReadsAs, Bracket, Decimal, Wrap, ParseValue, AllRead;
    var text, value := rows, v;
    if key.Some? {
      KeyReads(key.value);
      PairReads(Wrap(key.value), text, Str(key.value), value);
      ArrayReadsAs([Wrap(key.value), text], [Str(key.value), value]);
      text, value := Bracket([Wrap(key.value), text]), Arr([Str(key.value), value]);
    }
    if id.Some? {
      NumberReads(id.value);
      PairReads(Decimal(id.value), text, Int(id.value), value);
      ArrayReadsAs([Decimal(id.value), text], [Int(id.value), value]);
      text, value := Bracket([Decimal(id.value), text]), Arr([Int(id.value), value]);
    }
    OneReads();
    PairReads("1", text, Int(1), value);
    ArrayReads(["1", text], [Int(1), value], "");
    assert Bracket(["1", text]) + "" == Bracket(["1", text]);
  }

  lemma OneReads()
    ensures ReadsAs("1", Int(1))
  {
    NumberReads(1);
    assert Decimal(1) == "1";
  }

  /** When every cell prints one value, the result is accepted and reads as exactly the nested
      array of those values, for any rows and either flag. */
  lemma ResultReadsBack(options: seq<OutputOption>, rows: seq<seq<Cell>>, values: seq<seq<Value>>, id: Option<nat>, key: Option<string>)
    requires |values| == |rows|
    requires forall k :: 0 <= k < |rows| ==> AllRead(RowTexts(options, rows[k]), values[k])
    requires id.Some? ==> id.value < LONG_BOUND
    requires key.Some? ==> AllAscii(key.value) && '"' !in key.value
    ensures var table := Arr(seq(|rows|, k requires 0 <= k < |rows| => Arr(values[k])));
      ParseAll(Nested(id, key, Bracket(TableTexts(options, rows)))) == ([NestedValue(id, key, table)], "")
  {
    hide ParseValue, Nested, NestedValue, Bracket, AllRead;
    var table := Arr(seq(|rows|, k requires 0 <= k < |rows| => Arr(values[k])));
    RowsRead(options, rows, values);
    InnerReads(id, key, Bracket(TableTexts(options, rows)), table);
    T.NothingLeft();
    assert [NestedValue(id, key, table)] + [] == [NestedValue(id, key, table)];
  }

  /** An insert id of 2^63 or more is beyond the grammar's integers: the result does not read back. */
  lemma LargeIdRejected(id: nat, key: Option<string>, rows: string)
    requires id >= LONG_BOUND
    ensures !Check(Nested(Some(id), key, rows))
  {
    hide Bracket, Decimal, ParseValue;
    var keyed := match key case Some(k) => Bracket([Wrap(k), rows]) case None => rows;
    var inner := Decimal(id) + ("," + (keyed + "]"));
    PairText(Decimal(id), keyed);
    PairText("1", "[" + inner);
    var t := "[" + ("1" + ("," + (("[" + inner) + "]")));
    assert Nested(Some(id), key, rows) == t;
    assert ("[" + inner) + "]" == "[" + (inner + "]");
    assert inner + "]" == Decimal(id) + ("," + (keyed + "]" + "]"));
    LargeNumber(id, "," + (keyed + "]" + "]"));
    Unreadable(inner + "]");
    AfterOne("[" + (inner + "]"));
    assert Skip(t) == t;
  }

  lemma LargeNumber(n: nat, rest: string)
    requires n >= LONG_BOUND && !IsDigit(First(rest))
    ensures ParseValue(Decimal(n) + rest) == None
    ensures First(Decimal(n) + rest) != ']' && Skip(Decimal(n) + rest) == Decimal(n) + rest
  {
    hide Number, Decimal;
    T.DecimalStart(n);
    assert "" + Decimal(n) == Decimal(n);
    T.NumberRead("", Decimal(n), rest, INT_BOUND);
    T.NumberRead("", Decimal(n), rest, LONG_BOUND);
    T.OtherWord(Decimal(n) + rest, "true");
    T.OtherWord(Decimal(n) + rest, "false");
    T.OtherWord(Decimal(n) + rest, "any");
  }

  /** A bracket in front of what is neither a value nor a closing bracket opens no array. */
  lemma Unreadable(t: string)
    requires ParseValue(t) == None && First(t) != ']' && Skip(t) == t
    ensures ParseValue("[" + t) == None
  {
    hide Scalar, Skip;
    T.NoScalar("[" + t);
    assert ("[" + t)[1..] == t;
  }

  lemma AfterOne(t: string)
    requires ParseValue(t) == None
    ensures ParseValue("[" + ("1" + ("," + t))) == None
  {
    hide Scalar, Integral;
    var more := "," + t;
    var u := "1" + more;
    T.NoScalar("[" + u);
    assert ("[" + u)[1..] == u;
    OneReads();
    ReadsAnywhere("1", Int(1), more);
    assert more[1..] == t && Skip(more) == more;
    assert ParseMore(more) == ([], more);
  }

  // ----- which cells print one value -----

  /** The value a text is read as in front of a comma, if it is one value. */
  function OneValue(text: string): Option<Value> {
    match ParseValue(text + ",")
    case Some((v, rest)) => if rest == "," then Some(v) else None
    case None => None
  }

  /** The value a cell prints, told from its option and its content. */
  function CellValue(options: seq<OutputOption>, col: nat, cell: Cell): Option<Value> {
    if col >= |options| || !(options[col].asString || options[col].escapeQuotes || options[col].boolean) then
      OneValue(if cell.text == "" then "\"\"" else cell.text)
    else if options[col].asString then (if AllAscii(cell.text) then Some(Str(EraseQuotes(cell.text))) else None)
    else if options[col].escapeQuotes then
      (if AllAscii(cell.text) && '"' !in cell.text then Some(Str(Escape(cell.text))) else None)
    else Some(Bool(cell.text != "" && cell.isInteger && cell.number > 0))
  }

  /** What wrapped, doubled text is read as: one string exactly for ASCII text without a double quote. */
  lemma WrappedReads(u: string, v: Value)
    ensures ReadsAs(Wrap(Double(u, '"')), v) <==> AllAscii(u) && '"' !in u && v == Str(u)
  {
    hide ParseValue, Wrap, Double, AllAscii, RunTail;
    var n := UpTo(u, '"');
    var tail := RunTail(u);
    RunShape(u);
    RunTailOf(u);
    UpToAny(u);
    assert ("\"" + (u[..n] + ("\"" + tail))) + "," == "\"" + (u[..n] + ("\"" + (tail + ",")));
    AsciiPrefix(u, n);
    if n == |u| {
      assert u[..n] == u && tail + "," == ",";
    } else {
      WrapLong(Double(u[n + 1..], '"'));
      assert |tail + ","| > 1;
    }
    if AllAscii(u[..n]) {
      QuotedValue(u[..n], tail + ",");
    } else {
      NotAQuoted(u[..n], "\"" + (tail + ","));
    }
  }

  lemma AsciiPrefix(u: string, n: nat)
    requires n <= |u|
    ensures AllAscii(u) ==> AllAscii(u[..n])
  {
  }

  lemma UpToAny(s: string)
    ensures UpTo(s, '"') < |s| <==> '"' in s
  {
    assert s[..|s|] == s;
  }

  lemma WrapLong(s: string)
    ensures Wrap(s) != ""
  {
  }

  /** The String option prints one value exactly for ASCII text. */
  lemma StringCellReads(s: string, v: Value)
    ensures ReadsAs(Wrap(EraseQuotes(s)), v) <==> AllAscii(s) && v == Str(EraseQuotes(s))
  {
    var e := EraseQuotes(s);
    EraseAscii(s, '"');
    EraseAscii(Erase(s, '"'), '\'');
    assert '"' !in e;
    DoubleNone(e, '"');
    WrappedReads(e, v);
  }

  /** A boolean cell always does. */
  lemma BooleanCellReads(b: bool)
    ensures ReadsAs(if b then "true" else "false", Bool(b))
  {
    PrintedReads(Bool(b));
  }

  /** The escaping option does exactly for ASCII text without a double quote; with one, the sanitizer
      accepts the cell as several strings, but inside an array it is not one value. */
  lemma EscapedCell(s: string, v: Value)
    ensures Check(Wrap(Escape(s))) <==> AllAscii(s)
    ensures ReadsAs(Wrap(Escape(s)), v) <==> AllAscii(s) && '"' !in s && v == Str(Escape(s))
  {
    EscapedAccepted(s);
    DoubleCommutes(s);
    var u := Double(s, '\'');
    DoubleAscii(s, '\'');
    DoubleKeeps(s, '\'', '"');
    WrappedReads(u, v);
    if '"' !in u { DoubleNone(u, '"'); }
  }

  lemma {:induction false} DoubleKeeps(s: string, quote: char, c: char)
    ensures c in Double(s, quote) <==> c in s
  {
    if s != "" {
      DoubleKeeps(s[1..], quote, c);
      assert s == [s[0]] + s[1..];
    }
  }

  lemma EmptyCells()
    ensures Wrap(EraseQuotes("")) == "\"\"" && Wrap(Escape("")) == "\"\""
  {
  }

  /** A rendered cell reads as v if and only if v is the value told from option and content. */
  lemma CellReads(options: seq<OutputOption>, col: nat, cell: Cell, v: Value)
    ensures ReadsAs(CellText(options, col, cell), v) <==> CellValue(options, col, cell) == Some(v)
  {
    EmptyCells();
    hide Wrap, EraseQuotes, Escape, AllAscii, ParseValue;
    StringCellReads(cell.text, v);
    EscapedCell(cell.text, v);
    BooleanCellReads(true);
    BooleanCellReads(false);
  }

  /** Which checked cells pass: of either string option those with ASCII text, booleans always, and of
      the others those that are a run of values themselves; an empty text counts as two quotes. */
  lemma CheckedCell(options: seq<OutputOption>, col: nat, cell: Cell)
    ensures CellPasses(options, col, cell) <==>
      col >= |options| || !options[col].check
      || if options[col].asString || options[col].escapeQuotes then AllAscii(cell.text)
         else options[col].boolean || Check(if cell.text == "" then "\"\"" else cell.text)
  {
    EmptyCells();
    ErasedAccepted(cell.text);
    EscapedAccepted(cell.text);
    assert R.Print(Bool(true)) == "true" && R.Print(Bool(false)) == "false";
    R.PrintedIsAccepted(Bool(true));
    R.PrintedIsAccepted(Bool(false));
    hide Wrap, EraseQuotes, Escape, AllAscii, Check, R.Print;
  }

  /** When the rows are rendered at all, told from options and contents. */
  lemma CheckedTable(options: seq<OutputOption>, rows: seq<seq<Cell>>)
    ensures (forall k :: 0 <= k < |rows| ==> RowPasses(options, rows[k])) <==>
      forall k, c :: 0 <= k < |rows| && 0 <= c < |rows[k]| && c < |options| && options[c].check ==>
        if options[c].asString || options[c].escapeQuotes then AllAscii(rows[k][c].text)
        else options[c].boolean || Check(if rows[k][c].text == "" then "\"\"" else rows[k][c].text)
  {
    hide CellPasses, AllAscii, Check;
    forall k | 0 <= k < |rows|
      ensures RowPasses(options, rows[k]) <==>
        forall c :: 0 <= c < |rows[k]| && c < |options| && options[c].check ==>
          if options[c].asString || options[c].escapeQuotes then AllAscii(rows[k][c].text)
          else options[c].boolean || Check(if rows[k][c].text == "" then "\"\"" else rows[k][c].text)
    {
      CheckedRow(options, rows[k]);
    }
  }

  lemma CheckedRow(options: seq<OutputOption>, row: seq<Cell>)
    ensures RowPasses(options, row) <==>
      forall c :: 0 <= c < |row| && c < |options| && options[c].check ==>
        if options[c].asString || options[c].escapeQuotes then AllAscii(row[c].text)
        else options[c].boolean || Check(if row[c].text == "" then "\"\"" else row[c].text)
  {
    hide CellPasses, AllAscii, Check;
    forall c | 0 <= c < |row|
      ensures CellPasses(options, c, row[c]) <==>
        c >= |options| || !options[c].check
        || if options[c].asString || options[c].escapeQuotes then AllAscii(row[c].text)
           else options[c].boolean || Check(if row[c].text == "" then "\"\"" else row[c].text)
    {
      CheckedCell(options, c, row[c]);
    }
  }

  /** The error text is an SQF array of a 0 and the message. */
  lemma NotSanitizedRead()
    ensures ParseAll(NOT_SANITIZED) == ([Arr([Int(0), Str("Error Value Failed Sanitize Check")])], "")
  {
    hide ParseAll;
    R.ErrorRead("Error Value Failed Sanitize Check");
    SanitizeMessage();
  }

  lemma SanitizeMessage()
    ensures "[0,\"" + "Error Value Failed Sanitize Check" + "\"]" == NOT_SANITIZED
  {
  }

  /** The values of all cells, if each prints one. */
  function TableValue(options: seq<OutputOption>, rows: seq<seq<Cell>>): (v: Value)
    requires EveryCell(options, rows)
  {
    Arr(seq(|rows|, k requires 0 <= k < |rows| =>
      Arr(seq(|rows[k]|, c requires 0 <= c < |rows[k]| => CellValue(options, c, rows[k][c]).value))))
  }

  predicate EveryCell(options: seq<OutputOption>, rows: seq<seq<Cell>>) {
    forall k, c :: 0 <= k < |rows| && 0 <= c < |rows[k]| ==> CellValue(options, c, rows[k][c]).Some?
  }

  /** For any rows whose cells each print one value, told from options and contents alone, and either
      flag, the result is accepted and reads as exactly the nested array of these values. */
  lemma ResultOfCells(options: seq<OutputOption>, rows: seq<seq<Cell>>, id: Option<nat>, key: Option<string>)
    requires EveryCell(options, rows)
    requires id.Some? ==> id.value < LONG_BOUND
    requires key.Some? ==> AllAscii(key.value) && '"' !in key.value
    ensures ParseAll(Nested(id, key, Bracket(TableTexts(options, rows)))) == ([NestedValue(id, key, TableValue(options, rows))], "")
  {
    hide CellValue, CellText, ReadsAs, AllAscii, ParseAll, Nested, NestedValue, Bracket;
    var values := seq(|rows|, k requires 0 <= k < |rows| =>
      seq(|rows[k]|, c requires 0 <= c < |rows[k]| => CellValue(options, c, rows[k][c]).value));
    forall k | 0 <= k < |rows| ensures AllRead(RowTexts(options, rows[k]), values[k]) {
      forall c | 0 <= c < |rows[k]| ensures ReadsAs(RowTexts(options, rows[k])[c], values[k][c]) {
        CellReads(options, c, rows[k][c], values[k][c]);
      }
    }
    ResultReadsBack(options, rows, values, id, key);
    assert TableValue(options, rows) == Arr(seq(|rows|, k requires 0 <= k < |rows| => Arr(values[k])));
  }

  // ----- whatever the cells print, the brackets nest -----

  predicate Balances(text: string) {
    R.Balanced(text, 0, '\0')
  }

  lemma InFront(text: string, rest: string, depth: nat)
    requires Balances(text)
    ensures R.Balanced(text + rest, depth, '\0') == R.Balanced(rest, depth, '\0')
  {
    R.BalancedInFront(text, rest, 0, depth, '\0');
  }

  lemma {:induction false} MoreBalance(texts: seq<string>, rest: string, depth: nat)
    requires forall k :: 0 <= k < |texts| ==> Balances(texts[k])
    ensures R.Balanced(JoinMore(texts) + rest, depth, '\0') == R.Balanced(rest, depth, '\0')
    decreases |texts|
  {
    hide R.Balanced, Balances;
    if texts == [] {
      assert "" + rest == rest;
    } else {
      var tail := JoinMore(texts[1..]) + rest;
      assert JoinMore(texts) + rest == "," + (texts[0] + tail);
      MoreBalance(texts[1..], rest, depth);
      InFront(texts[0], tail, depth);
      CommaInFront(texts[0] + tail, depth);
    }
  }

  lemma CommaInFront(rest: string, depth: nat)
    ensures R.Balanced("," + rest, depth, '\0') == R.Balanced(rest, depth, '\0')
  {
    assert ("," + rest)[1..] == rest;
  }

  lemma BracketBalances(texts: seq<string>)
    requires forall k :: 0 <= k < |texts| ==> Balances(texts[k])
    ensures Balances(Bracket(texts))
  {
    var inner := Join(texts) + "]";
    hide Join;
    JoinBalance(texts, "]", 1);
    assert ("[" + inner)[1..] == inner && "]"[1..] == "";
  }

  lemma JoinBalance(texts: seq<string>, rest: string, depth: nat)
    requires forall k :: 0 <= k < |texts| ==> Balances(texts[k])
    ensures R.Balanced(Join(texts) + rest, depth, '\0') == R.Balanced(rest, depth, '\0')
  {
    hide R.Balanced, Balances;
    if texts == [] {
      assert "" + rest == rest;
    } else {
      assert Join(texts) + rest == texts[0] + (JoinMore(texts[1..]) + rest);
      MoreBalance(texts[1..], rest, depth);
      InFront(texts[0], JoinMore(texts[1..]) + rest, depth);
    }
  }

  lemma DecimalBalances(n: nat)
    ensures Balances(Decimal(n))
  {
    DecimalDigits(n);
    hide Decimal;
    R.NeutralPrefix(Decimal(n), "", 0);
    assert Decimal(n) + "" == Decimal(n);
  }

  /** Every cell that passes its check is balanced; so if the cells without a check and the key are,
      the brackets of the whole result nest, for any number of rows and either flag. */
  lemma ResultBalances(options: seq<OutputOption>, rows: seq<seq<Cell>>, id: Option<nat>, key: Option<string>)
    requires forall k :: 0 <= k < |rows| ==> RowPasses(options, rows[k])
    requires forall k, c :: 0 <= k < |rows| && 0 <= c < |rows[k]| && (c >= |options| || !options[c].check) ==>
      Balances(CellText(options, c, rows[k][c]))
    requires key.Some? ==> Balances(Wrap(key.value))
    ensures Balances(Nested(id, key, Bracket(TableTexts(options, rows))))
  {
    hide Balances, CellText, Bracket, Check, Decimal, Wrap;
    var table := TableTexts(options, rows);
    forall k | 0 <= k < |rows| ensures Balances(table[k]) {
      forall c | 0 <= c < |rows[k]| ensures Balances(RowTexts(options, rows[k])[c]) {
        CellBalances(options, c, rows[k][c]);
      }
      BracketBalances(RowTexts(options, rows[k]));
    }
    BracketBalances(table);
    var text := Bracket(table);
    if key.Some? {
      BracketBalances([Wrap(key.value), text]);
      text := Bracket([Wrap(key.value), text]);
    }
    if id.Some? {
      DecimalBalances(id.value);
      BracketBalances([Decimal(id.value), text]);
      text := Bracket([Decimal(id.value), text]);
    }
    DecimalBalances(1);
    OneIsDecimal();
    BracketBalances(["1", text]);
  }

  lemma OneIsDecimal()
    ensures Decimal(1) == "1"
  {
  }

  lemma CellBalances(options: seq<OutputOption>, col: nat, cell: Cell)
    requires CellPasses(options, col, cell)
    requires col >= |options| || !options[col].check ==> Balances(CellText(options, col, cell))
    ensures Balances(CellText(options, col, cell))
  {
    if col < |options| && options[col].check { R.AcceptedIsBalanced(CellText(options, col, cell)); }
  }
}
