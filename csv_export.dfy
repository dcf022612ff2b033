/**
 * `exportCsvIfTabular` of frontend/app.js: the CSV text of a flat uniform array, one line for
 * the column titles and one per item, every cell quoted with inner quotes doubled.
 * A small reader for that format (quoted or plain fields, `,` between fields, newline
 * between records) states what the text means.
 */
module CsvExport {
  import opened Wrappers
  import opened JsonModel
  import opened Search
  import opened Labels
  import opened Classifier

  // ---------------------------------------------------------------------------------------
  // Writing

  /** `String(v)` of a JSON value: arrays are joined with commas (null items as empty text). */
  function JsString(n: Node): string
    decreases n, 1
  {
    match n
    case Scalar(p) => PrimText(p)
    case Arr(items) => ItemsString(n, 0)
    case Obj(_) => "[object Object]"
  }

  function ItemsString(n: Node, i: nat): string
    requires n.Arr? && i <= |n.items|
    decreases n, 0, |n.items| - i
  {
    if i == |n.items| then ""
    else
      var item := n.items[i];
      (if i == 0 then "" else ",") + (if item == Scalar(Null) then "" else JsString(item)) + ItemsString(n, i + 1)
  }

  /** `v == null ? '' : String(v)`; a missing member (`undefined`) is `None`. */
  function CellText(v: Option<Node>): string {
    if v.None? || v.value == Scalar(Null) then "" else JsString(v.value)
  }

  /** `.replace(/"/g, '""')`. */
  function Double(s: string): (r: string)
    ensures |r| >= |s|
  {
    if s == [] then []
    else (if s[0] == '"' then "\"\"" else [s[0]]) + Double(s[1..])
  }

  /** `esc`: the text in quotes, inner quotes doubled. */
  function Quote(s: string): string {
    "\"" + Double(s) + "\""
  }

  /** `parts.join(sep)`. */
  function Join(parts: seq<string>, sep: char): string {
    if parts == [] then ""
    else if |parts| == 1 then parts[0]
    else parts[0] + [sep] + Join(parts[1..], sep)
  }

  function QuoteAll(parts: seq<string>): (r: seq<string>)
    ensures |r| == |parts|
    ensures forall j :: 0 <= j < |parts| ==> r[j] == Quote(parts[j])
  {
    seq(|parts|, j requires 0 <= j < |parts| => Quote(parts[j]))
  }

  /** The column keys, `Object.keys(rows[0])`. */
  function Headers(items: seq<Node>): seq<string>
    requires |items| > 0 && items[0].Obj?
  {
    Keys(items[0].props)
  }

  /** The column titles: the item schema's property title, else the key. */
  function Titles(schema: Option<Schema>, headers: seq<string>): (r: seq<string>)
    ensures |r| == |headers|
  {
    seq(|headers|, j requires 0 <= j < |headers| => GetPropertyTitle(GetItemsSchema(schema), headers[j]).GetOr(headers[j]))
  }

  /** The unquoted texts of one item's cells. */
  function RowTexts(row: Node, headers: seq<string>): (r: seq<string>)
    ensures |r| == |headers|
  {
    seq(|headers|, j requires 0 <= j < |headers| => CellText(if row.Obj? then Lookup(row.props, headers[j]) else None))
  }

  /** What the export means: the title record, then one record of cell texts per item. */
  function Intended(items: seq<Node>, schema: Option<Schema>): (r: seq<seq<string>>)
    requires |items| > 0 && items[0].Obj?
    ensures |r| == |items| + 1
  {
    [Titles(schema, Headers(items))] + seq(|items|, i requires 0 <= i < |items| => RowTexts(items[i], Headers(items)))
  }

  /** The data lines, every cell quoted. */
  function DataLines(items: seq<Node>): (r: seq<string>)
    requires |items| > 0 && items[0].Obj?
    ensures |r| == |items|
  {
    seq(|items|, i requires 0 <= i < |items| => Join(QuoteAll(RowTexts(items[i], Headers(items))), ','))
  }

  /** The export as the source writes it: the title line is joined WITHOUT quoting. */
  function CsvTextAsWritten(payload: Node, schema: Option<Schema>): Option<string> {
    if !IsFlatUniformArray(payload) then None
    else
      var items := payload.items;
      Some(Join([Join(Titles(schema, Headers(items)), ',')] + DataLines(items), '\n'))
  }

  /** The export with the title line quoted like the data lines; `None` when the table view is unavailable. */
  function CsvText(payload: Node, schema: Option<Schema>): Option<string> {
    if !IsFlatUniformArray(payload) then None
    else
      var items := payload.items;
      Some(Join([Join(QuoteAll(Titles(schema, Headers(items))), ',')] + DataLines(items), '\n'))
  }

  // ---------------------------------------------------------------------------------------
  // Reading

  /** What follows a field. */
  datatype FieldEnd = EndOfText | EndOfRecord(rest: string) | NextField(rest: string)

  /** The inside of a quoted field up to its closing quote, and the text after it. */
  function QuotedBody(s: string): (r: (string, string))
    ensures |r.1| <= |s|
  {
    if s == [] then ("", [])
    else if s[0] == '"' then
      if |s| > 1 && s[1] == '"' then
        var (x, t) := QuotedBody(s[2..]);
        ("\"" + x, t)
      else ("", s[1..])
    else
      var (x, t) := QuotedBody(s[1..]);
      ([s[0]] + x, t)
  }

  /** A field without quotes: everything up to the next `,` or newline. */
  function PlainBody(s: string): (r: (string, string))
    ensures |r.1| <= |s|
  {
    if s == [] || s[0] == ',' || s[0] == '\n' then ("", s)
    else
      var (x, t) := PlainBody(s[1..]);
      ([s[0]] + x, t)
  }

  /** The separator after a field; anything but a comma ends the record. */
  function EndOf(t: string): (e: FieldEnd)
    ensures e.EndOfRecord? || e.NextField? ==> |e.rest| < |t|
  {
    if t == [] then EndOfText
    else if t[0] == ',' then NextField(t[1..])
    else EndOfRecord(t[1..])
  }

  /** One field and what follows it. */
  function Field(s: string): (r: (string, FieldEnd))
    ensures r.1.EndOfRecord? || r.1.NextField? ==> |r.1.rest| < |s|
  {
    var (x, t) := if s != [] && s[0] == '"' then QuotedBody(s[1..]) else PlainBody(s);
    (x, EndOf(t))
  }

  /** The fields of one record, and the text after its newline if there is more. */
  function Fields(s: string): (r: (seq<string>, Option<string>))
    ensures r.1.Some? ==> |r.1.value| < |s|
    decreases |s|
  {
    var (x, e) := Field(s);
    match e
    case EndOfText => ([x], None)
    case EndOfRecord(t) => ([x], Some(t))
    case NextField(t) =>
      var (xs, more) := Fields(t);
      ([x] + xs, more)
  }

  /** Every record of a CSV text. */
  function Records(s: string): seq<seq<string>>
    decreases |s|
  {
    var (fs, more) := Fields(s);
    match more
    case None => [fs]
    case Some(t) => [fs] + Records(t)
  }

  // ---------------------------------------------------------------------------------------
  // Round trip

  /** A text that may follow a closing quote: nothing, or a separator. */
  predicate Follows(t: string) {
    t == [] || t[0] == ',' || t[0] == '\n'
  }

  lemma {:induction false} QuotedBodyDouble(x: string, t: string)
    requires Follows(t)
    ensures QuotedBody(Double(x) + "\"" + t) == (x, t)
    decreases |x|
  {
    if x == [] {
      assert Double(x) + "\"" + t == "\"" + t;
    } else {
      QuotedBodyDouble(x[1..], t);
      QuotedBodyDoubleStep(x, t);
    }
  }

  /** One step of the round trip: from the tail of `x` to `x`. */
  lemma QuotedBodyDoubleStep(x: string, t: string)
    requires x != [] && QuotedBody(Double(x[1..]) + "\"" + t) == (x[1..], t)
    ensures QuotedBody(Double(x) + "\"" + t) == (x, t)
  {
    if x[0] == '"' {
      QuotedBodyQuoteStep(x, t);
    } else {
      QuotedBodyCharStep(x, t);
    }
  }

  lemma QuotedBodyQuoteStep(x: string, t: string)
    requires x != [] && x[0] == '"' && QuotedBody(Double(x[1..]) + "\"" + t) == (x[1..], t)
    ensures QuotedBody(Double(x) + "\"" + t) == (x, t)
  {
    var u := Double(x[1..]) + "\"" + t;
    assert Double(x) == "\"\"" + Double(x[1..]);
    assert Double(x) + "\"" + t == "\"\"" + u;
    QuotedStepQuote(u);
    assert x == "\"" + x[1..];
  }

  lemma QuotedBodyCharStep(x: string, t: string)
    requires x != [] && x[0] != '"' && QuotedBody(Double(x[1..]) + "\"" + t) == (x[1..], t)
    ensures QuotedBody(Double(x) + "\"" + t) == (x, t)
  {
    var u := Double(x[1..]) + "\"" + t;
    assert Double(x) == [x[0]] + Double(x[1..]);
    assert Double(x) + "\"" + t == [x[0]] + u;
    QuotedStepChar(x[0], u);
    assert x == [x[0]] + x[1..];
  }

  lemma QuotedStepQuote(u: string)
    ensures QuotedBody("\"\"" + u) == ("\"" + QuotedBody(u).0, QuotedBody(u).1)
  {
    var w := "\"\"" + u;
    assert w[0] == '"' && w[1] == '"' && w[2..] == u;
  }

  lemma QuotedStepChar(c: char, u: string)
    requires c != '"'
    ensures QuotedBody([c] + u) == ([c] + QuotedBody(u).0, QuotedBody(u).1)
  {
    assert ([c] + u)[1..] == u;
  }

  lemma QuotedField(x: string, t: string)
    requires Follows(t)
    ensures Field(Quote(x) + t) == (x, EndOf(t))
  {
    var s := Quote(x) + t;
    assert s[0] == '"';
    assert s[1..] == Double(x) + "\"" + t;
    QuotedBodyDouble(x, t);
  }

  lemma JoinCons(a: string, rest: seq<string>, sep: char)
    requires rest != []
    ensures Join([a] + rest, sep) == a + [sep] + Join(rest, sep)
  {
    assert ([a] + rest)[1..] == rest;
  }

  /** A record of quoted fields, followed by nothing or by a newline, reads back as those fields. */
  lemma {:induction false} FieldsQuoted(xs: seq<string>, t: string)
    requires xs != [] && (t == [] || t[0] == '\n')
    ensures Fields(Join(QuoteAll(xs), ',') + t) == (xs, if t == [] then None else Some(t[1..]))
    decreases |xs|
  {
    if |xs| == 1 {
      assert xs == [xs[0]];
      assert Join(QuoteAll(xs), ',') == Quote(xs[0]);
      QuotedField(xs[0], t);
    } else {
      FieldsQuoted(xs[1..], t);
      FieldsQuotedStep(xs, t);
    }
  }

  /** One step of `FieldsQuoted`: a quoted field and a comma before a record that reads back. */
  lemma FieldsQuotedStep(xs: seq<string>, t: string)
    requires |xs| > 1 && (t == [] || t[0] == '\n')
    requires Fields(Join(QuoteAll(xs[1..]), ',') + t) == (xs[1..], if t == [] then None else Some(t[1..]))
    ensures Fields(Join(QuoteAll(xs), ',') + t) == (xs, if t == [] then None else Some(t[1..]))
  {
    var rest := Join(QuoteAll(xs[1..]), ',') + t;
    JoinQuoteAllCons(xs, t);
    FieldsPrepend(xs[0], xs[1..], rest, if t == [] then None else Some(t[1..]));
    assert [xs[0]] + xs[1..] == xs;
  }

  lemma FieldsPrepend(x: string, ys: seq<string>, rest: string, more: Option<string>)
    requires Fields(rest) == (ys, more)
    ensures Fields(Quote(x) + ("," + rest)) == ([x] + ys, more)
  {
    FieldsAfterQuoted(x, rest);
  }

  lemma JoinQuoteAllCons(xs: seq<string>, t: string)
    requires |xs| > 1
    ensures Join(QuoteAll(xs), ',') + t == Quote(xs[0]) + ("," + (Join(QuoteAll(xs[1..]), ',') + t))
  {
    assert QuoteAll(xs) == [Quote(xs[0])] + QuoteAll(xs[1..]);
    JoinCons(Quote(xs[0]), QuoteAll(xs[1..]), ',');
  }

  /** A quoted field and a comma: the record is that field and the fields after the comma. */
  lemma FieldsAfterQuoted(x: string, rest: string)
    ensures Fields(Quote(x) + ("," + rest)) == ([x] + Fields(rest).0, Fields(rest).1)
  {
    QuotedField(x, "," + rest);
    assert ("," + rest)[1..] == rest;
    assert EndOf("," + rest) == NextField(rest);
    FieldsNext(Quote(x) + ("," + rest), x, rest);
  }

  /** A field followed by a comma: the record is that field and the fields after the comma. */
  lemma FieldsNext(s: string, x: string, rest: string)
    requires Field(s) == (x, NextField(rest))
    ensures Fields(s) == ([x] + Fields(rest).0, Fields(rest).1)
  {
  }

  function Lines(rs: seq<seq<string>>): (r: seq<string>)
    ensures |r| == |rs|
    ensures forall i :: 0 <= i < |rs| ==> r[i] == Join(QuoteAll(rs[i]), ',')
  {
    seq(|rs|, i requires 0 <= i < |rs| => Join(QuoteAll(rs[i]), ','))
  }

  /** A record followed by a newline: the records of the text are it and those after the newline. */
  lemma RecordsCons(s: string, fs: seq<string>, tail: string)
    requires Fields(s) == (fs, Some(tail))
    ensures Records(s) == [fs] + Records(tail)
  {
  }

  lemma RecordsLast(s: string, fs: seq<string>)
    requires Fields(s) == (fs, None)
    ensures Records(s) == [fs]
  {
  }

  lemma LinesCons(rs: seq<seq<string>>)
    requires |rs| > 1
    ensures Join(Lines(rs), '\n') == Join(QuoteAll(rs[0]), ',') + ("\n" + Join(Lines(rs[1..]), '\n'))
  {
    assert Lines(rs) == [Join(QuoteAll(rs[0]), ',')] + Lines(rs[1..]);
    JoinCons(Join(QuoteAll(rs[0]), ','), Lines(rs[1..]), '\n');
  }

  /** Records of quoted fields, joined by newlines, read back as themselves. */
  lemma {:induction false} RecordsQuoted(rs: seq<seq<string>>)
    requires rs != [] && forall i :: 0 <= i < |rs| ==> rs[i] != []
    ensures Records(Join(Lines(rs), '\n')) == rs
    decreases |rs|
  {
    var line := Join(QuoteAll(rs[0]), ',');
    if |rs| == 1 {
      assert Join(Lines(rs), '\n') == line + "";
      FieldsQuoted(rs[0], "");
      RecordsLast(line + "", rs[0]);
      assert rs == [rs[0]];
    } else {
      var tail := Join(Lines(rs[1..]), '\n');
      LinesCons(rs);
      FieldsQuoted(rs[0], "\n" + tail);
      assert ("\n" + tail)[1..] == tail;
      RecordsCons(line + ("\n" + tail), rs[0], tail);
      assert forall i :: 0 <= i < |rs[1..]| ==> rs[1..][i] != [] by {
        forall i | 0 <= i < |rs[1..]| ensures rs[1..][i] != [] {
          assert rs[1..][i] == rs[i + 1];
        }
      }
      RecordsQuoted(rs[1..]);
      assert [rs[0]] + rs[1..] == rs;
    }
  }

  /**
   * The export reads back as the title record followed by each item's cell texts, whatever
   * commas, quotes or newlines they hold; `None` exactly when the payload is not a flat uniform array.
   */
  lemma CsvRoundTrip(payload: Node, schema: Option<Schema>)
    ensures CsvText(payload, schema).None? <==> !IsFlatUniformArray(payload)
    ensures IsFlatUniformArray(payload) && |Headers(payload.items)| > 0 ==>
              Records(CsvText(payload, schema).value) == Intended(payload.items, schema)
  {
    if IsFlatUniformArray(payload) && |Headers(payload.items)| > 0 {
      ItemsRoundTrip(payload.items, schema);
    }
  }

  lemma ItemsRoundTrip(items: seq<Node>, schema: Option<Schema>)
    requires |items| > 0 && items[0].Obj? && |Headers(items)| > 0
    ensures Records(Join([Join(QuoteAll(Titles(schema, Headers(items))), ',')] + DataLines(items), '\n')) == Intended(items, schema)
  {
    var rs := Intended(items, schema);
    IntendedLines(items, schema);
    assert forall i :: 0 <= i < |rs| ==> |rs[i]| == |Headers(items)|;
    RecordsQuoted(rs);
  }

  lemma IntendedLines(items: seq<Node>, schema: Option<Schema>)
    requires |items| > 0 && items[0].Obj?
    ensures [Join(QuoteAll(Titles(schema, Headers(items))), ',')] + DataLines(items) == Lines(Intended(items, schema))
  {
    var rs := Intended(items, schema);
    var ls := [Join(QuoteAll(Titles(schema, Headers(items))), ',')] + DataLines(items);
    assert |ls| == |Lines(rs)|;
    forall i | 0 <= i < |ls|
      ensures ls[i] == Lines(rs)[i]
    {
      if i > 0 {
        assert ls[i] == DataLines(items)[i - 1];
        assert rs[i] == RowTexts(items[i - 1], Headers(items));
      }
    }
  }

  /** The export has one line per item after the title line, whichever header form is used. */
  lemma CsvLineCount(payload: Node, schema: Option<Schema>)
    requires IsFlatUniformArray(payload)
    ensures |[Join(QuoteAll(Titles(schema, Headers(payload.items))), ',')] + DataLines(payload.items)| == |payload.items| + 1
  {
  }

  /** A field text that reads back unchanged without quotes. */
  predicate PlainText(x: string) {
    && (forall i :: 0 <= i < |x| ==> x[i] != ',' && x[i] != '\n')
    && (x == [] || x[0] != '"')
  }

  lemma {:induction false} PlainBodyOf(x: string, t: string)
    requires forall i :: 0 <= i < |x| ==> x[i] != ',' && x[i] != '\n'
    requires Follows(t)
    ensures PlainBody(x + t) == (x, t)
    decreases |x|
  {
    if x == [] {
      assert x + t == t;
    } else {
      assert (x + t)[0] == x[0];
      assert (x + t)[1..] == x[1..] + t;
      PlainBodyOf(x[1..], t);
      assert [x[0]] + x[1..] == x;
    }
  }

  lemma PlainField(x: string, t: string)
    requires PlainText(x) && Follows(t)
    ensures Field(x + t) == (x, EndOf(t))
  {
    PlainBodyOf(x, t);
    if x == [] {
      assert x + t == t;
    }
  }

  /** A record of plain fields, followed by nothing or a newline, reads back as those fields. */
  lemma {:induction false} FieldsPlain(xs: seq<string>, t: string)
    requires xs != [] && (forall i :: 0 <= i < |xs| ==> PlainText(xs[i])) && (t == [] || t[0] == '\n')
    ensures Fields(Join(xs, ',') + t) == (xs, if t == [] then None else Some(t[1..]))
    decreases |xs|
  {
    if |xs| == 1 {
      assert xs == [xs[0]];
      PlainField(xs[0], t);
    } else {
      var rest := Join(xs[1..], ',') + t;
      JoinCons(xs[0], xs[1..], ',');
      assert [xs[0]] + xs[1..] == xs;
      assert Join(xs, ',') + t == xs[0] + ("," + rest);
      PlainField(xs[0], "," + rest);
      assert ("," + rest)[1..] == rest;
      FieldsPlain(xs[1..], t);
    }
  }

  /**
   * The export as written reads back as intended exactly in the absence of the trouble the
   * missing quotes cause: when no title holds a comma or newline or starts with a quote.
   */
  lemma AsWrittenRoundTrip(payload: Node, schema: Option<Schema>)
    requires IsFlatUniformArray(payload) && |Headers(payload.items)| > 0
    requires forall j :: 0 <= j < |Headers(payload.items)| ==> PlainText(Titles(schema, Headers(payload.items))[j])
    ensures Records(CsvTextAsWritten(payload, schema).value) == Intended(payload.items, schema)
  {
    ItemsAsWrittenRoundTrip(payload.items, schema);
  }

  lemma ItemsAsWrittenRoundTrip(items: seq<Node>, schema: Option<Schema>)
    requires |items| > 0 && items[0].Obj? && |Headers(items)| > 0
    requires forall j :: 0 <= j < |Headers(items)| ==> PlainText(Titles(schema, Headers(items))[j])
    ensures Records(Join([Join(Titles(schema, Headers(items)), ',')] + DataLines(items), '\n')) == Intended(items, schema)
  {
    var titles := Titles(schema, Headers(items));
    var rs := Intended(items, schema);
    var tail := Join(DataLines(items), '\n');
    var text := Join([Join(titles, ',')] + DataLines(items), '\n');
    JoinCons(Join(titles, ','), DataLines(items), '\n');
    assert text == Join(titles, ',') + ("\n" + tail);
    FieldsPlain(titles, "\n" + tail);
    assert ("\n" + tail)[1..] == tail;
    assert Fields(text) == (titles, Some(tail));
    assert Records(text) == [titles] + Records(tail);
    DataLinesAreLines(items, schema);
    assert rs[0] == titles;
    assert forall i :: 0 <= i < |rs[1..]| ==> |rs[1..][i]| == |Headers(items)|;
    RecordsQuoted(rs[1..]);
    assert [rs[0]] + rs[1..] == rs;
  }

  lemma DataLinesAreLines(items: seq<Node>, schema: Option<Schema>)
    requires |items| > 0 && items[0].Obj?
    ensures DataLines(items) == Lines(Intended(items, schema)[1..])
  {
    var rs := Intended(items, schema);
    forall i | 0 <= i < |items|
      ensures DataLines(items)[i] == Lines(rs[1..])[i]
    {
      assert rs[1..][i] == RowTexts(items[i], Headers(items));
    }
  }

  /** The one-item array `[{"a,b": "x"}]`. */
  function CommaItem(): Node {
    Obj([("a,b", Scalar(Str("x")))])
  }

  lemma CommaItemCells()
    ensures Headers([CommaItem()]) == ["a,b"]
    ensures RowTexts(CommaItem(), ["a,b"]) == ["x"]
    ensures DataLines([CommaItem()]) == ["\"x\""]
  {
    var item := CommaItem();
    assert Keys(item.props) == ["a,b"];
    assert Lookup(item.props, "a,b") == Some(Scalar(Str("x")));
    assert CellText(Some(Scalar(Str("x")))) == "x";
    assert RowTexts(item, ["a,b"]) == ["x"];
    assert Double("x") == "x";
    assert Quote("x") == "\"x\"";
    assert QuoteAll(["x"]) == ["\"x\""];
  }

  lemma CommaAsWritten()
    ensures CsvTextAsWritten(Arr([CommaItem()]), None) == Some("a,b\n\"x\"")
  {
    var item := CommaItem();
    CommaItemCells();
    assert IsFlatUniformArray(Arr([item]));
    assert Titles(None, ["a,b"]) == ["a,b"];
    assert Join(["a,b"], ',') == "a,b";
    JoinCons("a,b", ["\"x\""], '\n');
    assert ["a,b"] + ["\"x\""] == ["a,b", "\"x\""];
    assert Join(["\"x\""], '\n') == "\"x\"";
    assert "a,b" + ['\n'] + "\"x\"" == "a,b\n\"x\"";
    assert [Join(["a,b"], ',')] + DataLines([item]) == ["a,b", "\"x\""];
  }

  lemma CommaIntended()
    ensures Intended([CommaItem()], None) == [["a,b"], ["x"]]
  {
    CommaItemCells();
    assert Titles(None, ["a,b"]) == ["a,b"];
  }

  /** The first line of the as-written export reads as two fields. */
  lemma CommaReadTitles()
    ensures Fields("a,b\n\"x\"") == (["a", "b"], Some("\"x\""))
  {
    var s := "a,b\n\"x\"";
    var s1 := ",b\n\"x\"";
    var s2 := "b\n\"x\"";
    var s3 := "\n\"x\"";
    var s4 := "\"x\"";
    assert s[0] == 'a' && s[1..] == s1;
    assert PlainBody(s1) == ("", s1);
    assert [s[0]] + "" == "a";
    assert PlainBody(s) == ("a", s1);
    assert s1[1..] == s2;
    assert Field(s) == ("a", NextField(s2));
    assert s2[0] == 'b' && s2[1..] == s3;
    assert PlainBody(s3) == ("", s3);
    assert [s2[0]] + "" == "b";
    assert PlainBody(s2) == ("b", s3);
    assert s3[1..] == s4;
    assert Field(s2) == ("b", EndOfRecord(s4));
    assert Fields(s2) == (["b"], Some(s4));
    assert ["a"] + ["b"] == ["a", "b"];
  }

  lemma CommaReadCell()
    ensures Fields("\"x\"") == (["x"], None)
  {
    QuotedField("x", "");
    assert Double("x") == "x";
    assert Quote("x") + "" == "\"x\"";
  }

  lemma CommaRead()
    ensures Records("a,b\n\"x\"") == [["a", "b"], ["x"]]
  {
    CommaReadTitles();
    CommaReadCell();
    RecordsCons("a,b\n\"x\"", ["a", "b"], "\"x\"");
    RecordsLast("\"x\"", ["x"]);
  }

  /**
   * As written, a title holding a comma splits into two columns: the export of `[{"a,b": "x"}]`
   * reads back as two titles over one cell, where the corrected export reads back as intended.
   */
  lemma HeaderCommaSplits()
    ensures CsvTextAsWritten(Arr([CommaItem()]), None).Some?
    ensures Records(CsvTextAsWritten(Arr([CommaItem()]), None).value) != Intended([CommaItem()], None)
    ensures Records(CsvText(Arr([CommaItem()]), None).value) == Intended([CommaItem()], None)
  {
    CommaAsWritten();
    CommaRead();
    CommaIntended();
    CommaItemCells();
    CsvRoundTrip(Arr([CommaItem()]), None);
  }
}
