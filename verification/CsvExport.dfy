/** The admin export's CSV lines, and the reader that gets the rows back. */
module CsvExport {
  import opened Options

  type Text = string

  /** An exported row has at least one field. */
  type Row = fields: seq<Text> | fields != [] witness [""]

  // ----- writing -----

  predicate NeedsQuotes(c: char) {
    c == ',' || c == '"' || c == '\\' || c == '\n' || c == '\r' || c == '\t' || c == ' '
  }

  function Doubled(field: Text): Text {
    if field == "" then "" else (if field[0] == '"' then "\"\"" else [field[0]]) + Doubled(field[1..])
  }

  /** phpCSVField: fputcsv's quoting rule. */
  function Field(field: Text): Text {
    if exists i :: 0 <= i < |field| && NeedsQuotes(field[i]) then "\"" + Doubled(field) + "\"" else field
  }

  /** Fields joined by commas, ended by a line feed. */
  function Line(row: Row): Text {
    if |row| == 1 then Field(row[0]) + "\n" else Field(row[0]) + "," + Line(row[1..])
  }

  function Document(rows: seq<Row>): Text {
    if rows == [] then "" else Line(rows[0]) + Document(rows[1..])
  }

  /** csvCell: a leading formula character is defused by an apostrophe. */
  predicate StartsFormula(value: Text) {
    value != "" && value[0] in {'=', '+', '-', '@', '\t', '\r'}
  }

  function Cell(value: Text): Text {
    if StartsFormula(value) then "'" + value else value
  }

  // ----- reading: RFC 4180 section 2, with LF line ends -----

  datatype Mode = FieldStart | Bare | Quoted | QuoteSeen | Malformed

  datatype Reader = Reader(mode: Mode, field: Text, row: seq<Text>, rows: seq<seq<Text>>)

  const START := Reader(FieldStart, "", [], [])

  function EndField(r: Reader): Reader {
    Reader(FieldStart, "", r.row + [r.field], r.rows)
  }

  function EndRow(r: Reader): Reader {
    Reader(FieldStart, "", [], r.rows + [r.row + [r.field]])
  }

  function Step(r: Reader, c: char): Reader {
    match r.mode
    case FieldStart =>
      if c == '"' then r.(mode := Quoted)
      else if c == ',' then EndField(r)
      else if c == '\n' then EndRow(r)
      else if c == '\r' then r.(mode := Malformed)
      else r.(mode := Bare, field := [c])
    case Bare =>
      if c == ',' then EndField(r)
      else if c == '\n' then EndRow(r)
      else if c == '"' || c == '\r' then r.(mode := Malformed)
      else r.(field := r.field + [c])
    case Quoted =>
      if c == '"' then r.(mode := QuoteSeen) else r.(field := r.field + [c])
    case QuoteSeen =>
      if c == '"' then r.(mode := Quoted, field := r.field + [c])
      else if c == ',' then EndField(r)
      else if c == '\n' then EndRow(r)
      else r.(mode := Malformed)
    case Malformed => r
  }

  function Feed(r: Reader, text: Text): Reader
    decreases |text|
  {
    if text == "" then r else Feed(Step(r, text[0]), text[1..])
  }

  function Read(text: Text): Option<seq<seq<Text>>> {
    var r := Feed(START, text);
    if r.mode == FieldStart && r.row == [] then Some(r.rows) else None
  }

  // ----- the round trip -----

  lemma {:induction false} FeedTwo(r: Reader, a: Text, b: Text)
    ensures Feed(r, a + b) == Feed(Feed(r, a), b)
    decreases |a|
  {
    if a == "" {
      assert a + b == b;
    } else {
      assert (a + b)[1..] == a[1..] + b;
      FeedTwo(Step(r, a[0]), a[1..], b);
    }
  }

  lemma {:induction false} FeedDoubled(r: Reader, field: Text)
    requires r.mode == Quoted
    ensures Feed(r, Doubled(field)) == r.(field := r.field + field)
    decreases |field|
  {
    if field != "" {
      var head := if field[0] == '"' then "\"\"" else [field[0]];
      var next := r.(field := r.field + [field[0]]);
      FeedTwo(r, head, Doubled(field[1..]));
      FeedHead(r, field[0]);
      FeedDoubled(next, field[1..]);
      assert r.field + [field[0]] + field[1..] == r.field + field;
    }
  }

  lemma FeedHead(r: Reader, c: char)
    requires r.mode == Quoted
    ensures Feed(r, if c == '"' then "\"\"" else [c]) == r.(field := r.field + [c])
  {
    if c == '"' {
      var two := "\"\"";
      assert two[1..] == "\"" && two[1..][1..] == "";
      assert Feed(r, two) == Feed(Step(r, '"'), "\"");
    } else {
      assert [c][1..] == "";
    }
  }

  lemma {:induction false} FeedBare(r: Reader, field: Text)
    requires r.mode == Bare && forall i :: 0 <= i < |field| ==> !NeedsQuotes(field[i])
    ensures Feed(r, field) == r.(field := r.field + field)
    decreases |field|
  {
    if field == "" {
      assert r.field + field == r.field;
    } else {
      FeedBare(Step(r, field[0]), field[1..]);
      assert r.field + [field[0]] + field[1..] == r.field + field;
    }
  }

  /** Whatever a field holds, the reader ends up holding it. */
  ghost predicate Holds(r: Reader, before: Reader, field: Text) {
    && (r.mode == FieldStart || r.mode == Bare || r.mode == QuoteSeen)
    && r.field == field && r.row == before.row && r.rows == before.rows
  }

  lemma FeedField(r: Reader, field: Text)
    requires r.mode == FieldStart && r.field == ""
    ensures Holds(Feed(r, Field(field)), r, field)
  {
    if exists i :: 0 <= i < |field| && NeedsQuotes(field[i]) {
      FeedTwo(r, "\"" + Doubled(field), "\"");
      FeedTwo(r, "\"", Doubled(field));
      assert Feed(r, "\"") == r.(mode := Quoted) by { assert "\""[1..] == ""; }
      FeedDoubled(r.(mode := Quoted), field);
      assert "\""[1..] == "";
    } else if field != "" {
      FeedBare(Step(r, field[0]), field[1..]);
      assert [field[0]] + field[1..] == field;
    }
  }

  lemma {:induction false} FeedLine(r: Reader, row: Row)
    requires r.mode == FieldStart && r.field == ""
    ensures Feed(r, Line(row)) == Reader(FieldStart, "", [], r.rows + [r.row + row])
    decreases |row|
  {
    var f := Field(row[0]);
    FeedField(r, row[0]);
    var held := Feed(r, f);
    if |row| == 1 {
      FeedTwo(r, f, "\n");
      assert "\n"[1..] == "";
      assert row == [row[0]];
    } else {
      FeedTwo(r, f + ",", Line(row[1..]));
      FeedTwo(r, f, ",");
      assert ","[1..] == "";
      var next := EndField(held);
      assert Feed(held, ",") == next;
      FeedLine(next, row[1..]);
      assert r.row + [row[0]] + row[1..] == r.row + row;
    }
  }

  lemma {:induction false} FeedDocument(r: Reader, rows: seq<Row>)
    requires r.mode == FieldStart && r.field == "" && r.row == []
    ensures Feed(r, Document(rows)) == r.(rows := r.rows + rows)
    decreases |rows|
  {
    if rows == [] {
      assert r.rows + rows == r.rows;
    } else {
      FeedTwo(r, Line(rows[0]), Document(rows[1..]));
      FeedLine(r, rows[0]);
      assert [] + rows[0] == rows[0];
      FeedDocument(r.(rows := r.rows + [rows[0]]), rows[1..]);
      assert r.rows + [rows[0]] + rows[1..] == r.rows + rows;
    }
  }

  /** Reading an exported document gives back exactly its rows, whatever commas,
      quotes, line ends or backslashes the fields hold. */
  lemma RoundTrip(rows: seq<Row>)
    ensures Read(Document(rows)) == Some(rows)
  {
    FeedDocument(START, rows);
    assert [] + rows == rows;
  }

  /** No field of an exported row opens as a formula, and the guard adds at most
      one apostrophe: the value comes back when a leading apostrophe before a
      formula character is dropped. */
  lemma CellIsSafe(value: Text)
    ensures !StartsFormula(Cell(value))
    ensures StartsFormula(value) <==> Cell(value) != value
    ensures Cell(value) != value ==> Cell(value)[0] == '\'' && Cell(value)[1..] == value
  {
  }

  // ----- the loops -----

  function Join(parts: seq<Text>): Text {
    if parts == [] then "" else if |parts| == 1 then parts[0] else parts[0] + "," + Join(parts[1..])
  }

  lemma {:induction false} JoinIsLine(parts: seq<Text>, row: Row)
    requires |parts| == |row| && forall i :: 0 <= i < |row| ==> parts[i] == Field(row[i])
    ensures Join(parts) + "\n" == Line(row)
    decreases |row|
  {
    if |row| > 1 {
      JoinIsLine(parts[1..], row[1..]);
      assert parts[0] + "," + Join(parts[1..]) + "\n" == parts[0] + "," + (Join(parts[1..]) + "\n");
    }
  }

  /** phpCSVLine. */
  method CsvLine(row: seq<Text>) returns (line: Text)
    ensures row != [] ==> line == Line(row)
    ensures row == [] ==> line == "\n"
  {
    var parts := [];
    for i := 0 to |row|
      invariant |parts| == i
      invariant forall k :: 0 <= k < i ==> parts[k] == Field(row[k])
    {
      parts := parts + [Field(row[i])];
    }
    if row != [] {
      JoinIsLine(parts, row);
    }
    line := Join(parts) + "\n";
  }

  lemma {:induction false} DocumentAppend(rows: seq<Row>, row: Row)
    ensures Document(rows + [row]) == Document(rows) + Line(row)
    decreases |rows|
  {
    if rows == [] {
      assert rows + [row] == [row];
      assert [row][1..] == [];
      assert Line(row) + "" == Line(row);
    } else {
      assert (rows + [row])[1..] == rows[1..] + [row];
      DocumentAppend(rows[1..], row);
    }
  }

  /** The export loop: one line after the other into a builder. */
  method Export(rows: seq<Row>) returns (builder: Text)
    ensures builder == Document(rows) && Read(builder) == Some(rows)
  {
    builder := "";
    for i := 0 to |rows|
      invariant builder == Document(rows[..i])
    {
      var line := CsvLine(rows[i]);
      DocumentAppend(rows[..i], rows[i]);
      assert rows[..i + 1] == rows[..i] + [rows[i]];
      builder := builder + line;
    }
    assert rows[..|rows|] == rows;
    RoundTrip(rows);
  }
}
