/** CSV export: `_csvRow` and the text built by `downloadCsv` in public/js/app.js, and a
reader that follows section 2 of RFC 4180 with a line feed as record separator. */
module Csv {
  import opened Wrappers

  type Row = seq<string>

  // ----- Writing

  function DoubleQuotes(s: string): string {
    if s == [] then []
    else (if s[0] == '"' then ['"', '"'] else [s[0]]) + DoubleQuotes(s[1..])
  }

  predicate NeedsQuoting(s: string) { ',' in s || '"' in s || '\n' in s }

  /** One cell; a null or undefined cell is written as the empty string. */
  function Cell(s: string): string {
    if NeedsQuoting(s) then ['"'] + DoubleQuotes(s) + ['"'] else s
  }

  function CsvRow(cells: Row): string {
    if cells == [] then ""
    else if |cells| == 1 then Cell(cells[0])
    else Cell(cells[0]) + [','] + CsvRow(cells[1..])
  }

  function CsvRows(rows: seq<Row>): string {
    if rows == [] then ""
    else if |rows| == 1 then CsvRow(rows[0])
    else CsvRow(rows[0]) + ['\n'] + CsvRows(rows[1..])
  }

  function CsvContent(headers: Row, rows: seq<Row>): string {
    CsvRow(headers) + ['\n'] + CsvRows(rows)
  }

  /** A cell is written as it is exactly if it holds neither comma, quote nor line feed. */
  lemma PlainCellIff(s: string)
    ensures Cell(s) == s <==> forall i :: 0 <= i < |s| ==> s[i] != ',' && s[i] != '"' && s[i] != '\n'
  {
    DoubledIsLonger(s);
  }

  lemma {:induction false} DoubledIsLonger(s: string)
    ensures |DoubleQuotes(s)| >= |s|
  {
    if s != [] { DoubledIsLonger(s[1..]); }
  }

  // ----- Reading

  /** What was read, and the rest of the input. */
  datatype Read<T> = Malformed | Got(value: T, rest: string)

  function Plain(s: string): (r: Read<string>)
    ensures r.Got? ==> |r.rest| <= |s|
  {
    if s == [] || s[0] == ',' || s[0] == '\n' then Got("", s)
    else if s[0] == '"' then Malformed
    else
      match Plain(s[1..])
      case Malformed => Malformed
      case Got(v, rest) => Got([s[0]] + v, rest)
  }

  /** The inside of a quoted field, after its opening quote. */
  function Quoted(s: string): (r: Read<string>)
    ensures r.Got? ==> |r.rest| <= |s|
    decreases |s|
  {
    if s == [] then Malformed
    else if s[0] != '"' then
      match Quoted(s[1..])
      case Malformed => Malformed
      case Got(v, rest) => Got([s[0]] + v, rest)
    else if |s| >= 2 && s[1] == '"' then
      match Quoted(s[2..])
      case Malformed => Malformed
      case Got(v, rest) => Got(['"'] + v, rest)
    else Got("", s[1..])
  }

  function Field(s: string): (r: Read<string>)
    ensures r.Got? ==> |r.rest| <= |s|
  {
    if s != [] && s[0] == '"' then Quoted(s[1..]) else Plain(s)
  }

  function Record(s: string): (r: Read<Row>)
    ensures r.Got? ==> |r.rest| <= |s| && r.value != []
    decreases |s|
  {
    match Field(s)
    case Malformed => Malformed
    case Got(v, rest) =>
      if rest == [] || rest[0] == '\n' then Got([v], rest)
      else if rest[0] == ',' then
        match Record(rest[1..])
        case Malformed => Malformed
        case Got(vs, rest') => Got([v] + vs, rest')
      else Malformed
  }

  /** All records of a text; `None` if it is malformed. */
  function ReadAll(s: string): (r: Option<seq<Row>>)
    ensures r.Some? ==> r.value != [] && forall i :: 0 <= i < |r.value| ==> r.value[i] != []
    decreases |s|
  {
    match Record(s)
    case Malformed => None
    case Got(row, rest) =>
      if rest == [] then Some([row])
      else if rest[0] == '\n' then
        match ReadAll(rest[1..])
        case None => None
        case Some(rows) => Some([row] + rows)
      else None
  }

  // ----- Reading what was written

  predicate AtBoundary(rest: string) { rest == [] || rest[0] == ',' || rest[0] == '\n' }

  lemma {:induction false} PlainReadsBack(s: string, rest: string)
    requires !NeedsQuoting(s) && AtBoundary(rest)
    ensures Plain(s + rest) == Got(s, rest)
  {
    if s == [] {
      assert s + rest == rest;
    } else {
      assert s[0] in s;
      PlainReadsBack(s[1..], rest);
      assert (s + rest)[0] == s[0] && (s + rest)[1..] == s[1..] + rest;
      assert s == [s[0]] + s[1..];
    }
  }

  lemma {:induction false} QuotedReadsBack(s: string, rest: string)
    requires AtBoundary(rest)
    ensures Quoted(DoubleQuotes(s) + ['"'] + rest) == Got(s, rest)
  {
    hide Quoted;
    var t := DoubleQuotes(s) + ['"'] + rest;
    if s == [] {
      assert t == ['"'] + rest;
      QuotedEnd(rest);
    } else {
      QuotedReadsBack(s[1..], rest);
      var u := DoubleQuotes(s[1..]) + ['"'] + rest;
      assert s == [s[0]] + s[1..];
      QuotedStep(s[0], u);
      assert t == (if s[0] == '"' then ['"', '"'] else [s[0]]) + u;
    }
  }

  lemma QuotedEnd(rest: string)
    requires AtBoundary(rest)
    ensures Quoted(['"'] + rest) == Got("", rest)
  {
    assert (['"'] + rest)[1..] == rest;
  }

  /** The reader takes a doubled quote, or any other character, for one. */
  lemma QuotedStep(c: char, u: string)
    requires Quoted(u).Got?
    ensures Quoted((if c == '"' then ['"', '"'] else [c]) + u) == Got([c] + Quoted(u).value, Quoted(u).rest)
  {
    var t := (if c == '"' then ['"', '"'] else [c]) + u;
    assert t[if c == '"' then 2 else 1..] == u;
  }

  /** Whatever a cell holds, the reader takes exactly that cell off the front. */
  lemma CellReadsBack(s: string, rest: string)
    requires AtBoundary(rest)
    ensures Field(Cell(s) + rest) == Got(s, rest)
  {
    hide DoubleQuotes, Quoted, Plain;
    if NeedsQuoting(s) {
      var t := Cell(s) + rest;
      assert t[0] == '"' && t[1..] == DoubleQuotes(s) + ['"'] + rest;
      QuotedReadsBack(s, rest);
    } else {
      PlainReadsBack(s, rest);
      var t := s + rest;
      assert s != [] ==> t[0] == s[0] && s[0] in s;
      assert s == [] ==> t == rest;
      assert Cell(s) + rest == t;
    }
  }

  lemma {:induction false} RowReadsBack(cells: Row, rest: string)
    requires cells != [] && (rest == [] || rest[0] == '\n')
    ensures Record(CsvRow(cells) + rest) == Got(cells, rest)
  {
    hide Cell, Field, Record;
    if |cells| == 1 {
      CellReadsBack(cells[0], rest);
      RecordLast(Cell(cells[0]) + rest, cells[0], rest);
      assert cells == [cells[0]];
    } else {
      var tail := CsvRow(cells[1..]) + rest;
      RowReadsBack(cells[1..], rest);
      CellReadsBack(cells[0], [','] + tail);
      assert CsvRow(cells) + rest == Cell(cells[0]) + ([','] + tail);
      RecordStep(CsvRow(cells) + rest, cells[0], tail);
      assert cells == [cells[0]] + cells[1..];
    }
  }

  lemma RecordLast(s: string, v: string, rest: string)
    requires Field(s) == Got(v, rest) && (rest == [] || rest[0] == '\n')
    ensures Record(s) == Got([v], rest)
  {
  }

  lemma RecordStep(s: string, v: string, tail: string)
    requires Field(s) == Got(v, [','] + tail) && Record(tail).Got?
    ensures Record(s) == Got([v] + Record(tail).value, Record(tail).rest)
  {
    assert ([','] + tail)[1..] == tail;
  }

  lemma ReadAllStep(s: string, row: Row, tail: string)
    requires Record(s) == Got(row, ['\n'] + tail) && ReadAll(tail).Some?
    ensures ReadAll(s) == Some([row] + ReadAll(tail).value)
  {
    assert (['\n'] + tail)[1..] == tail;
  }

  lemma ReadAllLast(s: string, row: Row)
    requires Record(s) == Got(row, "")
    ensures ReadAll(s) == Some([row])
  {
  }

  lemma {:induction false} RowsReadBack(rows: seq<Row>)
    requires rows != [] && forall i :: 0 <= i < |rows| ==> rows[i] != []
    ensures ReadAll(CsvRows(rows)) == Some(rows)
  {
    hide CsvRow, Record, ReadAll;
    var row := rows[0];
    if |rows| == 1 {
      assert CsvRow(row) + "" == CsvRow(row);
      RowReadsBack(row, "");
      ReadAllLast(CsvRow(row), row);
      assert rows == [row];
    } else {
      var tail := CsvRows(rows[1..]);
      RowsReadBack(rows[1..]);
      RowReadsBack(row, ['\n'] + tail);
      assert CsvRows(rows) == CsvRow(row) + (['\n'] + tail);
      ReadAllStep(CsvRows(rows), row, tail);
      assert rows == [row] + rows[1..];
    }
  }

  // ----- What a text says

  /** A row without cells prints like one empty cell, a table without rows like one such row. */
  function Normal(row: Row): Row { if row == [] then [""] else row }

  function NormalRows(rows: seq<Row>): (r: seq<Row>)
    ensures r != [] && forall i :: 0 <= i < |r| ==> r[i] != []
  {
    if |rows| == 0 then [[""]] else seq(|rows|, i requires 0 <= i < |rows| => Normal(rows[i]))
  }

  lemma NormalRowText(row: Row)
    ensures CsvRow(Normal(row)) == CsvRow(row)
  {
  }

  lemma {:induction false} NormalText(rows: seq<Row>)
    ensures CsvRows(NormalRows(rows)) == CsvRows(rows)
  {
    hide CsvRow;
    if rows == [] {
      NormalRowText([]);
      NoCells();
    } else {
      NormalRowText(rows[0]);
      if |rows| > 1 {
        NormalText(rows[1..]);
        assert NormalRows(rows)[1..] == NormalRows(rows[1..]);
      }
    }
  }

  lemma NoCells()
    ensures CsvRow([]) == ""
  {
  }

  /** The text of any table is read back as that table, with absent cells read as empty ones:
      whatever commas, quotes and line feeds it holds. */
  lemma ExportReadsBack(headers: Row, rows: seq<Row>)
    ensures ReadAll(CsvContent(headers, rows)) == Some([Normal(headers)] + NormalRows(rows))
  {
    hide CsvRow, ReadAll, Normal, NormalRows;
    var table := [Normal(headers)] + NormalRows(rows);
    NormalIsNot(headers);
    NormalRowText(headers);
    NormalText(rows);
    assert table[1..] == NormalRows(rows);
    RowsReadBack(table);
  }

  lemma NormalIsNot(row: Row)
    ensures Normal(row) != []
  {
  }

  predicate Full(headers: Row, rows: seq<Row>) {
    rows != [] && headers != [] && forall i :: 0 <= i < |rows| ==> rows[i] != []
  }

  lemma NormalIff(headers: Row, rows: seq<Row>)
    ensures Normal(headers) == headers && NormalRows(rows) == rows <==> Full(headers, rows)
  {
    if i :| 0 <= i < |rows| && rows[i] == [] { assert NormalRows(rows)[i] != rows[i]; }
  }

  /** The reader recovers exactly the header and the rows if and only if there is a row and no row
      (nor the header) is empty. */
  lemma ExportRoundTrip(headers: Row, rows: seq<Row>)
    ensures ReadAll(CsvContent(headers, rows)) == Some([headers] + rows) <==> Full(headers, rows)
  {
    hide ReadAll, CsvContent, Normal, NormalRows;
    ExportReadsBack(headers, rows);
    NormalIff(headers, rows);
    TablesEqual(headers, rows, Normal(headers), NormalRows(rows));
  }

  lemma TablesEqual(h: Row, rows: seq<Row>, h': Row, rows': seq<Row>)
    ensures [h] + rows == [h'] + rows' <==> h == h' && rows == rows'
  {
    var t, t' := [h] + rows, [h'] + rows';
    assert t[0] == h && t'[0] == h' && t[1..] == rows && t'[1..] == rows';
  }

  /** With no rows the text ends in a line feed, which the reader takes for one more record. */
  lemma EmptyExport(headers: Row)
    ensures ReadAll(CsvContent(headers, [])) == Some([Normal(headers), [""]])
  {
    hide ReadAll, CsvContent, Normal;
    ExportReadsBack(headers, []);
    assert NormalRows([]) == [[""]];
    assert [Normal(headers)] + [[""]] == [Normal(headers), [""]];
  }

  /** Two tables share a text if and only if they differ at most in absent against empty cells. */
  lemma ExportInjective(h: Row, rows: seq<Row>, h': Row, rows': seq<Row>)
    ensures CsvContent(h, rows) == CsvContent(h', rows')
      <==> Normal(h) == Normal(h') && NormalRows(rows) == NormalRows(rows')
  {
    hide ReadAll, CsvRow, CsvRows, Normal, NormalRows;
    ExportReadsBack(h, rows);
    ExportReadsBack(h', rows');
    TablesEqual(Normal(h), NormalRows(rows), Normal(h'), NormalRows(rows'));
    NormalRowText(h);
    NormalRowText(h');
    NormalText(rows);
    NormalText(rows');
  }
}
