/** CSV printer of src/controllers/exportController.js.  Date cells are not part of this model. */
module CsvExport {
  import opened Text

  /** A cell as String(val) shows it, or null. */
  datatype Cell = Null | Value(text: string)

  /** An exported row; its keys in insertion order are the headers when it is the first row. */
  type Row = map<string, Cell>

  function CellText(row: Row, header: string): string {
    if header in row && row[header].Value? then row[header].text else ""
  }

  /** str.replace(/"/g, '""') */
  function DoubleQuotes(s: string): string {
    if s == "" then "" else (if s[0] == '"' then "\"\"" else [s[0]]) + DoubleQuotes(s[1..])
  }

  predicate NeedsQuotes(s: string) {
    ',' in s || '"' in s || '\n' in s
  }

  function Escape(s: string): string {
    if NeedsQuotes(s) then "\"" + DoubleQuotes(s) + "\"" else s
  }

  function Escaped(cells: seq<string>): (r: seq<string>)
    ensures |r| == |cells|
    ensures forall i :: 0 <= i < |cells| ==> r[i] == Escape(cells[i])
  {
    seq(|cells|, i requires 0 <= i < |cells| => Escape(cells[i]))
  }

  /** One printed record. */
  function PrintLine(cells: seq<string>): string {
    Join(Escaped(cells), ',')
  }

  function CellsOf(headers: seq<string>, row: Row): (r: seq<string>)
    ensures |r| == |headers|
    ensures forall i :: 0 <= i < |headers| ==> r[i] == CellText(row, headers[i])
  {
    seq(|headers|, i requires 0 <= i < |headers| => CellText(row, headers[i]))
  }

  function RowLines(headers: seq<string>, rows: seq<Row>): (r: seq<string>)
    ensures |r| == |rows|
    ensures forall i :: 0 <= i < |rows| ==> r[i] == PrintLine(CellsOf(headers, rows[i]))
  {
    seq(|rows|, i requires 0 <= i < |rows| => PrintLine(CellsOf(headers, rows[i])))
  }

  /** The exported text: headers are joined as they are, cells are escaped. */
  function CsvText(headers: seq<string>, rows: seq<Row>): string {
    if rows == [] then "" else Join([Join(headers, ',')] + RowLines(headers, rows), '\n')
  }

  lemma EscapedMore(headers: seq<string>, h: string, row: Row)
    ensures Escaped(CellsOf(headers + [h], row)) == Escaped(CellsOf(headers, row)) + [Escape(CellText(row, h))]
  {
    assert CellsOf(headers + [h], row) == CellsOf(headers, row) + [CellText(row, h)];
  }

  /** The map over the headers of one row. */
  method RowValues(headers: seq<string>, row: Row) returns (values: seq<string>)
    ensures values == Escaped(CellsOf(headers, row))
  {
    values := [];
    for i := 0 to |headers|
      invariant values == Escaped(CellsOf(headers[..i], row))
    {
      var h := headers[i];
      var value := "";
      if h in row && row[h].Value? {
        var str := row[h].text;
        value := if ',' in str || '"' in str || '\n' in str then "\"" + DoubleQuotes(str) + "\"" else str;
      }
      values := values + [value];
      EscapedMore(headers[..i], h, row);
      assert headers[..i + 1] == headers[..i] + [h];
    }
    assert headers[..|headers|] == headers;
  }

  lemma RowLinesMore(headers: seq<string>, rows: seq<Row>, row: Row)
    ensures RowLines(headers, rows + [row]) == RowLines(headers, rows) + [PrintLine(CellsOf(headers, row))]
  {
  }

  /** `headers` is Object.keys(rows[0]). */
  method ToCsv(headers: seq<string>, rows: seq<Row>) returns (text: string)
    ensures text == CsvText(headers, rows)
  {
    if |rows| == 0 {
      return "";
    }
    var lines := [Join(headers, ',')];
    for n := 0 to |rows|
      invariant lines == [Join(headers, ',')] + RowLines(headers, rows[..n])
    {
      var values := RowValues(headers, rows[n]);
      lines := lines + [Join(values, ',')];
      RowLinesMore(headers, rows[..n], rows[n]);
      assert rows[..n + 1] == rows[..n] + [rows[n]];
    }
    assert rows[..|rows|] == rows;
    text := Join(lines, '\n');
  }
}
