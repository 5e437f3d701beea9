/**
  The importer against the exporter: quoting rules of section 2 of RFC 4180, except that lines end
  in LF and are split before quotes are looked at.
*/
module CsvRoundTrip {
  import opened Numbers
  import opened Text
  import opened CsvExport
  import opened CsvImport

  // ---------------------------------------------------------------------------
  // One line
  // ---------------------------------------------------------------------------

  lemma {:induction false} ScanPlain(text: string, tail: string, current: string, result: seq<string>)
    requires '"' !in text && ',' !in text
    ensures Scan(text + tail, current, false, result) == Scan(tail, current + text, false, result)
  {
    if text == "" {
      assert text + tail == tail && current + text == current;
    } else {
      ScanPlain(text[1..], tail, current + [text[0]], result);
      assert (text + tail)[1..] == text[1..] + tail;
      assert current + [text[0]] + text[1..] == current + text;
    }
  }

  /** Inside quotes, a doubled quote is one quote and the single one closes. */
  lemma {:induction false} ScanQuoted(text: string, tail: string, current: string, result: seq<string>)
    requires tail == "" || tail[0] != '"'
    ensures Scan(DoubleQuotes(text) + "\"" + tail, current, true, result) == Scan(tail, current + text, false, result)
  {
    var s := DoubleQuotes(text) + "\"" + tail;
    if text == "" {
      assert s == "\"" + tail && s[1..] == tail && current + text == current;
    } else {
      ScanQuoted(text[1..], tail, current + [text[0]], result);
      var rest := DoubleQuotes(text[1..]) + "\"" + tail;
      if text[0] == '"' {
        assert s == "\"\"" + rest && s[2..] == rest;
      } else {
        assert s == [text[0]] + rest && s[1..] == rest;
      }
      assert current + [text[0]] + text[1..] == current + text;
    }
  }

  lemma ScanOpens(s: string, result: seq<string>)
    requires s != "" && s[0] == '"'
    ensures Scan(s, "", false, result) == Scan(s[1..], "", true, result)
  {
  }

  /** The scanner reads one printed cell back, up to the comma or the end that follows. */
  lemma ScanCell(cell: string, tail: string, result: seq<string>)
    requires tail == "" || tail[0] == ','
    ensures Scan(Escape(cell) + tail, "", false, result) == Scan(tail, cell, false, result)
  {
    hide Scan, DoubleQuotes;
    if NeedsQuotes(cell) {
      var s := Escape(cell) + tail;
      ScanOpens(s, result);
      assert s[1..] == DoubleQuotes(cell) + "\"" + tail;
      ScanQuoted(cell, tail, "", result);
      assert "" + cell == cell;
    } else {
      ScanPlain(cell, tail, "", result);
      assert "" + cell == cell;
    }
  }

  lemma PrintLineMore(cells: seq<string>)
    requires |cells| > 1
    ensures PrintLine(cells) == Escape(cells[0]) + ("," + PrintLine(cells[1..]))
  {
    assert Escaped(cells)[1..] == Escaped(cells[1..]);
  }

  lemma {:induction false} ScanPrinted(cells: seq<string>, result: seq<string>)
    requires cells != [] && |result| < MAX_COLS
    ensures Scan(PrintLine(cells), "", false, result) == result + cells[..Min(|cells|, MAX_COLS - |result|)]
  {
    var first := cells[0];
    if |cells| == 1 {
      ScanCell(first, "", result);
      assert Escape(first) + "" == PrintLine(cells);
      assert cells[..1] == [first];
    } else {
      var tail := "," + PrintLine(cells[1..]);
      PrintLineMore(cells);
      ScanCell(first, tail, result);
      assert tail[1..] == PrintLine(cells[1..]);
      if |result| + 1 < MAX_COLS {
        ScanPrinted(cells[1..], result + [first]);
        FirstOf(result, cells, Min(|cells|, MAX_COLS - |result|));
      } else {
        assert cells[..1] == [first];
      }
    }
  }

  lemma FirstOf(result: seq<string>, cells: seq<string>, k: nat)
    requires 0 < k <= |cells|
    ensures (result + [cells[0]]) + cells[1..][..k - 1] == result + cells[..k]
  {
  }

  /** Any non-empty list of strings, whatever they contain, is read back from its printed line up to
      the column cap. */
  lemma LineRoundTrip(cells: seq<string>)
    requires cells != []
    ensures ParseLine(PrintLine(cells)) == cells[..Min(|cells|, MAX_COLS)]
  {
    ScanPrinted(cells, []);
  }

  // ---------------------------------------------------------------------------
  // White space at the end of a line
  // ---------------------------------------------------------------------------

  /** Fields that become equal once trimmed. */
  predicate SameTrimmed(a: seq<string>, b: seq<string>) {
    |a| == |b| && forall i :: 0 <= i < |a| ==> Trim(a[i]) == Trim(b[i])
  }

  lemma TrimAppend(s: string, c: char)
    requires IsSpace(c)
    ensures Trim(s + [c]) == Trim(s)
  {
    assert (s + [c])[..|s|] == s;
  }

  lemma {:induction false} ScanTrailing(rest: string, c: char, current: string, inQuotes: bool, result: seq<string>)
    requires IsSpace(c)
    ensures SameTrimmed(Scan(rest + [c], current, inQuotes, result), Scan(rest, current, inQuotes, result))
    decreases |rest|
  {
    var s := rest + [c];
    if rest == "" {
      assert s[0] == c && s[1..] == "";
      TrimAppend(current, c);
    } else if inQuotes && rest[0] == '"' && |rest| > 1 && rest[1] == '"' {
      assert s[2..] == rest[2..] + [c];
      ScanTrailing(rest[2..], c, current + "\"", true, result);
    } else {
      assert s[1..] == rest[1..] + [c];
      if inQuotes {
        ScanTrailing(rest[1..], c, if rest[0] == '"' then current else current + [rest[0]], rest[0] != '"', result);
      } else if rest[0] == '"' {
        ScanTrailing(rest[1..], c, current, true, result);
      } else if rest[0] == ',' {
        if |result| + 1 < MAX_COLS {
          ScanTrailing(rest[1..], c, "", false, result + [current]);
        }
      } else {
        ScanTrailing(rest[1..], c, current + [rest[0]], false, result);
      }
    }
  }

  lemma LineTrailing(line: string, c: char)
    requires IsSpace(c)
    ensures SameTrimmed(ParseLine(line + [c]), ParseLine(line))
  {
    ScanTrailing(line, c, "", false, []);
  }

  lemma {:induction false} LineTrimEnd(line: string)
    ensures SameTrimmed(ParseLine(TrimEnd(line)), ParseLine(line))
  {
    if line != "" && IsSpace(line[|line| - 1]) {
      var front := line[..|line| - 1];
      LineTrimEnd(front);
      LineTrailing(front, line[|line| - 1]);
      assert front + [line[|line| - 1]] == line;
    }
  }

  lemma {:induction false} RecordSame(headers: seq<string>, headers': seq<string>, values: seq<string>, values': seq<string>, n: nat)
    requires n <= |headers| && SameTrimmed(headers, headers') && SameTrimmed(values, values')
    ensures RecordOf(headers, values, n) == RecordOf(headers', values', n)
  {
    if n > 0 {
      RecordSame(headers, headers', values, values', n - 1);
      assert Trim(headers[n - 1]) == Trim(headers'[n - 1]);
      assert Trim(FieldAt(values, n - 1)) == Trim(FieldAt(values', n - 1));
    }
  }

  /** Lines that parse to the same fields up to white space give the same records. */
  lemma FileSame(lines: seq<string>, lines': seq<string>)
    requires |lines| == |lines'|
    requires forall i :: 0 <= i < |lines| ==> SameTrimmed(ParseLine(lines[i]), ParseLine(lines'[i]))
    ensures FileRecords(lines) == FileRecords(lines')
  {
    if |lines| >= 2 {
      var headers, headers' := ParseLine(lines[0]), ParseLine(lines'[0]);
      assert SameTrimmed(headers, headers');
      var body := lines[1..Min(|lines|, MAX_ROWS + 1)];
      var body' := lines'[1..Min(|lines|, MAX_ROWS + 1)];
      forall i | 0 <= i < |body|
        ensures RecordOf(headers, ParseLine(body[i]), |headers|) == RecordOf(headers', ParseLine(body'[i]), |headers'|)
      {
        assert body[i] == lines[i + 1] && body'[i] == lines'[i + 1];
        RecordSame(headers, headers', ParseLine(body[i]), ParseLine(body'[i]), |headers|);
      }
    }
  }

  // ---------------------------------------------------------------------------
  // CRLF
  // ---------------------------------------------------------------------------

  /** Every LF replaced by CRLF. */
  function Crlf(s: string): string {
    if s == "" then "" else (if s[0] == '\n' then "\r\n" else [s[0]]) + Crlf(s[1..])
  }

  lemma {:induction false} CrlfConcat(a: string, b: string)
    ensures Crlf(a + b) == Crlf(a) + Crlf(b)
  {
    if a == "" {
      assert a + b == b;
    } else {
      assert (a + b)[1..] == a[1..] + b;
      CrlfConcat(a[1..], b);
    }
  }

  lemma {:induction false} TrimEndCrlf(s: string)
    ensures TrimEnd(Crlf(s)) == Crlf(TrimEnd(s))
  {
    if s != "" {
      var front, last := s[..|s| - 1], s[|s| - 1];
      assert s == front + [last];
      CrlfConcat(front, [last]);
      assert Crlf([last]) == if last == '\n' then "\r\n" else [last];
      TrimEndCrlf(front);
      if last == '\n' {
        assert Crlf(s)[..|Crlf(s)| - 1] == Crlf(front) + "\r";
        assert (Crlf(front) + "\r")[..|Crlf(front)|] == Crlf(front);
      } else {
        assert Crlf(s)[..|Crlf(s)| - 1] == Crlf(front);
      }
    }
  }

  lemma {:induction false} TrimStartCrlf(s: string)
    ensures TrimStart(Crlf(s)) == Crlf(TrimStart(s))
  {
    if s != "" {
      TrimStartCrlf(s[1..]);
      if s[0] == '\n' {
        assert Crlf(s)[1..] == "\n" + Crlf(s[1..]);
        assert ("\n" + Crlf(s[1..]))[1..] == Crlf(s[1..]);
      } else {
        assert Crlf(s)[1..] == Crlf(s[1..]);
      }
    }
  }

  /** Splitting the CRLF text leaves a CR at the end of every line but the last. */
  function WithCr(lines: seq<string>): (r: seq<string>)
    requires lines != []
    ensures |r| == |lines|
  {
    seq(|lines|, i requires 0 <= i < |lines| => if i < |lines| - 1 then lines[i] + "\r" else lines[i])
  }

  lemma SplitFirst(c: char, s: string)
    ensures Split([c] + s, '\n') == if c == '\n' then [""] + Split(s, '\n') else [[c] + Split(s, '\n')[0]] + Split(s, '\n')[1..]
  {
    assert ([c] + s)[1..] == s;
  }

  lemma WithCrEmptyLine(rest: seq<string>)
    requires rest != []
    ensures WithCr([""] + rest) == ["\r"] + WithCr(rest)
  {
    assert "" + "\r" == "\r";
  }

  lemma WithCrFirstChar(c: char, rest: seq<string>)
    requires rest != []
    ensures WithCr([[c] + rest[0]] + rest[1..]) == [[c] + WithCr(rest)[0]] + WithCr(rest)[1..]
  {
    assert ([c] + rest[0]) + "\r" == [c] + (rest[0] + "\r");
  }

  lemma CrLfSplits(tail: string)
    ensures Split(['\r'] + (['\n'] + tail), '\n') == ["\r"] + Split(tail, '\n')
  {
    SplitFirst('\n', tail);
    SplitFirst('\r', ['\n'] + tail);
    assert ['\r'] + "" == "\r";
  }

  lemma {:induction false} SplitCrlf(s: string)
    ensures Split(Crlf(s), '\n') == WithCr(Split(s, '\n'))
  {
    if s != "" {
      SplitCrlf(s[1..]);
      var rest, tail := Split(s[1..], '\n'), Crlf(s[1..]);
      assert s == [s[0]] + s[1..];
      SplitFirst(s[0], s[1..]);
      if s[0] == '\n' {
        assert Crlf(s) == ['\r'] + (['\n'] + tail);
        CrLfSplits(tail);
        WithCrEmptyLine(rest);
      } else {
        assert Crlf(s) == [s[0]] + tail;
        SplitFirst(s[0], tail);
        WithCrFirstChar(s[0], rest);
      }
    }
  }

  /** Line ends make no difference: a text and the same text with CRLF give the same records. */
  lemma CrlfIrrelevant(text: string)
    ensures FileRecords(Split(Trim(Crlf(text)), '\n')) == FileRecords(Split(Trim(text), '\n'))
  {
    TrimEndCrlf(text);
    TrimStartCrlf(TrimEnd(text));
    SplitCrlf(Trim(text));
    var lines := Split(Trim(text), '\n');
    var crlf := WithCr(lines);
    forall i | 0 <= i < |lines| ensures SameTrimmed(ParseLine(crlf[i]), ParseLine(lines[i])) {
      LineTrailing(lines[i], '\r');
    }
    FileSame(crlf, lines);
  }

  // ---------------------------------------------------------------------------
  // Whole files
  // ---------------------------------------------------------------------------

  /** Headers that survive unescaped printing: between 2 and 200, trimmed, without comma, quote or LF. */
  predicate PlainHeaders(headers: seq<string>) {
    && 2 <= |headers| <= MAX_COLS
    && forall h <- headers :: !NeedsQuotes(h) && Trim(h) == h
  }

  predicate NewlineFree(headers: seq<string>, rows: seq<Row>) {
    forall row <- rows :: RowNewlineFree(headers, row)
  }

  predicate RowNewlineFree(headers: seq<string>, row: Row) {
    forall h <- headers :: h in row && row[h].Value? ==> '\n' !in row[h].text
  }

  /** The record says of every header what the row holds there: the trimmed text of a value, and nothing for
      NULL or for no value at all. */
  predicate ReadsBack(headers: seq<string>, row: Row, record: Record) {
    && (forall h <- record :: h in headers)
    && forall h <- headers ::
         && h in record
         && (h in row && row[h].Value? ==> record[h] == Trim(row[h].text))
         && (h !in row || row[h] == Null ==> record[h] == "")
  }

  /** Record by record. */
  predicate AllReadBack(headers: seq<string>, rows: seq<Row>, records: seq<Record>) {
    |records| == |rows| && forall i :: 0 <= i < |rows| ==> ReadsBack(headers, rows[i], records[i])
  }

  function Expected(headers: seq<string>, row: Row): Record {
    map h | h in headers :: Trim(CellText(row, h))
  }

  function AllExpected(headers: seq<string>, rows: seq<Row>): (r: seq<Record>)
    ensures |r| == |rows|
    ensures forall i :: 0 <= i < |rows| ==> r[i] == Expected(headers, rows[i])
  {
    seq(|rows|, i requires 0 <= i < |rows| => Expected(headers, rows[i]))
  }

  lemma ExpectedReadsBack(headers: seq<string>, row: Row)
    ensures ReadsBack(headers, row, Expected(headers, row))
  {
    assert Trim("") == "";
    hide Trim;
  }

  lemma AllExpectedReadBack(headers: seq<string>, rows: seq<Row>)
    ensures AllReadBack(headers, rows, AllExpected(headers, rows))
  {
    hide ReadsBack, Expected;
    forall i | 0 <= i < |rows| ensures ReadsBack(headers, rows[i], AllExpected(headers, rows)[i]) {
      ExpectedReadsBack(headers, rows[i]);
    }
  }

  function Lines(headers: seq<string>, rows: seq<Row>): seq<string> {
    [Join(headers, ',')] + RowLines(headers, rows)
  }

  lemma HeaderLineReads(headers: seq<string>)
    requires PlainHeaders(headers)
    ensures Join(headers, ',') == PrintLine(headers)
    ensures ParseLine(Join(headers, ',')) == headers
  {
    assert Escaped(headers) == headers;
    LineRoundTrip(headers);
    assert headers[..|headers|] == headers;
  }

  lemma RowLineReads(headers: seq<string>, row: Row)
    requires PlainHeaders(headers)
    ensures ParseLine(PrintLine(CellsOf(headers, row))) == CellsOf(headers, row)
  {
    var cells := CellsOf(headers, row);
    LineRoundTrip(cells);
    assert cells[..|cells|] == cells;
  }

  lemma ExpectedMore(headers: seq<string>, h: string, row: Row)
    ensures Expected(headers + [h], row) == Expected(headers, row)[h := Trim(CellText(row, h))]
  {
  }

  lemma TakeOneMore(s: seq<string>, n: nat)
    requires 0 < n <= |s|
    ensures s[..n] == s[..n - 1] + [s[n - 1]]
  {
  }

  lemma RecordMore(headers: seq<string>, values: seq<string>, n: nat, before: Record, h: string, v: string)
    requires 0 < n <= |headers| && n <= |values|
    requires RecordOf(headers, values, n - 1) == before && Trim(headers[n - 1]) == h && values[n - 1] == v
    ensures RecordOf(headers, values, n) == before[h := Trim(v)]
  {
  }

  lemma NoRecord(headers: seq<string>, values: seq<string>, row: Row)
    ensures RecordOf(headers, values, 0) == map[] && Expected(headers[..0], row) == map[]
  {
  }

  lemma {:induction false} RecordMatches(headers: seq<string>, values: seq<string>, row: Row, n: nat)
    requires n <= |headers| && n <= |values|
    requires forall i :: 0 <= i < n ==> Trim(headers[i]) == headers[i]
    requires forall i :: 0 <= i < n ==> values[i] == CellText(row, headers[i])
    ensures RecordOf(headers, values, n) == Expected(headers[..n], row)
  {
    NoRecord(headers, values, row);
    hide Expected, Trim, CellText, RecordOf;
    if n > 0 {
      var h, v := headers[n - 1], values[n - 1];
      RecordMatches(headers, values, row, n - 1);
      RecordMore(headers, values, n, Expected(headers[..n - 1], row), h, v);
      ExpectedMore(headers[..n - 1], h, row);
      TakeOneMore(headers, n);
    }
  }

  lemma RecordExpected(headers: seq<string>, row: Row)
    requires PlainHeaders(headers)
    ensures RecordOf(headers, CellsOf(headers, row), |headers|) == Expected(headers, row)
  {
    forall i | 0 <= i < |headers| ensures Trim(headers[i]) == headers[i] {
      assert headers[i] in headers;
    }
    RecordMatches(headers, CellsOf(headers, row), row, |headers|);
    assert headers[..|headers|] == headers;
  }

  // --- Trimming the whole text only ever shortens the last line

  lemma {:induction false} TrimStartShortens(s: string)
    ensures |TrimStart(s)| <= |s|
  {
    if s != "" && IsSpace(s[0]) {
      TrimStartShortens(s[1..]);
    }
  }

  lemma TrimmedStart(h: string)
    requires Trim(h) == h && h != ""
    ensures !IsSpace(h[0])
  {
    TrimStartShortens(TrimEnd(h));
    if IsSpace(h[0]) {
      assert TrimEnd(h) == h;
      TrimStartShortens(h[1..]);
    }
  }

  lemma {:induction false} TrimEndKeeps(s: string, c: char)
    requires c in s && !IsSpace(c)
    ensures c in TrimEnd(s)
  {
    if IsSpace(s[|s| - 1]) {
      assert s == s[..|s| - 1] + [s[|s| - 1]];
      TrimEndKeeps(s[..|s| - 1], c);
    }
  }

  lemma {:induction false} TrimEndTail(prefix: string, last: string)
    requires TrimEnd(last) != ""
    ensures TrimEnd(prefix + last) == prefix + TrimEnd(last)
  {
    var s := prefix + last;
    assert s[|s| - 1] == last[|last| - 1];
    if IsSpace(last[|last| - 1]) {
      assert s[..|s| - 1] == prefix + last[..|last| - 1];
      TrimEndTail(prefix, last[..|last| - 1]);
    }
  }

  lemma PrintedHasComma(cells: seq<string>)
    requires |cells| >= 2
    ensures PrintLine(cells) == Join(Escaped(cells[..|cells| - 1]), ',') + "," + Escape(cells[|cells| - 1])
  {
    JoinLast(Escaped(cells), ',');
    assert Escaped(cells)[..|cells| - 1] == Escaped(cells[..|cells| - 1]);
  }

  /** The lines the importer sees: the printed ones, the last without trailing white space. */
  function SeenLines(lines: seq<string>): seq<string>
    requires lines != []
  {
    lines[..|lines| - 1] + [TrimEnd(lines[|lines| - 1])]
  }

  /** A text that ends in a line with a comma loses white space in that line only. */
  lemma TrimLastLine(lines: seq<string>)
    requires |lines| > 1 && ',' in lines[|lines| - 1]
    ensures TrimEnd(Join(lines, '\n')) == Join(SeenLines(lines), '\n')
    ensures TrimEnd(Join(lines, '\n')) == (Join(lines[..|lines| - 1], '\n') + "\n") + TrimEnd(lines[|lines| - 1])
  {
    var front, last := lines[..|lines| - 1], lines[|lines| - 1];
    JoinLast(lines, '\n');
    TrimEndKeeps(last, ',');
    JoinLast(SeenLines(lines), '\n');
    hide Join;
    TrimEndTail(Join(front, '\n') + "\n", last);
    hide TrimEnd;
    assert SeenLines(lines)[..|lines| - 1] == front;
  }

  lemma TrimText(headers: seq<string>, rows: seq<Row>)
    requires PlainHeaders(headers) && rows != []
    ensures Trim(CsvText(headers, rows)) == Join(SeenLines(Lines(headers, rows)), '\n')
  {
    hide Join, TrimEnd, PrintLine;
    var lines := Lines(headers, rows);
    var front := lines[..|lines| - 1];
    PrintedHasComma(CellsOf(headers, rows[|rows| - 1]));
    TrimLastLine(lines);
    FirstCharacter(headers, front);
    assert TrimEnd(Join(lines, '\n'))[0] == Join(front, '\n')[0];
  }

  /** The text begins with a comma or with the first character of a trimmed header. */
  lemma FirstCharacter(headers: seq<string>, front: seq<string>)
    requires PlainHeaders(headers) && front != [] && front[0] == Join(headers, ',')
    ensures Join(front, '\n') != "" && !IsSpace(Join(front, '\n')[0])
  {
    assert Join(front, '\n')[0] == Join(headers, ',')[0];
    if headers[0] == "" {
      assert Join(headers, ',')[0] == ',';
    } else {
      TrimmedStart(headers[0]);
      assert Join(headers, ',')[0] == headers[0][0];
    }
  }

  // --- Where LF occurs

  lemma {:induction false} QuotesKeepNewlines(s: string)
    ensures '\n' in DoubleQuotes(s) <==> '\n' in s
  {
    if s != "" {
      QuotesKeepNewlines(s[1..]);
    }
  }

  lemma PrintedNewlines(cells: seq<string>)
    ensures '\n' in PrintLine(cells) <==> exists c <- cells :: '\n' in c
  {
    InJoin(Escaped(cells), ',', '\n');
    forall i | 0 <= i < |cells| ensures '\n' in Escaped(cells)[i] <==> '\n' in cells[i] {
      QuotesKeepNewlines(cells[i]);
    }
    if p :| p in Escaped(cells) && '\n' in p {
      var i :| 0 <= i < |cells| && Escaped(cells)[i] == p;
      assert cells[i] in cells;
    }
    if c :| c in cells && '\n' in c {
      var i :| 0 <= i < |cells| && cells[i] == c;
      assert Escaped(cells)[i] in Escaped(cells);
    }
  }

  /** Trimming the end of a printed line with two or more cells removes no LF. */
  lemma TrimmedKeepsNewlines(cells: seq<string>)
    requires |cells| >= 2
    ensures '\n' in TrimEnd(PrintLine(cells)) <==> '\n' in PrintLine(cells)
  {
    PrintedHasComma(cells);
    var line, cell := PrintLine(cells), cells[|cells| - 1];
    if NeedsQuotes(cell) {
      assert line[|line| - 1] == '"';
    } else {
      var prefix, tail := Join(Escaped(cells[..|cells| - 1]), ','), "," + cell;
      assert line == prefix + tail;
      TrimEndKeeps(tail, ',');
      TrimEndTail(prefix, tail);
      assert TrimEnd(tail) <= tail;
    }
  }

  predicate HasNewline(s: string) {
    '\n' in s
  }

  /** Joining on LF adds exactly one line per piece, unless a piece has an LF of its own. */
  lemma {:induction false} LineCount(pieces: seq<string>)
    requires pieces != []
    ensures |Split(Join(pieces, '\n'), '\n')| >= |pieces|
    ensures |Split(Join(pieces, '\n'), '\n')| == |pieces| <==> forall p <- pieces :: !HasNewline(p)
  {
    if |pieces| == 1 {
      OneLine(pieces[0]);
    } else {
      LineCount(pieces[1..]);
      OneLine(pieces[0]);
      SplitConcat(pieces[0], Join(pieces[1..], '\n'));
      assert forall p <- pieces :: p == pieces[0] || p in pieces[1..];
    }
  }

  lemma OneLine(s: string)
    ensures |Split(s, '\n')| == 1 <==> !HasNewline(s)
  {
    var pieces := Split(s, '\n');
    JoinSplit(s, '\n');
    assert pieces[0] in pieces;
    assert |pieces| == 1 ==> Join(pieces, '\n') == pieces[0];
    if !HasNewline(s) {
      SplitNone(s, '\n');
    }
  }

  lemma {:induction false} SplitConcat(a: string, b: string)
    ensures |Split(a + "\n" + b, '\n')| == |Split(a, '\n')| + |Split(b, '\n')|
  {
    var s := a + "\n" + b;
    if a == "" {
      assert s[1..] == b;
    } else {
      SplitConcat(a[1..], b);
      assert s[1..] == a[1..] + "\n" + b;
    }
  }

  lemma RowLineNewline(headers: seq<string>, row: Row)
    requires PlainHeaders(headers)
    ensures var line := PrintLine(CellsOf(headers, row));
            && (HasNewline(line) <==> !RowNewlineFree(headers, row))
            && (HasNewline(TrimEnd(line)) <==> !RowNewlineFree(headers, row))
  {
    PrintedNewlines(CellsOf(headers, row));
    TrimmedKeepsNewlines(CellsOf(headers, row));
    CellNewlines(headers, row);
  }

  lemma SeenLineNewline(headers: seq<string>, rows: seq<Row>, i: nat)
    requires PlainHeaders(headers) && i < |rows|
    ensures HasNewline(SeenLines(Lines(headers, rows))[i + 1]) <==> !RowNewlineFree(headers, rows[i])
  {
    RowLineNewline(headers, rows[i]);
    var lines := Lines(headers, rows);
    assert lines[i + 1] == PrintLine(CellsOf(headers, rows[i]));
    assert SeenLines(lines)[i + 1] == if i + 1 < |lines| - 1 then lines[i + 1] else TrimEnd(lines[i + 1]);
  }

  lemma HeaderLineNewline(headers: seq<string>)
    requires PlainHeaders(headers)
    ensures !HasNewline(Join(headers, ','))
  {
    InJoin(headers, ',', '\n');
  }

  lemma SeenNewlines(headers: seq<string>, rows: seq<Row>)
    requires PlainHeaders(headers) && rows != []
    ensures (forall line <- SeenLines(Lines(headers, rows)) :: !HasNewline(line)) <==> NewlineFree(headers, rows)
  {
    var seen := SeenLines(Lines(headers, rows));
    HeaderLineNewline(headers);
    assert |seen| == |rows| + 1 && seen[0] == Join(headers, ',');
    forall i | 0 <= i < |rows| ensures HasNewline(seen[i + 1]) <==> !RowNewlineFree(headers, rows[i]) {
      SeenLineNewline(headers, rows, i);
    }
    if NewlineFree(headers, rows) {
      forall k | 0 <= k < |seen| ensures !HasNewline(seen[k]) {
        if k > 0 {
          assert rows[k - 1] in rows && !HasNewline(seen[k - 1 + 1]);
        }
      }
    } else {
      var row :| row in rows && !RowNewlineFree(headers, row);
      var i :| 0 <= i < |rows| && rows[i] == row;
      assert HasNewline(seen[i + 1]);
    }
  }

  lemma CellNewlines(headers: seq<string>, row: Row)
    ensures (exists c <- CellsOf(headers, row) :: '\n' in c) <==> !RowNewlineFree(headers, row)
  {
    var cells := CellsOf(headers, row);
    if c :| c in cells && '\n' in c {
      var i :| 0 <= i < |cells| && cells[i] == c;
      assert headers[i] in headers;
    }
    if h :| h in headers && h in row && row[h].Value? && '\n' in row[h].text {
      var i :| 0 <= i < |headers| && headers[i] == h;
      assert cells[i] in cells;
    }
  }

  // --- The theorem

  lemma PrintedRecord(headers: seq<string>, row: Row)
    requires PlainHeaders(headers)
    ensures RecordOf(headers, ParseLine(PrintLine(CellsOf(headers, row))), |headers|) == Expected(headers, row)
  {
    RowLineReads(headers, row);
    RecordExpected(headers, row);
    assert headers[..|headers|] == headers;
  }

  lemma PrintedRecords(headers: seq<string>, rows: seq<Row>)
    requires PlainHeaders(headers) && rows != []
    ensures FileRecords(Lines(headers, rows)) == AllExpected(headers, rows[..Min(|rows|, MAX_ROWS)])
  {
    var lines := Lines(headers, rows);
    HeaderLineReads(headers);
    var body := lines[1..Min(|lines|, MAX_ROWS + 1)];
    var kept := rows[..Min(|rows|, MAX_ROWS)];
    assert FileRecords(lines) == Records(headers, body);
    BodyLines(headers, rows, Min(|rows|, MAX_ROWS));
    forall i | 0 <= i < |kept| ensures Records(headers, RowLines(headers, kept))[i] == AllExpected(headers, kept)[i] {
      PrintedRecord(headers, kept[i]);
    }
  }

  lemma BodyLines(headers: seq<string>, rows: seq<Row>, n: nat)
    requires n <= |rows|
    ensures Lines(headers, rows)[1..n + 1] == RowLines(headers, rows[..n])
  {
  }

  /** Losing the white space at the very end of the file changes no record. */
  lemma SeenRecords(lines: seq<string>)
    requires lines != []
    ensures FileRecords(SeenLines(lines)) == FileRecords(lines)
  {
    var seen := SeenLines(lines);
    LineTrimEnd(lines[|lines| - 1]);
    forall i | 0 <= i < |lines| ensures SameTrimmed(ParseLine(seen[i]), ParseLine(lines[i])) {
      if i < |lines| - 1 {
        assert seen[i] == lines[i];
      }
    }
    FileSame(seen, lines);
  }

  lemma FileRecordsExpected(headers: seq<string>, rows: seq<Row>)
    requires PlainHeaders(headers) && NewlineFree(headers, rows)
    ensures FileRecords(Split(Trim(CsvText(headers, rows)), '\n'))
            == AllExpected(headers, rows[..Min(|rows|, MAX_ROWS)])
  {
    if rows != [] {
      var seen := SeenLines(Lines(headers, rows));
      TrimText(headers, rows);
      SeenNewlines(headers, rows);
      forall line | line in seen ensures '\n' !in line {
        assert !HasNewline(line);
      }
      SplitJoin(seen, '\n');
      SeenRecords(Lines(headers, rows));
      PrintedRecords(headers, rows);
    }
  }

  /** For two to 200 plain headers and newline-free cells, parsing what toCsv printed gives the same
      rows back, up to the row cap and up to white space around cells. */
  lemma FileRoundTrip(headers: seq<string>, rows: seq<Row>)
    requires PlainHeaders(headers) && NewlineFree(headers, rows)
    ensures AllReadBack(headers, rows[..Min(|rows|, MAX_ROWS)], FileRecords(Split(Trim(CsvText(headers, rows)), '\n')))
  {
    hide Trim, CsvText, FileRecords, Split, AllReadBack, AllExpected;
    FileRecordsExpected(headers, rows);
    AllExpectedReadBack(headers, rows[..Min(|rows|, MAX_ROWS)]);
  }

  /** Exactly when it works: below the row cap, the records come back if and only if no cell contains
      an LF.  The printer quotes such cells, but the importer splits lines before it reads quotes. */
  lemma FileRoundTripExact(headers: seq<string>, rows: seq<Row>)
    requires PlainHeaders(headers) && 1 <= |rows| < MAX_ROWS
    ensures AllReadBack(headers, rows, FileRecords(Split(Trim(CsvText(headers, rows)), '\n'))) <==> NewlineFree(headers, rows)
  {
    hide Trim, CsvText, FileRecords, ReadsBack;
    assert rows[..Min(|rows|, MAX_ROWS)] == rows;
    if NewlineFree(headers, rows) {
      FileRoundTrip(headers, rows);
    } else {
      var seen := SeenLines(Lines(headers, rows));
      hide Split, Join;
      TrimText(headers, rows);
      SeenNewlines(headers, rows);
      LineCount(seen);
      assert |seen| == |rows| + 1;
      RecordCount(Split(Join(seen, '\n'), '\n'));
    }
  }

  /** One record per line after the first, up to the cap. */
  lemma RecordCount(lines: seq<string>)
    requires lines != []
    ensures |FileRecords(lines)| == Min(|lines| - 1, MAX_ROWS)
  {
  }
}
