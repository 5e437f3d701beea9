/**
  The printer and the scanner each on its own: what a printed cell looks like, and how any line at all is cut into
  fields.
*/
module CsvFields {
  import opened Numbers
  import opened Text
  import opened CsvExport
  import opened CsvImport

  // ---------------------------------------------------------------------------
  // The printer
  // ---------------------------------------------------------------------------

  predicate Special(s: string) {
    exists c <- s :: c == ',' || c == '"' || c == '\n'
  }

  /** Every quote of s is two in d, and the rest is as it was: between the pieces that the quotes cut s into,
      d has an empty one more. */
  predicate QuotesDoubled(s: string, d: string) {
    Interleaved(Split(s, '"'), Split(d, '"'))
  }

  predicate Interleaved(pieces: seq<string>, doubled: seq<string>) {
    && |doubled| == 2 * |pieces| - 1
    && (forall k :: 0 <= k < |pieces| ==> doubled[2 * k] == pieces[k])
    && forall k :: 0 <= k < |pieces| - 1 ==> doubled[2 * k + 1] == ""
  }

  lemma InterleavedMore(pieces: seq<string>, doubled: seq<string>)
    requires pieces != [] && Interleaved(pieces, doubled)
    ensures Interleaved([""] + pieces, [""] + ([""] + doubled))
  {
    var pieces', doubled' := [""] + pieces, [""] + ([""] + doubled);
    forall k | 0 <= k < |pieces'| ensures doubled'[2 * k] == pieces'[k] {
      if k > 0 {
        assert doubled'[2 * k] == doubled[2 * (k - 1)];
      }
    }
    forall k | 0 <= k < |pieces'| - 1 ensures doubled'[2 * k + 1] == "" {
      if k > 0 {
        assert doubled'[2 * k + 1] == doubled[2 * (k - 1) + 1];
      }
    }
  }

  lemma InterleavedHead(c: char, pieces: seq<string>, doubled: seq<string>)
    requires pieces != [] && Interleaved(pieces, doubled)
    ensures Interleaved([[c] + pieces[0]] + pieces[1..], [[c] + doubled[0]] + doubled[1..])
  {
    assert doubled[2 * 0] == pieces[0];
    var pieces', doubled' := [[c] + pieces[0]] + pieces[1..], [[c] + doubled[0]] + doubled[1..];
    forall k | 0 <= k < |pieces'| ensures doubled'[2 * k] == pieces'[k] {
      assert doubled[2 * k] == pieces[k];
    }
    forall k | 0 <= k < |pieces'| - 1 ensures doubled'[2 * k + 1] == "" {
      assert doubled[2 * k + 1] == "";
    }
  }

  lemma {:induction false} DoubledPieces(s: string)
    ensures QuotesDoubled(s, DoubleQuotes(s))
  {
    if s != "" {
      DoubledPieces(s[1..]);
      if s[0] == '"' {
        QuoteDoubles(s[1..], DoubleQuotes(s[1..]));
        assert s == "\"" + s[1..];
      } else {
        OtherStays(s[0], s[1..], DoubleQuotes(s[1..]));
        assert s == [s[0]] + s[1..];
      }
    }
  }

  lemma SplitQuote(s: string)
    ensures Split("\"" + s, '"') == [""] + Split(s, '"')
  {
    assert ("\"" + s)[1..] == s;
  }

  lemma SplitOther(c: char, s: string)
    requires c != '"'
    ensures Split([c] + s, '"') == [[c] + Split(s, '"')[0]] + Split(s, '"')[1..]
  {
    assert ([c] + s)[1..] == s;
  }

  lemma QuoteDoubles(s: string, d: string)
    requires QuotesDoubled(s, d)
    ensures QuotesDoubled("\"" + s, "\"\"" + d)
  {
    SplitQuote(s);
    SplitQuote(d);
    SplitQuote("\"" + d);
    assert "\"\"" + d == "\"" + ("\"" + d);
    hide Split, Interleaved;
    InterleavedMore(Split(s, '"'), Split(d, '"'));
  }

  lemma OtherStays(c: char, s: string, d: string)
    requires c != '"' && QuotesDoubled(s, d)
    ensures QuotesDoubled([c] + s, [c] + d)
  {
    SplitOther(c, s);
    SplitOther(c, d);
    hide Split, Interleaved;
    InterleavedHead(c, Split(s, '"'), Split(d, '"'));
  }

  /** How one cell is printed: nothing for NULL or no value; a text as it is, unless it holds a comma, a quote
      or an LF, when it stands in quotes with its own quotes doubled. */
  predicate PrintedAs(row: Row, header: string, s: string) {
    if header !in row || row[header] == Null then s == ""
    else if !Special(row[header].text) then s == row[header].text
    else |s| >= 2 && s[0] == '"' && s[|s| - 1] == '"' && QuotesDoubled(row[header].text, s[1..|s| - 1])
  }

  lemma CellPrinted(row: Row, header: string)
    ensures PrintedAs(row, header, Escape(CellText(row, header)))
  {
    hide QuotesDoubled;
    if header in row && row[header].Value? {
      var text := row[header].text;
      assert NeedsQuotes(text) <==> Special(text);
      if Special(text) {
        var s := Escape(text);
        DoubledPieces(text);
        assert s[1..|s| - 1] == DoubleQuotes(text);
      }
    } else {
      assert !NeedsQuotes("");
    }
  }

  /** The line of a row. */
  ghost predicate LinePrinted(headers: seq<string>, row: Row, line: string) {
    exists cells: seq<string> :: CellsPrinted(headers, row, cells) && line == Join(cells, ',')
  }

  predicate CellsPrinted(headers: seq<string>, row: Row, cells: seq<string>) {
    |cells| == |headers| && forall j :: 0 <= j < |headers| ==> PrintedAs(row, headers[j], cells[j])
  }

  ghost predicate LinesPrinted(headers: seq<string>, rows: seq<Row>, lines: seq<string>) {
    && |lines| == |rows| + 1 && lines[0] == Join(headers, ',')
    && forall i :: 0 <= i < |rows| ==> LinePrinted(headers, rows[i], lines[i + 1])
  }

  /** The exported text is the header line and one line per row, in which each cell is printed by these rules. */
  lemma TextExact(headers: seq<string>, rows: seq<Row>)
    ensures rows == [] ==> CsvText(headers, rows) == ""
    ensures rows != [] ==> exists lines: seq<string> :: LinesPrinted(headers, rows, lines) && CsvText(headers, rows) == Join(lines, '\n')
  {
    hide PrintedAs, Join, Escape, LinePrinted;
    var lines := [Join(headers, ',')] + RowLines(headers, rows);
    forall i | 0 <= i < |rows| ensures LinePrinted(headers, rows[i], lines[i + 1]) {
      RowPrinted(headers, rows[i]);
    }
    assert LinesPrinted(headers, rows, lines);
  }

  lemma RowPrinted(headers: seq<string>, row: Row)
    ensures LinePrinted(headers, row, PrintLine(CellsOf(headers, row)))
  {
    hide PrintedAs, Join, Escape;
    var cells := Escaped(CellsOf(headers, row));
    forall j | 0 <= j < |headers| ensures PrintedAs(row, headers[j], cells[j]) {
      CellPrinted(row, headers[j]);
    }
    assert CellsPrinted(headers, row, cells);
  }

  // ---------------------------------------------------------------------------
  // The scanner
  // ---------------------------------------------------------------------------

  /** The number of quotes is odd. */
  predicate OddQuotes(s: string) {
    if s == "" then false else (s[|s| - 1] == '"') != OddQuotes(s[..|s| - 1])
  }

  /** Cut at the commas that an even number of quotes precedes; `inside` says whether a quote is open at the
      start. */
  function Segments(s: string, inside: bool): (r: seq<string>)
    ensures r != []
    decreases |s|
  {
    if s == "" then [""]
    else if s[0] == ',' && !inside then [""] + Segments(s[1..], false)
    else
      var rest := Segments(s[1..], if s[0] == '"' then !inside else inside);
      [[s[0]] + rest[0]] + rest[1..]
  }

  /** What a segment says: quotes open and close, but two in a row inside quotes say one. */
  function Unquoted(s: string, inside: bool): string
    decreases |s|
  {
    if s == "" then ""
    else if s[0] != '"' then [s[0]] + Unquoted(s[1..], inside)
    else if inside && |s| > 1 && s[1] == '"' then "\"" + Unquoted(s[2..], true)
    else Unquoted(s[1..], !inside)
  }

  function AllUnquoted(segments: seq<string>): (r: seq<string>)
    ensures |r| == |segments| && forall k :: 0 <= k < |segments| ==> r[k] == Unquoted(segments[k], false)
  {
    seq(|segments|, k requires 0 <= k < |segments| => Unquoted(segments[k], false))
  }

  function Fields(s: string, current: string, inside: bool): (r: seq<string>)
    ensures r != []
  {
    var segments := Segments(s, inside);
    [current + Unquoted(segments[0], inside)] + AllUnquoted(segments[1..])
  }

  function Capped(fields: seq<string>): seq<string> {
    fields[..Min(|fields|, MAX_COLS)]
  }

  lemma FieldsEnd(current: string, inside: bool)
    ensures Fields("", current, inside) == [current]
  {
    assert current + "" == current;
  }

  lemma FieldsChar(s: string, current: string, inside: bool)
    requires s != "" && s[0] != '"' && (s[0] == ',' ==> inside)
    ensures Fields(s, current, inside) == Fields(s[1..], current + [s[0]], inside)
  {
    var rest := Segments(s[1..], inside);
    var first := [s[0]] + rest[0];
    assert first[1..] == rest[0];
    assert current + ([s[0]] + Unquoted(rest[0], inside)) == current + [s[0]] + Unquoted(rest[0], inside);
  }

  lemma FieldsComma(s: string, current: string)
    requires s != "" && s[0] == ','
    ensures Fields(s, current, false) == [current] + Fields(s[1..], "", false)
  {
    var rest := Segments(s[1..], false);
    assert current + "" == current;
    assert AllUnquoted(rest) == [Unquoted(rest[0], false)] + AllUnquoted(rest[1..]);
    assert "" + Unquoted(rest[0], false) == Unquoted(rest[0], false);
  }

  lemma FieldsQuote(s: string, current: string, inside: bool)
    requires s != "" && s[0] == '"' && !(inside && |s| > 1 && s[1] == '"')
    ensures Fields(s, current, inside) == Fields(s[1..], current, !inside)
  {
    var rest := Segments(s[1..], !inside);
    var first := [s[0]] + rest[0];
    assert first[1..] == rest[0];
    SegmentsHead(s[1..], !inside);
    assert s[1..] != "" ==> s[1..][0] == s[1];
  }

  lemma SegmentsHead(s: string, inside: bool)
    ensures Segments(s, inside)[0] != "" ==> s != "" && Segments(s, inside)[0][0] == s[0]
  {
  }

  lemma FieldsTwoQuotes(s: string, current: string)
    requires |s| > 1 && s[0] == '"' && s[1] == '"'
    ensures Fields(s, current, true) == Fields(s[2..], current + "\"", true)
  {
    var rest := Segments(s[2..], true);
    assert s[1..][1..] == s[2..];
    assert Segments(s[1..], false) == [["\""[0]] + rest[0]] + rest[1..];
    var first := [s[0]] + (["\""[0]] + rest[0]);
    assert first[2..] == rest[0];
    assert current + ("\"" + Unquoted(rest[0], true)) == current + "\"" + Unquoted(rest[0], true);
  }

  lemma {:induction false} ScanExact(rest: string, current: string, inside: bool, result: seq<string>)
    requires |result| < MAX_COLS
    ensures Scan(rest, current, inside, result) == Capped(result + Fields(rest, current, inside))
    decreases |rest|
  {
    hide Fields;
    if rest == "" {
      FieldsEnd(current, inside);
    } else if inside && rest[0] == '"' && |rest| > 1 && rest[1] == '"' {
      FieldsTwoQuotes(rest, current);
      ScanExact(rest[2..], current + "\"", true, result);
    } else if rest[0] == '"' {
      FieldsQuote(rest, current, inside);
      ScanExact(rest[1..], current, !inside, result);
    } else if !inside && rest[0] == ',' {
      FieldsComma(rest, current);
      if |result| + 1 < MAX_COLS {
        ScanExact(rest[1..], "", false, result + [current]);
        assert result + [current] + Fields(rest[1..], "", false) == result + ([current] + Fields(rest[1..], "", false));
      } else {
        CapReached(result + [current], Fields(rest[1..], "", false));
        assert result + [current] + Fields(rest[1..], "", false) == result + ([current] + Fields(rest[1..], "", false));
      }
    } else {
      FieldsChar(rest, current, inside);
      ScanExact(rest[1..], current + [rest[0]], inside, result);
    }
  }

  lemma CapReached(full: seq<string>, more: seq<string>)
    requires |full| == MAX_COLS
    ensures Capped(full + more) == full
  {
  }

  // --- The cut is the only one at those commas

  /** A quote is open just before position k of the segment. */
  predicate OpenAt(s: string, inside: bool, k: nat)
    requires k <= |s|
  {
    OddQuotes(s[..k]) != inside
  }

  /** No comma of the segment is outside quotes. */
  predicate NoCommaOutside(s: string, inside: bool) {
    forall k :: 0 <= k < |s| && s[k] == ',' ==> OpenAt(s, inside, k)
  }

  lemma {:induction false} OddQuotesFirst(c: char, s: string)
    ensures OddQuotes([c] + s) == ((c == '"') != OddQuotes(s))
  {
    if s == "" {
      assert ([c] + s)[..0] == "";
    } else {
      OddQuotesFirst(c, s[..|s| - 1]);
      assert ([c] + s)[..|s|] == [c] + s[..|s| - 1];
    }
  }

  lemma PrependKeeps(c: char, s: string, inside: bool)
    requires NoCommaOutside(s, if c == '"' then !inside else inside) && (c == ',' ==> inside)
    ensures NoCommaOutside([c] + s, inside)
  {
    var t := [c] + s;
    forall k | 0 <= k < |t| && t[k] == ',' ensures OpenAt(t, inside, k) {
      if k == 0 {
        assert t[..0] == "";
      } else {
        assert t[..k] == [c] + s[..k - 1];
        OddQuotesFirst(c, s[..k - 1]);
        assert s[k - 1] == ',' && OpenAt(s, if c == '"' then !inside else inside, k - 1);
      }
    }
  }

  /** Joined on commas the segments are the line; none has a comma outside its quotes; all but the last close
      theirs. */
  lemma {:induction false} SegmentsExact(s: string, inside: bool)
    ensures Join(Segments(s, inside), ',') == s
    ensures forall k :: 0 <= k < |Segments(s, inside)| ==> NoCommaOutside(Segments(s, inside)[k], inside && k == 0)
    ensures forall k :: 0 <= k < |Segments(s, inside)| - 1 ==> OddQuotes(Segments(s, inside)[k]) == (inside && k == 0)
    decreases |s|
  {
    var segments := Segments(s, inside);
    if s == "" {
    } else if s[0] == ',' && !inside {
      SegmentsExact(s[1..], false);
      assert segments[1..] == Segments(s[1..], false);
      assert "" + "," + s[1..] == s;
    } else {
      var within := if s[0] == '"' then !inside else inside;
      SegmentsExact(s[1..], within);
      var rest := Segments(s[1..], within);
      PrependKeeps(s[0], rest[0], inside);
      OddQuotesFirst(s[0], rest[0]);
      JoinHead(s[0], rest);
      assert s == [s[0]] + s[1..];
      assert segments[0] == [s[0]] + rest[0] && segments[1..] == rest[1..];
    }
  }

  lemma JoinHead(c: char, pieces: seq<string>)
    requires pieces != []
    ensures Join([[c] + pieces[0]] + pieces[1..], ',') == [c] + Join(pieces, ',')
  {
    var more := [[c] + pieces[0]] + pieces[1..];
    assert more[1..] == pieces[1..];
  }

  /** How any line at all is read: there is a cut of it at commas, at exactly those that are outside quotes,
      and the fields are what its segments say, up to the cap of 200. */
  lemma LineExact(line: string)
    ensures exists segments: seq<string> ::
              && segments != [] && Join(segments, ',') == line
              && (forall k :: 0 <= k < |segments| ==> NoCommaOutside(segments[k], false))
              && (forall k :: 0 <= k < |segments| - 1 ==> !OddQuotes(segments[k]))
              && ParseLine(line) == AllUnquoted(segments)[..if |segments| > 200 then 200 else |segments|]
  {
    hide Scan, Unquoted, Segments;
    var segments := Segments(line, false);
    SegmentsExact(line, false);
    ScanExact(line, "", false, []);
    assert "" + Unquoted(segments[0], false) == Unquoted(segments[0], false);
    assert [Unquoted(segments[0], false)] + AllUnquoted(segments[1..]) == AllUnquoted(segments);
    assert [] + Fields(line, "", false) == Fields(line, "", false);
  }

  /** Without a quote in it a segment says itself. */
  lemma {:induction false} UnquotedPlain(s: string)
    requires '"' !in s
    ensures Unquoted(s, false) == s
  {
    if s != "" {
      UnquotedPlain(s[1..]);
    }
  }

  /** In quotes, with quotes doubled, it says what is between them. */
  lemma {:induction false} UnquotedDoubled(text: string)
    ensures Unquoted(DoubleQuotes(text) + "\"", true) == text
  {
    var s := DoubleQuotes(text) + "\"";
    if text != "" {
      UnquotedDoubled(text[1..]);
      var rest := DoubleQuotes(text[1..]) + "\"";
      if text[0] == '"' {
        assert s == "\"\"" + rest && s[2..] == rest;
      } else {
        assert s == [text[0]] + rest && s[1..] == rest;
      }
    }
  }

  // ---------------------------------------------------------------------------
  // Records
  // ---------------------------------------------------------------------------

  function Trimmed(values: seq<string>): (r: seq<string>)
    ensures |r| == |values| && forall j :: 0 <= j < |values| ==> r[j] == Trim(values[j])
  {
    seq(|values|, j requires 0 <= j < |values| => Trim(values[j]))
  }

  /** Of the first n columns, j is the last one of its name. */
  predicate LastOfName(names: seq<string>, n: nat, j: nat)
    requires n <= |names|
  {
    j < n && names[j] !in names[j + 1..n]
  }

  /** The record has an entry for each of the first n names and no other; it is the field of the last column
      of that name, and nothing where the line is too short. */
  ghost predicate Says(names: seq<string>, fields: seq<string>, n: nat, record: Record)
    requires n <= |names|
  {
    && (forall h :: h in record <==> h in names[..n])
    && forall j: nat :: LastOfName(names, n, j) ==> names[j] in record && record[names[j]] == if j < |fields| then fields[j] else ""
  }

  lemma LastBefore(names: seq<string>, n: nat, j: nat)
    requires n < |names| && LastOfName(names, n + 1, j) && j < n
    ensures LastOfName(names, n, j) && names[j] != names[n]
  {
    assert names[j + 1..n + 1] == names[j + 1..n] + [names[n]];
  }

  lemma SaysMore(names: seq<string>, fields: seq<string>, n: nat, before: Record, v: string)
    requires n < |names| && Says(names, fields, n, before) && v == if n < |fields| then fields[n] else ""
    ensures Says(names, fields, n + 1, before[names[n] := v])
  {
    hide LastOfName;
    var m, record := n + 1, before[names[n] := v];
    assert names[..m] == names[..n] + [names[n]];
    forall j: nat | j < m && LastOfName(names, m, j)
      ensures names[j] in record && record[names[j]] == if j < |fields| then fields[j] else "" {
      if j < n {
        LastBefore(names, n, j);
      }
    }
    forall j: nat | LastOfName(names, m, j) ensures j < m {
      LastIsBelow(names, m, j);
    }
  }

  lemma LastIsBelow(names: seq<string>, n: nat, j: nat)
    requires n <= |names| && LastOfName(names, n, j)
    ensures j < n
  {
  }

  /** Headers and fields are trimmed; of columns with one name the last one counts. */
  lemma {:induction false} RecordExact(headers: seq<string>, values: seq<string>, n: nat)
    requires n <= |headers|
    ensures Says(Trimmed(headers), Trimmed(values), n, RecordOf(headers, values, n))
  {
    if n == 0 {
      NothingSaid(Trimmed(headers), Trimmed(values));
    } else {
      hide Says, RecordOf, Trimmed, Trim;
      RecordExact(headers, values, n - 1);
      var v := RecordStep(headers, values, n);
      SaysMore(Trimmed(headers), Trimmed(values), n - 1, RecordOf(headers, values, n - 1), v);
    }
  }

  lemma RecordStep(headers: seq<string>, values: seq<string>, n: nat) returns (v: string)
    requires 0 < n <= |headers|
    ensures v == if n - 1 < |values| then Trimmed(values)[n - 1] else ""
    ensures RecordOf(headers, values, n) == RecordOf(headers, values, n - 1)[Trimmed(headers)[n - 1] := v]
  {
    TrimNothing();
    hide Trim;
    v := Trim(FieldAt(values, n - 1));
  }

  lemma NothingSaid(names: seq<string>, fields: seq<string>)
    ensures Says(names, fields, 0, map[])
  {
  }

  lemma TrimNothing()
    ensures Trim("") == ""
  {
  }

  /** A file gives one record for each line after the first, up to 10,000, from that line and the first one
      alone. */
  lemma FileExact(lines: seq<string>)
    ensures |lines| < 2 ==> FileRecords(lines) == []
    ensures |lines| >= 2 ==>
              && |FileRecords(lines)| == (if |lines| - 1 > 10000 then 10000 else |lines| - 1)
              && forall i :: 0 <= i < |FileRecords(lines)| ==>
                   Says(Trimmed(ParseLine(lines[0])), Trimmed(ParseLine(lines[i + 1])), |ParseLine(lines[0])|, FileRecords(lines)[i])
  {
    hide ParseLine, Says, Trimmed, RecordOf;
    forall i | 0 <= i < |FileRecords(lines)|
      ensures Says(Trimmed(ParseLine(lines[0])), Trimmed(ParseLine(lines[i + 1])), |ParseLine(lines[0])|, FileRecords(lines)[i]) {
      RecordExact(ParseLine(lines[0]), ParseLine(lines[i + 1]), |ParseLine(lines[0])|);
    }
  }
}
