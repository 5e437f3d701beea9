/** Quote-aware CSV scanner of src/controllers/importController.js. */
module CsvImport {
  import opened Numbers
  import opened Text

  const MAX_ROWS := 10000
  const MAX_COLS := 200

  // ---------------------------------------------------------------------------
  // One line
  // ---------------------------------------------------------------------------

  /** The last field is pushed unless the cap has been reached. */
  function Flush(result: seq<string>, current: string): seq<string> {
    if |result| < MAX_COLS then result + [current] else result
  }

  /** What the scanner returns when it still has `rest` to read. */
  function Scan(rest: string, current: string, inQuotes: bool, result: seq<string>): seq<string>
    decreases |rest|
  {
    if rest == "" then Flush(result, current)
    else if inQuotes then
      if rest[0] == '"' && |rest| > 1 && rest[1] == '"' then Scan(rest[2..], current + "\"", true, result)
      else if rest[0] == '"' then Scan(rest[1..], current, false, result)
      else Scan(rest[1..], current + [rest[0]], true, result)
    else if rest[0] == '"' then Scan(rest[1..], current, true, result)
    else if rest[0] == ',' then
      if |result| + 1 >= MAX_COLS then Flush(result + [current], "")
      else Scan(rest[1..], "", false, result + [current])
    else Scan(rest[1..], current + [rest[0]], false, result)
  }

  function ParseLine(line: string): seq<string> {
    Scan(line, "", false, [])
  }

  method ParseCsvLine(line: string) returns (result: seq<string>)
    ensures result == ParseLine(line)
  {
    result := [];
    var current := "";
    var inQuotes := false;
    var i := 0;
    while i < |line|
      invariant 0 <= i <= |line|
      invariant Scan(line[i..], current, inQuotes, result) == ParseLine(line)
      invariant |result| < MAX_COLS
    {
      var ch := line[i];
      if inQuotes {
        if ch == '"' && i + 1 < |line| && line[i + 1] == '"' {
          assert line[i..][2..] == line[i + 2..];
          current := current + "\"";
          i := i + 1;
        } else if ch == '"' {
          inQuotes := false;
        } else {
          current := current + [ch];
        }
      } else {
        if ch == '"' {
          inQuotes := true;
        } else if ch == ',' {
          result := result + [current];
          current := "";
          if |result| >= MAX_COLS {
            break;
          }
        } else {
          current := current + [ch];
        }
      }
      i := i + 1;
    }
    if |result| < MAX_COLS {
      result := result + [current];
    }
  }

  /** Any line at all gives between 1 and 200 fields. */
  lemma {:induction false} ScanCount(rest: string, current: string, inQuotes: bool, result: seq<string>)
    requires |result| < MAX_COLS
    ensures |result| + 1 <= |Scan(rest, current, inQuotes, result)| <= MAX_COLS
    ensures result <= Scan(rest, current, inQuotes, result)
    decreases |rest|
  {
    if rest != "" {
      if inQuotes {
        if rest[0] == '"' && |rest| > 1 && rest[1] == '"' { ScanCount(rest[2..], current + "\"", true, result); }
        else if rest[0] == '"' { ScanCount(rest[1..], current, false, result); }
        else { ScanCount(rest[1..], current + [rest[0]], true, result); }
      }
      else if rest[0] == '"' { ScanCount(rest[1..], current, true, result); }
      else if rest[0] == ',' {
        if |result| + 1 < MAX_COLS { ScanCount(rest[1..], "", false, result + [current]); }
      }
      else { ScanCount(rest[1..], current + [rest[0]], false, result); }
    }
  }

  lemma FieldCount(line: string)
    ensures 1 <= |ParseLine(line)| <= 200
  {
    ScanCount(line, "", false, []);
  }

  // ---------------------------------------------------------------------------
  // A whole file
  // ---------------------------------------------------------------------------

  type Record = map<string, string>

  /** values[j] || '' */
  function FieldAt(values: seq<string>, j: nat): string {
    if j < |values| then values[j] else ""
  }

  /** The first n headers of a record; a later header of the same name wins. */
  function RecordOf(headers: seq<string>, values: seq<string>, n: nat): Record
    requires n <= |headers|
  {
    if n == 0 then map[]
    else RecordOf(headers, values, n - 1)[Trim(headers[n - 1]) := Trim(FieldAt(values, n - 1))]
  }

  function Records(headers: seq<string>, lines: seq<string>): (r: seq<Record>)
    ensures |r| == |lines|
    ensures forall i :: 0 <= i < |lines| ==> r[i] == RecordOf(headers, ParseLine(lines[i]), |headers|)
  {
    seq(|lines|, i requires 0 <= i < |lines| => RecordOf(headers, ParseLine(lines[i]), |headers|))
  }

  /** All records of a file, given its lines. */
  function FileRecords(lines: seq<string>): seq<Record> {
    if |lines| < 2 then [] else Records(ParseLine(lines[0]), lines[1..Min(|lines|, MAX_ROWS + 1)])
  }

  lemma RecordsAppend(headers: seq<string>, lines: seq<string>, line: string)
    ensures Records(headers, lines + [line]) == Records(headers, lines) + [RecordOf(headers, ParseLine(line), |headers|)]
  {
    hide RecordOf, ParseLine;
  }

  method FillRecord(headers: seq<string>, values: seq<string>) returns (row: Record)
    ensures row == RecordOf(headers, values, |headers|)
  {
    row := map[];
    for j := 0 to |headers|
      invariant row == RecordOf(headers, values, j)
    {
      row := row[Trim(headers[j]) := Trim(FieldAt(values, j))];
    }
  }

  method ParseCsv(csv: string) returns (rows: seq<Record>)
    ensures rows == FileRecords(Split(Trim(csv), '\n'))
  {
    var lines := Split(Trim(csv), '\n');
    rows := [];
    if |lines| < 2 {
      return;
    }
    var headers := ParseCsvLine(lines[0]);
    var limit := Min(|lines|, MAX_ROWS + 1);
    for i := 1 to limit
      invariant rows == Records(headers, lines[1..i])
    {
      var values := ParseCsvLine(lines[i]);
      FieldCount(lines[i]);
      if |values| != 0 {
        var row := FillRecord(headers, values);
        rows := rows + [row];
        RecordsAppend(headers, lines[1..i], lines[i]);
        assert lines[1..i + 1] == lines[1..i] + [lines[i]];
      }
    }
  }
}
