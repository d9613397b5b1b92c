/**
 * `parseCSV`: the sheet text is trimmed and cut into lines, the first line is
 * the header row and chooses the delimiter, and every further line becomes a
 * record mapping each header name to the cleaned cell under it. There is no
 * quoted-delimiter or escaped-quote handling.
 */
module Csv {
  import opened Text

  /** One data row: header name to cell text. */
  type Record = map<string, string>

  /** The lines of the input: the trimmed text cut at every `'\n'`. */
  function Lines(data: string): seq<string> {
    Split(Trim(data), '\n')
  }

  /**
   * The delimiter, chosen once from the header line: tab exactly when the
   * header line holds a tab, and comma otherwise.
   */
  function Delimiter(header: string): (d: char)
    ensures d == '\t' <==> '\t' in header
    ensures d == ',' <==> '\t' !in header
  {
    if '\t' in header then '\t' else ','
  }

  /**
   * A header or cell as stored: trimmed, then one leading and one trailing `"`
   * removed. White space can only begin or end the result when a quote was
   * removed on that side.
   */
  function Clean(field: string): (r: string)
    ensures |r| <= |Trim(field)|
    ensures r != [] && IsSpace(r[0]) ==> Trim(field)[0] == '"'
    ensures r != [] && IsSpace(r[|r| - 1]) ==> Trim(field)[|Trim(field)| - 1] == '"'
  {
    var t := Trim(field);
    var r := StripQuotes(t);
    assert r != [] && t[0] != '"' ==> r[0] == t[0];
    assert r != [] && t[|t| - 1] != '"' ==> r[|r| - 1] == t[|t| - 1];
    r
  }

  /**
   * The cleaned fields of one line, split on the delimiter `d`: one field more
   * than the line has delimiters, each no longer than its piece of the line.
   */
  function Cells(line: string, d: char): (cells: seq<string>)
    ensures |cells| == |Split(line, d)| == Count(line, d) + 1
    ensures forall i :: 0 <= i < |cells| ==> |cells[i]| <= |Split(line, d)[i]|
  {
    var parts := Split(line, d);
    SplitCount(line, d);
    seq(|parts|, i requires 0 <= i < |parts| => Clean(parts[i]))
  }

  /** `values[index] || ''`: the cell at a position, or the empty string past the end. */
  function Cell(values: seq<string>, index: nat): string {
    if index < |values| then values[index] else ""
  }

  /**
   * `headers.forEach`: the record after the first `n` headers have been
   * assigned, in order; the header assigned last holds its own cell.
   */
  function Fill(headers: seq<string>, values: seq<string>, n: nat): (r: Record)
    requires n <= |headers|
    ensures n > 0 ==> headers[n - 1] in r && r[headers[n - 1]] == Cell(values, n - 1)
  {
    if n == 0 then map[] else Fill(headers, values, n - 1)[headers[n - 1] := Cell(values, n - 1)]
  }

  /** The keys after `n` assignments are exactly the first `n` header names. */
  lemma {:induction false} FillKeys(headers: seq<string>, values: seq<string>, n: nat)
    requires n <= |headers|
    ensures forall k :: k in Fill(headers, values, n) <==> k in headers[..n]
  {
    if n > 0 {
      FillKeys(headers, values, n - 1);
      assert headers[..n] == headers[..n - 1] + [headers[n - 1]];
    }
  }

  /** Every value is the cell under some header of that name among the first `n`. */
  lemma {:induction false} FillValueSource(headers: seq<string>, values: seq<string>, n: nat, k: string)
    returns (i: nat)
    requires n <= |headers| && k in Fill(headers, values, n)
    ensures i < n && headers[i] == k && Fill(headers, values, n)[k] == Cell(values, i)
  {
    if headers[n - 1] == k {
      i := n - 1;
    } else {
      i := FillValueSource(headers, values, n - 1, k);
    }
  }

  /** The last header of a name wins: its key holds the cell at its position. */
  lemma {:induction false} FillLastWins(headers: seq<string>, values: seq<string>, n: nat, i: nat)
    requires i < n <= |headers|
    requires forall j :: i < j < n ==> headers[j] != headers[i]
    ensures headers[i] in Fill(headers, values, n)
    ensures Fill(headers, values, n)[headers[i]] == Cell(values, i)
  {
    if i < n - 1 {
      FillLastWins(headers, values, n - 1, i);
    }
  }

  /** The record built for one data line. */
  function BuildRecord(headers: seq<string>, values: seq<string>): Record {
    Fill(headers, values, |headers|)
  }

  /** The cleaned header names. */
  function Headers(data: string): seq<string> {
    var lines := Lines(data);
    Cells(lines[0], Delimiter(lines[0]))
  }

  /** The cleaned cells of data line `i` (line `i + 1` of the input). */
  function Row(data: string, i: nat): seq<string>
    requires i + 1 < |Lines(data)|
  {
    var lines := Lines(data);
    Cells(lines[i + 1], Delimiter(lines[0]))
  }

  /** `parseCSV(data)`: one record per line after the header line, in order. */
  function ParseCsv(data: string): (records: seq<Record>)
    ensures |records| + 1 == |Lines(data)|
  {
    ParseLines(Lines(data))
  }

  /** The records of a sheet already cut into lines. */
  function ParseLines(lines: seq<string>): seq<Record> {
    if |lines| < 2 then []
    else
      var d := Delimiter(lines[0]);
      Records(Cells(lines[0], d), lines[1..], d)
  }

  /** `rows.map(...)`: one record per data line, in order. */
  function Records(headers: seq<string>, rows: seq<string>, d: char): seq<Record> {
    seq(|rows|, i requires 0 <= i < |rows| => RecordOf(headers, rows[i], d))
  }

  /** The record of one data line. */
  function RecordOf(headers: seq<string>, line: string, d: char): Record {
    BuildRecord(headers, Cells(line, d))
  }

  /** There is one record per line after the first, which is one per newline of the trimmed input. */
  lemma ParseRecordCount(data: string)
    ensures |ParseCsv(data)| == Count(Trim(data), '\n')
  {
    SplitCount(Trim(data), '\n');
  }

  /**
   * No records exactly when the trimmed input is a single line: the empty
   * input and a header row alone both give nothing.
   */
  lemma ParseEmptyIffSingleLine(data: string)
    ensures ParseCsv(data) == [] <==> '\n' !in Trim(data)
  {
    ParseRecordCount(data);
    CountPositive(Trim(data), '\n');
  }

  /** The lines the records come from are exactly the pieces of the trimmed input. */
  lemma LinesRebuildInput(data: string)
    ensures Join(Lines(data), '\n') == Trim(data)
    ensures forall i :: 0 <= i < |Lines(data)| ==> '\n' !in Lines(data)[i]
  {
    JoinSplit(Trim(data), '\n');
  }

  /** Record `i` comes from line `i + 1`, split on the delimiter chosen by the header line. */
  lemma RecordSource(data: string, i: nat)
    requires i < |ParseCsv(data)|
    ensures ParseCsv(data)[i] == BuildRecord(Headers(data), Row(data, i))
  {
    ParsedLine(Lines(data), i);
  }

  /** Record `i` of a sheet cut into lines is built from line `i + 1`. */
  lemma ParsedLine(lines: seq<string>, i: nat)
    requires i < |ParseLines(lines)|
    ensures |lines| >= 2 && i + 1 < |lines|
    ensures var d := Delimiter(lines[0]);
      ParseLines(lines)[i] == RecordOf(Cells(lines[0], d), lines[i + 1], d)
  {
    assert lines[1..][i] == lines[i + 1];
  }

  /**
   * A record's keys are exactly the header names; the key of header position
   * `j` (its last occurrence) holds cell `j` or `''`, and no value comes from
   * a cell past the last header.
   */
  lemma RecordFields(headers: seq<string>, values: seq<string>)
    ensures forall k :: k in BuildRecord(headers, values) <==> k in headers
    ensures forall j :: 0 <= j < |headers| && (forall j' :: j < j' < |headers| ==> headers[j'] != headers[j]) ==>
              BuildRecord(headers, values)[headers[j]] == Cell(values, j)
    ensures forall k :: k in BuildRecord(headers, values) ==>
              exists j :: 0 <= j < |headers| && headers[j] == k && BuildRecord(headers, values)[k] == Cell(values, j)
  {
    var r := BuildRecord(headers, values);
    FillKeys(headers, values, |headers|);
    assert headers[..|headers|] == headers;
    forall j | 0 <= j < |headers| && (forall j' :: j < j' < |headers| ==> headers[j'] != headers[j])
      ensures r[headers[j]] == Cell(values, j)
    {
      FillLastWins(headers, values, |headers|, j);
    }
    forall k | k in r ensures exists j :: 0 <= j < |headers| && headers[j] == k && r[k] == Cell(values, j) {
      var j := FillValueSource(headers, values, |headers|, k);
    }
  }

  /** A blank (white-space-only) interior line still gives a record, all of whose values are `''`. */
  lemma BlankLineRecord(data: string, i: nat)
    requires i < |ParseCsv(data)|
    requires AllSpace(Lines(data)[i + 1])
    ensures forall k :: k in ParseCsv(data)[i] ==> ParseCsv(data)[i][k] == ""
  {
    var line := Lines(data)[i + 1];
    var d := Delimiter(Lines(data)[0]);
    SplitAllSpace(line, d);
    var values := Row(data, i);
    forall j | 0 <= j < |values| ensures values[j] == "" {
      TrimEmptyIffAllSpace(Split(line, d)[j]);
    }
    RecordSource(data, i);
    RecordFields(Headers(data), values);
  }

  /** A field wrapped in one pair of quotes, with white space around, keeps exactly its content. */
  lemma CleanQuoted(w1: string, m: string, w2: string)
    requires AllSpace(w1) && AllSpace(w2)
    ensures Clean(w1 + "\"" + m + "\"" + w2) == m
  {
    var q := "\"" + m + "\"";
    assert w1 + "\"" + m + "\"" + w2 == w1 + q + w2;
    assert q[0] == '"' && q[|q| - 1] == '"';
    TrimPadded(w1, q, w2);
    StripQuotesUnwraps(m);
  }

  /** A field that is exactly a quoted text cleans to that text. */
  lemma CleanWrapped(m: string)
    ensures Clean("\"" + m + "\"") == m
  {
    var q := "\"" + m + "\"";
    assert q[0] == '"' && q[|q| - 1] == '"';
    TrimOfUnpadded(q);
    StripQuotesUnwraps(m);
  }

  /** A field with no quote at either end after trimming is just trimmed. */
  lemma CleanUnquoted(field: string)
    requires Trim(field) == [] || (Trim(field)[0] != '"' && Trim(field)[|Trim(field)| - 1] != '"')
    ensures Clean(field) == Trim(field)
  {
    StripQuotesUnquoted(Trim(field));
  }

  // ---------------------------------------------------------------------------
  // Writing a sheet and reading it back.

  /** A field that survives cleaning unchanged and cannot break a line or a cell. */
  predicate PlainField(f: string, d: char) {
    && d !in f && '\t' !in f && '\n' !in f
    && (f == [] || (!IsSpace(f[0]) && !IsSpace(f[|f| - 1]) && f[0] != '"' && f[|f| - 1] != '"'))
  }

  /** The text of a sheet: the header line, then one line per row, fields joined by `d`. */
  function Sheet(headers: seq<string>, rows: seq<seq<string>>, d: char): string
    requires |headers| >= 1 && forall i :: 0 <= i < |rows| ==> |rows[i]| >= 1
  {
    Join([Join(headers, d)] + seq(|rows|, i requires 0 <= i < |rows| => Join(rows[i], d)), '\n')
  }

  /** A joined text starts with the first part's first character. */
  lemma JoinFirst(parts: seq<string>, d: char)
    requires |parts| >= 1 && parts[0] != []
    ensures Join(parts, d) != [] && Join(parts, d)[0] == parts[0][0]
  {
  }

  /** A joined text ends with the last part's last character. */
  lemma {:induction false} JoinLast(parts: seq<string>, d: char)
    requires |parts| >= 1 && parts[|parts| - 1] != []
    ensures var j, p := Join(parts, d), parts[|parts| - 1]; j != [] && j[|j| - 1] == p[|p| - 1]
  {
    if |parts| > 1 {
      assert parts[1..][|parts| - 2] == parts[|parts| - 1];
      JoinLast(parts[1..], d);
    }
  }

  /**
   * A written sheet of plain fields whose first and last fields are not empty
   * has no white space at either end.
   */
  lemma SheetUnpadded(headers: seq<string>, rows: seq<seq<string>>, d: char)
    requires |headers| >= 1 && forall i :: 0 <= i < |headers| ==> PlainField(headers[i], d)
    requires forall i :: 0 <= i < |rows| ==> |rows[i]| >= 1
    requires forall i, j :: 0 <= i < |rows| && 0 <= j < |rows[i]| ==> PlainField(rows[i][j], d)
    requires headers[0] != []
    requires rows == [] ==> headers[|headers| - 1] != []
    requires rows != [] ==> rows[|rows| - 1][|rows[|rows| - 1]| - 1] != []
    ensures var text := Sheet(headers, rows, d); text != [] && !IsSpace(text[0]) && !IsSpace(text[|text| - 1])
  {
    var lines := SheetLines(headers, rows, d);
    var text := Sheet(headers, rows, d);
    assert text == Join(lines, '\n');
    JoinFirst(headers, d);
    JoinFirst(lines, '\n');
    var n := |lines| - 1;
    if rows == [] {
      JoinLast(headers, d);
      assert PlainField(headers[|headers| - 1], d);
    } else {
      var last := rows[|rows| - 1];
      assert lines[n] == Join(last, d);
      JoinLast(last, d);
      assert PlainField(last[|last| - 1], d);
    }
    JoinLast(lines, '\n');
  }

  /** A character in no part and different from the separator is not in the joined text. */
  lemma {:induction false} JoinAvoids(parts: seq<string>, d: char, c: char)
    requires |parts| >= 1 && c != d
    requires forall i :: 0 <= i < |parts| ==> c !in parts[i]
    ensures c !in Join(parts, d)
  {
    if |parts| > 1 {
      JoinAvoids(parts[1..], d, c);
    }
  }

  /** A line of plain fields splits and cleans back into those fields. */
  lemma CellsOfJoin(fields: seq<string>, d: char)
    requires |fields| >= 1
    requires forall i :: 0 <= i < |fields| ==> PlainField(fields[i], d)
    ensures Cells(Join(fields, d), d) == fields
  {
    SplitJoin(fields, d);
    var cells := Cells(Join(fields, d), d);
    forall i | 0 <= i < |fields| ensures cells[i] == fields[i] {
      CleanPlain(fields[i], d);
    }
  }

  lemma CleanPlain(f: string, d: char)
    requires PlainField(f, d)
    ensures Clean(f) == f
  {
    TrimOfUnpadded(f);
    StripQuotesUnquoted(f);
  }

  /** Only the trimmed text matters to the parser. */
  lemma ParseIgnoresPadding(data: string)
    ensures ParseCsv(data) == ParseCsv(Trim(data))
  {
    TrimIdempotent(data);
    assert Lines(Trim(data)) == Lines(data);
  }

  /** The lines of a written sheet. */
  function SheetLines(headers: seq<string>, rows: seq<seq<string>>, d: char): seq<string>
    requires |headers| >= 1 && forall i :: 0 <= i < |rows| ==> |rows[i]| >= 1
  {
    [Join(headers, d)] + seq(|rows|, i requires 0 <= i < |rows| => Join(rows[i], d))
  }

  lemma LinesOfSheet(headers: seq<string>, rows: seq<seq<string>>, d: char)
    requires d != '\n'
    requires |headers| >= 1 && forall i :: 0 <= i < |headers| ==> PlainField(headers[i], d)
    requires forall i :: 0 <= i < |rows| ==> |rows[i]| >= 1
    requires forall i, j :: 0 <= i < |rows| && 0 <= j < |rows[i]| ==> PlainField(rows[i][j], d)
    requires var text := Sheet(headers, rows, d); text == [] || (!IsSpace(text[0]) && !IsSpace(text[|text| - 1]))
    ensures Lines(Sheet(headers, rows, d)) == SheetLines(headers, rows, d)
  {
    var text := Sheet(headers, rows, d);
    var lines := SheetLines(headers, rows, d);
    assert text == Join(lines, '\n');
    forall i | 0 <= i < |lines| ensures '\n' !in lines[i] {
      if i == 0 {
        JoinAvoids(headers, d, '\n');
      } else {
        JoinAvoids(rows[i - 1], d, '\n');
      }
    }
    TrimOfUnpadded(text);
    SplitJoin(lines, '\n');
  }

  /** The header line of a written sheet chooses the delimiter it was written with. */
  lemma DelimiterOfHeaderLine(headers: seq<string>, d: char)
    requires d == ',' || (d == '\t' && |headers| >= 2)
    requires |headers| >= 1 && forall i :: 0 <= i < |headers| ==> PlainField(headers[i], d)
    ensures Delimiter(Join(headers, d)) == d
  {
    var h := Join(headers, d);
    if d == ',' {
      JoinAvoids(headers, d, '\t');
    } else {
      assert h == headers[0] + [d] + Join(headers[1..], d);
      assert h[|headers[0]|] == '\t';
    }
  }

  /**
   * Reading back a written sheet: for plain fields, a comma delimiter (or a
   * tab with at least two headers, so that the header line has a tab) and no
   * white space at the ends of the text, `parseCSV` returns one record per
   * row, built from exactly that row's fields.
   */
  lemma ParseOfSheet(headers: seq<string>, rows: seq<seq<string>>, d: char)
    requires d == ',' || (d == '\t' && |headers| >= 2)
    requires |headers| >= 1 && forall i :: 0 <= i < |headers| ==> PlainField(headers[i], d)
    requires forall i :: 0 <= i < |rows| ==> |rows[i]| >= 1
    requires forall i, j :: 0 <= i < |rows| && 0 <= j < |rows[i]| ==> PlainField(rows[i][j], d)
    requires var text := Sheet(headers, rows, d); text == [] || (!IsSpace(text[0]) && !IsSpace(text[|text| - 1]))
    ensures ParseCsv(Sheet(headers, rows, d)) == seq(|rows|, i requires 0 <= i < |rows| => BuildRecord(headers, rows[i]))
  {
    LinesOfSheet(headers, rows, d);
    ParseOfSheetLines(headers, rows, d);
  }

  lemma ParseOfSheetLines(headers: seq<string>, rows: seq<seq<string>>, d: char)
    requires d == ',' || (d == '\t' && |headers| >= 2)
    requires |headers| >= 1 && forall i :: 0 <= i < |headers| ==> PlainField(headers[i], d)
    requires forall i :: 0 <= i < |rows| ==> |rows[i]| >= 1
    requires forall i, j :: 0 <= i < |rows| && 0 <= j < |rows[i]| ==> PlainField(rows[i][j], d)
    ensures ParseLines(SheetLines(headers, rows, d)) == seq(|rows|, i requires 0 <= i < |rows| => BuildRecord(headers, rows[i]))
  {
    var lines := SheetLines(headers, rows, d);
    var expected := seq(|rows|, i requires 0 <= i < |rows| => BuildRecord(headers, rows[i]));
    if rows != [] {
      assert lines[0] == Join(headers, d);
      DelimiterOfHeaderLine(headers, d);
      CellsOfJoin(headers, d);
      var parsed := ParseLines(lines);
      assert |parsed| == |rows|;
      forall i | 0 <= i < |rows| ensures parsed[i] == expected[i] {
        ParsedLine(lines, i);
        RowOfSheet(headers, rows, d, i);
      }
    }
  }

  /** Line `i + 1` of a written sheet cleans back into row `i`. */
  lemma RowOfSheet(headers: seq<string>, rows: seq<seq<string>>, d: char, i: nat)
    requires |headers| >= 1 && forall i :: 0 <= i < |rows| ==> |rows[i]| >= 1
    requires i < |rows| && forall j :: 0 <= j < |rows[i]| ==> PlainField(rows[i][j], d)
    ensures |SheetLines(headers, rows, d)| == |rows| + 1
    ensures Cells(SheetLines(headers, rows, d)[i + 1], d) == rows[i]
  {
    assert SheetLines(headers, rows, d)[i + 1] == Join(rows[i], d);
    CellsOfJoin(rows[i], d);
  }
}
