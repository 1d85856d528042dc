// The upload manifest: reading its rows, and printing it back with two outcome columns.
module Manifest {
  import opened Strings
  import opened Csv

  // The names of the two outcome columns.
  datatype Names = Names(url: string, status: string)

  const OUTCOME_COLUMNS := Names("uploaded_url", "upload_status")

  type Row = map<string, string>

  datatype Outcome = Outcome(uploadedUrl: string, uploadStatus: string)

  // ---------- Lines ----------

  // split(/\r?\n/)
  function Lines(text: string): (lines: seq<string>)
    ensures |lines| >= 1 && forall l :: l in lines ==> '\n' !in l
  {
    if text == "" then [""]
    else if text[0] == '\n' then [""] + Lines(text[1..])
    else if text[0] == '\r' && |text| > 1 && text[1] == '\n' then [""] + Lines(text[2..])
    else
      var rest := Lines(text[1..]);
      [[text[0]] + rest[0]] + rest[1..]
  }

  function NonBlank(lines: seq<string>): seq<string> {
    if lines == [] then []
    else NonBlank(lines[..|lines| - 1]) + if lines[|lines| - 1] != "" then [lines[|lines| - 1]] else []
  }

  lemma {:induction false} LinesPrefix(p: string, rest: string)
    requires NoBreak(p)
    ensures Lines(p + ['\n'] + rest) == [Chomp(p)] + Lines(rest)
    decreases |p|
  {
    var text := p + ['\n'] + rest;
    if p == "" {
      assert text[1..] == rest;
    } else if p == "\r" {
      assert text[2..] == rest && Chomp(p) == "";
    } else {
      assert text[1..] == p[1..] + ['\n'] + rest;
      assert p == [p[0]] + p[1..];
      LinesPrefix(p[1..], rest);
      if |p| > 1 {
        assert text[1] == p[1] && p[1] in p;
        ChompAppend([p[0]], p[1..]);
      }
    }
  }

  lemma {:induction false} LinesWhole(p: string)
    requires NoBreak(p)
    ensures Lines(p) == [p]
    decreases |p|
  {
    if p != "" {
      LinesWhole(p[1..]);
      assert [p[0]] + p[1..] == p;
    }
  }

  // Lines as they read back: those that a line feed follows lose one final carriage return.
  function Ended(lines: seq<string>, last: bool): (ended: seq<string>)
    ensures |ended| == |lines|
  {
    seq(|lines|, i requires 0 <= i < |lines| => if i < |lines| - 1 || last then Chomp(lines[i]) else lines[i])
  }

  lemma EndedCons(first: string, others: seq<string>, last: bool)
    ensures Ended([first] + others, last)
         == [if others != [] || last then Chomp(first) else first] + Ended(others, last)
  {
  }

  // Joined lines come back so, with one blank line for a final line end.
  lemma {:induction false} LinesJoin(lines: seq<string>)
    requires lines != [] && forall i :: 0 <= i < |lines| ==> NoBreak(lines[i])
    ensures Lines(Join(lines, '\n')) == Ended(lines, false)
    ensures Lines(Join(lines, '\n') + "\n") == Ended(lines, true) + [""]
    decreases |lines|
  {
    var first, others := lines[0], lines[1..];
    assert lines == [first] + others;
    EndedCons(first, others, false);
    EndedCons(first, others, true);
    if others == [] {
      LinesWhole(first);
      LinesPrefix(first, "");
      assert first + ['\n'] + "" == first + "\n";
    } else {
      var tail := Join(others, '\n');
      LinesJoin(others);
      LinesPrefix(first, tail);
      LinesPrefix(first, tail + "\n");
      assert Join(lines, '\n') == first + ['\n'] + tail;
      assert Join(lines, '\n') + "\n" == first + ['\n'] + (tail + "\n");
    }
  }

  lemma {:induction false} NonBlankAll(lines: seq<string>)
    requires forall i :: 0 <= i < |lines| ==> lines[i] != ""
    ensures NonBlank(lines) == lines && NonBlank(lines + [""]) == lines
  {
    assert (lines + [""])[..|lines|] == lines;
    if lines != [] {
      NonBlankAll(lines[..|lines| - 1]);
    }
  }

  // ---------- Parsing ----------

  function FieldAt(fields: seq<string>, j: nat): string { if j < |fields| then fields[j] else "" }

  // The row after its first n columns; a later column of the same name wins.
  function RowOf(headers: seq<string>, fields: seq<string>, n: nat): Row
    requires n <= |headers|
  {
    if n == 0 then map[] else RowOf(headers, fields, n - 1)[headers[n - 1] := FieldAt(fields, n - 1)]
  }

  function RowFrom(headers: seq<string>, line: string): Row { RowOf(headers, Fields(line), |headers|) }

  function RowsUpTo(headers: seq<string>, lines: seq<string>, n: nat): seq<Row>
    requires n <= |lines|
  {
    seq(n, i requires 0 <= i < |lines| => RowFrom(headers, lines[i]))
  }

  function Parse(text: string): seq<Row> {
    var lines := NonBlank(Lines(text));
    if lines == [] then [] else RowsUpTo(Fields(lines[0]), lines[1..], |lines| - 1)
  }

  method ParseRow(headers: seq<string>, line: string) returns (row: Row)
    ensures row == RowFrom(headers, line)
  {
    var fields := SplitCsvLine(line);
    row := map[];
    for j := 0 to |headers|
      invariant row == RowOf(headers, fields, j)
    {
      row := row[headers[j] := if j < |fields| then fields[j] else ""];
    }
  }

  method ParseCsv(text: string) returns (rows: seq<Row>)
    ensures rows == Parse(text)
  {
    var lines := NonBlank(Lines(text));
    if lines == [] {
      return [];
    }
    var headers := SplitCsvLine(lines[0]);
    rows := [];
    for i := 1 to |lines|
      invariant rows == RowsUpTo(headers, lines[1..], i - 1)
    {
      var row := ParseRow(headers, lines[i]);
      assert lines[1..][i - 1] == lines[i];
      rows := rows + [row];
    }
  }

  predicate Distinct(headers: seq<string>) { forall i, j :: 0 <= i < j < |headers| ==> headers[i] != headers[j] }

  lemma {:induction false} RowKeys(headers: seq<string>, fields: seq<string>, n: nat, c: string)
    requires n <= |headers|
    ensures c in RowOf(headers, fields, n) <==> exists j :: 0 <= j < n && headers[j] == c
  {
    if n > 0 {
      RowKeys(headers, fields, n - 1, c);
    }
  }

  lemma {:induction false} RowValue(headers: seq<string>, fields: seq<string>, n: nat, j: nat)
    requires j < n <= |headers| && Distinct(headers)
    ensures headers[j] in RowOf(headers, fields, n) && RowOf(headers, fields, n)[headers[j]] == FieldAt(fields, j)
  {
    if j < n - 1 {
      RowValue(headers, fields, n - 1, j);
    }
  }

  // ---------- Printing ----------

  function IndexOf(headers: seq<string>, name: string): (k: int)
    ensures name in headers <==> k >= 0
    ensures k >= 0 ==> k < |headers| && headers[k] == name
    ensures k < 0 ==> k == -1
  {
    if headers == [] then -1
    else if headers[0] == name then 0
    else
      var k := IndexOf(headers[1..], name);
      if k < 0 then -1 else k + 1
  }

  function NewHeader(k: Names, header: seq<string>): seq<string> {
    header + (if k.url in header then [] else [k.url]) + if k.status in header then [] else [k.status]
  }

  // The columns the printer writes an outcome to.
  function UrlIndex(k: Names, header: seq<string>): int {
    if k.url in header then IndexOf(header, k.url) else |NewHeader(k, header)| - 2
  }

  function StatusIndex(k: Names, header: seq<string>): int {
    if k.status in header then IndexOf(header, k.status) else |NewHeader(k, header)| - 1
  }

  lemma IndicesInRange(k: Names, header: seq<string>)
    requires header != []
    ensures 0 <= UrlIndex(k, header) < |NewHeader(k, header)| && 0 <= StatusIndex(k, header) < |NewHeader(k, header)|
  {
  }

  function Get(row: Row, c: string): string { if c in row then row[c] else "" }

  function Cells(row: Row, columns: seq<string>): (cells: seq<string>)
    ensures |cells| == |columns| && forall j :: 0 <= j < |cells| ==> cells[j] == Get(row, columns[j])
  {
    if columns == [] then [] else [Get(row, columns[0])] + Cells(row, columns[1..])
  }

  function PrintedCells(k: Names, header: seq<string>, row: Row, outcome: Option<Outcome>): (cells: seq<string>)
    requires header != []
    ensures |cells| == |NewHeader(k, header)|
  {
    IndicesInRange(k, header);
    var cells := Cells(row, NewHeader(k, header));
    if outcome.None? then cells
    else
      cells[UrlIndex(k, header) := outcome.value.uploadedUrl][StatusIndex(k, header) := outcome.value.uploadStatus]
  }

  function OutcomeAt(outcomes: map<nat, Outcome>, i: nat): Option<Outcome> {
    if i in outcomes then Some(outcomes[i]) else None
  }

  function RowLine(k: Names, header: seq<string>, row: Row, outcome: Option<Outcome>): string
    requires header != []
  {
    Line(PrintedCells(k, header, row, outcome))
  }

  function RowLines(k: Names, header: seq<string>, rows: seq<Row>, outcomes: map<nat, Outcome>, n: nat): seq<string>
    requires header != [] && n <= |rows|
  {
    seq(n, i requires 0 <= i < |rows| => RowLine(k, header, rows[i], OutcomeAt(outcomes, i)))
  }

  function Trailing(text: string): string { if text != "" && text[|text| - 1] == '\n' then "\n" else "" }

  function Header(text: string): (header: seq<string>)
    ensures header != []
  {
    Fields(Lines(text)[0])
  }

  function Print(k: Names, original: string, rows: seq<Row>, outcomes: map<nat, Outcome>): string {
    var header := Header(original);
    Join([Line(NewHeader(k, header))] + RowLines(k, header, rows, outcomes, |rows|), '\n') + Trailing(original)
  }

  method WriteManifest(k: Names, originalCsv: string, rows: seq<Row>, outcomes: map<nat, Outcome>)
    returns (text: string)
    ensures text == Print(k, originalCsv, rows, outcomes)
  {
    var originalLines := Lines(originalCsv);
    var header := SplitCsvLine(originalLines[0]);
    var existingUrl, existingStatus := IndexOf(header, k.url), IndexOf(header, k.status);
    var newHeader := header;
    if existingUrl == -1 {
      newHeader := newHeader + [k.url];
    }
    if existingStatus == -1 {
      newHeader := newHeader + [k.status];
    }
    var urlIdx := if existingUrl == -1 then |newHeader| - 2 else existingUrl;
    var statusIdx := if existingStatus == -1 then |newHeader| - 1 else existingStatus;
    var rowLines := WriteRows(k, header, newHeader, urlIdx, statusIdx, rows, outcomes);
    text := Join([Line(newHeader)] + rowLines, '\n') + Trailing(originalCsv);
  }

  method WriteRows(k: Names, ghost header: seq<string>, newHeader: seq<string>, urlIdx: int, statusIdx: int,
                   rows: seq<Row>, outcomes: map<nat, Outcome>)
    returns (lines: seq<string>)
    requires header != [] && newHeader == NewHeader(k, header)
    requires urlIdx == UrlIndex(k, header) && statusIdx == StatusIndex(k, header)
    ensures lines == RowLines(k, header, rows, outcomes, |rows|)
  {
    IndicesInRange(k, header);
    lines := [];
    for i := 0 to |rows|
      invariant lines == RowLines(k, header, rows, outcomes, i)
    {
      var fields := Cells(rows[i], newHeader);
      if i in outcomes {
        fields := fields[urlIdx := outcomes[i].uploadedUrl];
        fields := fields[statusIdx := outcomes[i].uploadStatus];
      }
      assert fields == PrintedCells(k, header, rows[i], OutcomeAt(outcomes, i));
      lines := lines + [Line(fields)];
    }
  }

  // ---------- The round trip ----------

  // The row as it should read back: the two columns there, and set when the row has an outcome.
  function Updated(k: Names, row: Row, outcome: Option<Outcome>): Row {
    var base := map[k.url := "", k.status := ""] + row;
    if outcome.None? then base
    else base[k.url := outcome.value.uploadedUrl][k.status := outcome.value.uploadStatus]
  }

  // The outcome lands in its own columns; or the printer takes the last column for the URL column, and that shows
  // nothing because the URL is empty and that column is empty or is about to get the status.
  predicate Lands(k: Names, header: seq<string>, row: Row, outcome: Option<Outcome>)
    requires header != []
  {
    outcome.None? || k.url in header || k.status !in header
    || (outcome.value.uploadedUrl == ""
        && (header[|header| - 1] == k.status || Get(row, header[|header| - 1]) == ""))
  }

  // Where the two columns really are.
  function UrlPlace(k: Names, header: seq<string>): int {
    if k.url in header then IndexOf(header, k.url) else |header|
  }

  lemma Columns(k: Names, header: seq<string>)
    requires header != [] && Distinct(header) && k.url != k.status
    ensures var columns, u, s := NewHeader(k, header), UrlPlace(k, header), StatusIndex(k, header);
            Distinct(columns) && |header| <= |columns| && |columns| >= 2
            && columns[..|header|] == header
            && 0 <= u < |columns| && columns[u] == k.url && 0 <= s < |columns| && columns[s] == k.status
            && UrlIndex(k, header) == if k.url in header || k.status !in header then u else |header| - 1
  {
  }

  lemma ColumnSet(k: Names, header: seq<string>)
    ensures forall c :: c in NewHeader(k, header) <==> c in header || c == k.url || c == k.status
  {
  }

  // The value that column j should have, and the value printed there.
  function Wanted(k: Names, header: seq<string>, row: Row, outcome: Option<Outcome>, j: nat): string
    requires j < |NewHeader(k, header)|
  {
    if outcome.Some? && j == StatusIndex(k, header) then outcome.value.uploadStatus
    else if outcome.Some? && j == UrlPlace(k, header) then outcome.value.uploadedUrl
    else Get(row, NewHeader(k, header)[j])
  }

  lemma WantedIsUpdated(k: Names, header: seq<string>, row: Row, outcome: Option<Outcome>, j: nat)
    requires header != [] && Distinct(header) && k.url != k.status
    requires row.Keys == (set c | c in header) && j < |NewHeader(k, header)|
    ensures var c := NewHeader(k, header)[j];
            c in Updated(k, row, outcome) && Updated(k, row, outcome)[c] == Wanted(k, header, row, outcome, j)
  {
    Columns(k, header);
    ColumnSet(k, header);
    var columns, c := NewHeader(k, header), NewHeader(k, header)[j];
    assert c in columns;
    assert c == k.url ==> j == UrlPlace(k, header);
    assert c == k.status ==> j == StatusIndex(k, header);
  }

  lemma CellAt(k: Names, header: seq<string>, row: Row, outcome: Option<Outcome>, j: nat)
    requires header != [] && j < |NewHeader(k, header)|
    ensures PrintedCells(k, header, row, outcome)[j]
            == if outcome.Some? && j == StatusIndex(k, header) then outcome.value.uploadStatus
               else if outcome.Some? && j == UrlIndex(k, header) then outcome.value.uploadedUrl
               else Get(row, NewHeader(k, header)[j])
  {
    IndicesInRange(k, header);
  }

  lemma CellLands(k: Names, header: seq<string>, row: Row, outcome: Option<Outcome>, j: nat)
    requires header != [] && Distinct(header) && k.url != k.status && row.Keys == set c | c in header
    requires Lands(k, header, row, outcome) && j < |NewHeader(k, header)|
    ensures PrintedCells(k, header, row, outcome)[j] == Wanted(k, header, row, outcome, j)
  {
    Columns(k, header);
    CellAt(k, header, row, outcome, j);
    var last := |header| - 1;
    assert NewHeader(k, header)[last] == NewHeader(k, header)[..|header|][last];
  }

  // Otherwise the URL column stays empty and the last original column gets the URL.
  lemma CellMisses(k: Names, header: seq<string>, row: Row, outcome: Option<Outcome>) returns (j: nat)
    requires header != [] && Distinct(header) && k.url != k.status && row.Keys == set c | c in header
    requires !Lands(k, header, row, outcome)
    ensures j < |NewHeader(k, header)|
    ensures PrintedCells(k, header, row, outcome)[j] != Wanted(k, header, row, outcome, j)
  {
    Columns(k, header);
    var last := |header| - 1;
    assert NewHeader(k, header)[last] == NewHeader(k, header)[..|header|][last];
    j := if outcome.value.uploadedUrl != "" then |header| else last;
    CellAt(k, header, row, outcome, j);
  }

  // One row reads back as it should exactly when its outcome lands.
  lemma RowRoundTrip(k: Names, header: seq<string>, row: Row, outcome: Option<Outcome>)
    requires header != [] && Distinct(header) && k.url != k.status && row.Keys == set c | c in header
    ensures RowOf(NewHeader(k, header), PrintedCells(k, header, row, outcome), |NewHeader(k, header)|)
            == Updated(k, row, outcome)
            <==> Lands(k, header, row, outcome)
  {
    var columns, cells := NewHeader(k, header), PrintedCells(k, header, row, outcome);
    var want := Updated(k, row, outcome);
    Columns(k, header);
    if Lands(k, header, row, outcome) {
      UpdatedKeys(k, header, row, outcome);
      forall j | 0 <= j < |columns| ensures columns[j] in want && cells[j] == want[columns[j]] {
        WantedIsUpdated(k, header, row, outcome, j);
        CellLands(k, header, row, outcome, j);
      }
      SameRow(columns, cells, want);
    } else {
      var j := CellMisses(k, header, row, outcome);
      WantedIsUpdated(k, header, row, outcome, j);
      RowValue(columns, cells, |columns|, j);
    }
  }

  lemma UpdatedKeys(k: Names, header: seq<string>, row: Row, outcome: Option<Outcome>)
    requires row.Keys == set c | c in header
    ensures forall c :: c in Updated(k, row, outcome) <==> c in NewHeader(k, header)
  {
    ColumnSet(k, header);
  }

  lemma SameRow(columns: seq<string>, cells: seq<string>, want: Row)
    requires Distinct(columns) && |cells| == |columns| && forall c :: c in want ==> c in columns
    requires forall j :: 0 <= j < |columns| ==> columns[j] in want && cells[j] == want[columns[j]]
    ensures RowOf(columns, cells, |columns|) == want
  {
    var back := RowOf(columns, cells, |columns|);
    forall j | 0 <= j < |columns| ensures columns[j] in back && back[columns[j]] == cells[j] {
      RowValue(columns, cells, |columns|, j);
    }
    forall c ensures (c in back <==> c in want) && (c in back ==> back[c] == want[c]) {
      RowKeys(columns, cells, |columns|, c);
      if c in want {
        var j :| 0 <= j < |columns| && columns[j] == c;
      }
    }
  }

  // A table whose first line is its header, with distinct names.
  predicate Table(text: string) { Lines(text)[0] != "" && Distinct(Header(text)) }

  predicate PlainOutcomes(outcomes: map<nat, Outcome>) {
    forall i :: i in outcomes ==> NoBreak(outcomes[i].uploadedUrl) && NoBreak(outcomes[i].uploadStatus)
  }

  lemma {:induction false} NonBlankHead(lines: seq<string>)
    requires lines != [] && lines[0] != ""
    ensures NonBlank(lines) != [] && NonBlank(lines)[0] == lines[0]
  {
    if |lines| > 1 {
      NonBlankHead(lines[..|lines| - 1]);
    }
  }

  lemma {:induction false} NonBlankFrom(lines: seq<string>, l: string)
    ensures l in NonBlank(lines) ==> l in lines
  {
    if lines != [] {
      NonBlankFrom(lines[..|lines| - 1], l);
    }
  }

  // Every parsed row has exactly the header's columns, and no value holds a line feed.
  lemma ParsedRows(text: string, i: nat)
    requires Table(text) && i < |Parse(text)|
    ensures Parse(text)[i].Keys == set c | c in Header(text)
    ensures forall c :: c in Parse(text)[i] ==> NoBreak(Parse(text)[i][c])
  {
    var lines, header := NonBlank(Lines(text)), Header(text);
    NonBlankHead(Lines(text));
    var line := lines[1..][i];
    assert line in lines;
    NonBlankFrom(Lines(text), line);
    ScanNoBreak("", false, line);
    var row := Parse(text)[i];
    assert row == RowFrom(header, line);
    forall c ensures c in row <==> c in header {
      RowKeys(header, Fields(line), |header|, c);
    }
    forall c | c in row ensures NoBreak(row[c]) {
      var j :| 0 <= j < |header| && header[j] == c;
      RowValue(header, Fields(line), |header|, j);
    }
  }

  lemma HeaderNoBreak(k: Names, text: string)
    requires Table(text) && NoBreak(k.url) && NoBreak(k.status)
    ensures forall j :: 0 <= j < |NewHeader(k, Header(text))| ==> NoBreak(NewHeader(k, Header(text))[j])
  {
    ScanNoBreak("", false, Lines(text)[0]);
  }

  lemma PrintedNoBreak(k: Names, text: string, outcomes: map<nat, Outcome>, i: nat)
    requires Table(text) && PlainOutcomes(outcomes) && i < |Parse(text)|
    ensures var cells := PrintedCells(k, Header(text), Parse(text)[i], OutcomeAt(outcomes, i));
            forall j :: 0 <= j < |cells| ==> NoBreak(cells[j])
  {
    ParsedRows(text, i);
    IndicesInRange(k, Header(text));
  }

  predicate PlainNames(k: Names) { k.url != k.status && NoBreak(k.url) && NoBreak(k.status) }

  // A line of two or more printed cells is one line and stays so, and reads back as the cells.
  lemma CellsReadBack(cells: seq<string>)
    requires |cells| >= 2 && forall j :: 0 <= j < |cells| ==> NoBreak(cells[j])
    ensures var line := Line(cells);
            NoBreak(line) && Chomp(line) != "" && Fields(line) == cells && Fields(Chomp(line)) == Shorn(cells)
  {
    LineNoBreak(cells);
    LineRoundTrip(cells);
    ChompLine(cells);
    LineRoundTrip(Shorn(cells));
  }

  lemma ParseOf(text: string, first: string, others: seq<string>)
    requires NonBlank(Lines(text)) == [first] + others
    ensures Parse(text) == RowsUpTo(Fields(first), others, |others|)
  {
    assert ([first] + others)[1..] == others;
  }

  lemma NonBlankEnded(lines: seq<string>, end: string)
    requires lines != [] && (end == "" || end == "\n")
    requires forall i :: 0 <= i < |lines| ==> NoBreak(lines[i]) && Chomp(lines[i]) != ""
    ensures NonBlank(Lines(Join(lines, '\n') + end)) == Ended(lines, end != "")
  {
    var text := Join(lines, '\n');
    LinesJoin(lines);
    NonBlankAll(Ended(lines, end != ""));
    assert text + "" == text;
  }

  lemma ParseJoined(first: string, others: seq<string>, end: string)
    requires end == "" || end == "\n"
    requires forall i :: 0 <= i <= |others| ==> NoBreak(([first] + others)[i]) && Chomp(([first] + others)[i]) != ""
    ensures Parse(Join([first] + others, '\n') + end)
         == RowsUpTo(Fields(Chomp(first)), Ended(others, end != ""), |others|)
  {
    var lines, last := [first] + others, end != "";
    NonBlankEnded(lines, end);
    EndedCons(first, others, last);
    ParseOf(Join(lines, '\n') + end, if others != [] || last then Chomp(first) else first, Ended(others, last));
  }

  // A line end follows row i in the printed text.
  predicate Followed(text: string, i: nat) { i + 1 < |Parse(text)| || Trailing(text) != "" }

  function ReadCells(cells: seq<string>, followed: bool): (read: seq<string>)
    requires cells != []
    ensures |read| == |cells|
  {
    if followed then Shorn(cells) else cells
  }

  lemma RowLineReads(k: Names, text: string, outcomes: map<nat, Outcome>, i: nat)
    requires Table(text) && PlainOutcomes(outcomes) && PlainNames(k) && i < |Parse(text)|
    ensures var cells := PrintedCells(k, Header(text), Parse(text)[i], OutcomeAt(outcomes, i));
            var line := RowLine(k, Header(text), Parse(text)[i], OutcomeAt(outcomes, i));
            NoBreak(line) && Chomp(line) != ""
            && Fields(if Followed(text, i) then Chomp(line) else line) == ReadCells(cells, Followed(text, i))
  {
    Columns(k, Header(text));
    PrintedNoBreak(k, text, outcomes, i);
    CellsReadBack(PrintedCells(k, Header(text), Parse(text)[i], OutcomeAt(outcomes, i)));
  }

  // Row i as it reads back.
  function ReadRow(k: Names, text: string, outcomes: map<nat, Outcome>, i: nat): Row
    requires i < |Parse(text)|
  {
    var columns := NewHeader(k, Header(text));
    var cells := PrintedCells(k, Header(text), Parse(text)[i], OutcomeAt(outcomes, i));
    RowOf(Shorn(columns), ReadCells(cells, Followed(text, i)), |columns|)
  }

  lemma HeaderLineReads(k: Names, text: string)
    requires Table(text) && PlainNames(k)
    ensures var columns := NewHeader(k, Header(text));
            NoBreak(Line(columns)) && Chomp(Line(columns)) != "" && Fields(Chomp(Line(columns))) == Shorn(columns)
  {
    Columns(k, Header(text));
    HeaderNoBreak(k, text);
    CellsReadBack(NewHeader(k, Header(text)));
  }

  function EndedRows(k: Names, text: string, outcomes: map<nat, Outcome>): seq<string> {
    Ended(RowLines(k, Header(text), Parse(text), outcomes, |Parse(text)|), Trailing(text) != "")
  }

  lemma PrintedText(k: Names, text: string, outcomes: map<nat, Outcome>)
    requires Table(text) && PlainOutcomes(outcomes) && PlainNames(k)
    ensures Parse(Print(k, text, Parse(text), outcomes))
         == RowsUpTo(Shorn(NewHeader(k, Header(text))), EndedRows(k, text, outcomes), |Parse(text)|)
  {
    var first := Line(NewHeader(k, Header(text)));
    var others := RowLines(k, Header(text), Parse(text), outcomes, |Parse(text)|);
    HeaderLineReads(k, text);
    forall i | 0 <= i < |others| ensures NoBreak(others[i]) && Chomp(others[i]) != "" {
      RowLineReads(k, text, outcomes, i);
    }
    ParseJoined(first, others, Trailing(text));
  }

  lemma EndedRow(k: Names, text: string, outcomes: map<nat, Outcome>, i: nat)
    requires i < |Parse(text)|
    ensures var line := RowLine(k, Header(text), Parse(text)[i], OutcomeAt(outcomes, i));
            |EndedRows(k, text, outcomes)| == |Parse(text)|
            && EndedRows(k, text, outcomes)[i] == if Followed(text, i) then Chomp(line) else line
  {
  }

  lemma EndedRowReads(k: Names, text: string, outcomes: map<nat, Outcome>, i: nat)
    requires Table(text) && PlainOutcomes(outcomes) && PlainNames(k) && i < |Parse(text)|
    ensures i < |EndedRows(k, text, outcomes)|
    ensures RowFrom(Shorn(NewHeader(k, Header(text))), EndedRows(k, text, outcomes)[i]) == ReadRow(k, text, outcomes, i)
  {
    EndedRow(k, text, outcomes, i);
    RowLineReads(k, text, outcomes, i);
  }

  lemma RowAt(headers: seq<string>, lines: seq<string>, n: nat, i: nat)
    requires i < n <= |lines|
    ensures RowsUpTo(headers, lines, n)[i] == RowFrom(headers, lines[i])
  {
  }

  // What was printed parses to the printed cells, but for a bare carriage return before a line end.
  lemma PrintedParses(k: Names, text: string, outcomes: map<nat, Outcome>, i: nat)
    requires Table(text) && PlainOutcomes(outcomes) && PlainNames(k)
    ensures var back := Parse(Print(k, text, Parse(text), outcomes));
            |back| == |Parse(text)| && (i < |back| ==> back[i] == ReadRow(k, text, outcomes, i))
  {
    PrintedText(k, text, outcomes);
    if i < |Parse(text)| {
      EndedRowReads(k, text, outcomes, i);
      RowAt(Shorn(NewHeader(k, Header(text))), EndedRows(k, text, outcomes), |Parse(text)|, i);
    }
  }

  // Neither the last column's name nor, where a line end follows, the last printed cell ends in a bare carriage return.
  predicate KeepsEnds(columns: seq<string>, cells: seq<string>, followed: bool)
    requires columns != [] && cells != []
  {
    !EndsBare(columns[|columns| - 1]) && !(followed && EndsBare(cells[|cells| - 1]))
  }

  lemma KeptEnds(columns: seq<string>, cells: seq<string>, followed: bool)
    requires columns != [] && cells != [] && KeepsEnds(columns, cells, followed)
    ensures Shorn(columns) == columns && ReadCells(cells, followed) == cells
  {
  }

  lemma LostName(columns: seq<string>, read: seq<string>)
    requires columns != [] && |read| == |columns| && Distinct(columns) && EndsBare(columns[|columns| - 1])
    ensures columns[|columns| - 1] !in RowOf(Shorn(columns), read, |columns|)
  {
    var name, shorn := columns[|columns| - 1], Shorn(columns);
    RowKeys(shorn, read, |columns|, name);
    forall j | 0 <= j < |columns| ensures shorn[j] != name {
      assert j < |columns| - 1 ==> shorn[j] == columns[j];
    }
  }

  lemma LostValue(columns: seq<string>, cells: seq<string>)
    requires columns != [] && |cells| == |columns| && Distinct(columns) && EndsBare(cells[|cells| - 1])
    ensures columns[|columns| - 1] in RowOf(columns, Shorn(cells), |columns|)
    ensures RowOf(columns, Shorn(cells), |columns|)[columns[|columns| - 1]] != cells[|cells| - 1]
  {
    RowValue(columns, Shorn(cells), |columns|, |columns| - 1);
  }

  // An outcome that does not land leaves the new last column empty.
  lemma MissedEndsEmpty(k: Names, header: seq<string>, row: Row, outcome: Option<Outcome>)
    requires header != [] && Distinct(header) && k.url != k.status && row.Keys == set c | c in header
    requires !Lands(k, header, row, outcome)
    ensures var cells := PrintedCells(k, header, row, outcome);
            cells[|cells| - 1] == ""
  {
    Columns(k, header);
    CellAt(k, header, row, outcome, |header|);
  }

  // The wanted row has the last column, with its printed value where that ends in a bare carriage return.
  ghost predicate WantsEnd(columns: seq<string>, cells: seq<string>, want: Row) {
    columns != [] && |cells| == |columns| && Distinct(columns) && columns[|columns| - 1] in want
    && (EndsBare(cells[|cells| - 1]) ==> want[columns[|columns| - 1]] == cells[|cells| - 1])
  }

  lemma LostEnd(columns: seq<string>, cells: seq<string>, followed: bool, want: Row)
    ensures WantsEnd(columns, cells, want) && !KeepsEnds(columns, cells, followed)
            ==> RowOf(Shorn(columns), ReadCells(cells, followed), |columns|) != want
  {
    if WantsEnd(columns, cells, want) && !KeepsEnds(columns, cells, followed) {
      if EndsBare(columns[|columns| - 1]) {
        LostName(columns, ReadCells(cells, followed));
      } else {
        LostValue(columns, cells);
      }
    }
  }

  lemma ColumnsDistinct(k: Names, header: seq<string>)
    requires header != [] && Distinct(header) && k.url != k.status
    ensures NewHeader(k, header) != [] && Distinct(NewHeader(k, header))
  {
    Columns(k, header);
  }

  lemma LastWanted(k: Names, header: seq<string>, row: Row, outcome: Option<Outcome>)
    requires header != [] && Distinct(header) && k.url != k.status && row.Keys == set c | c in header
    ensures var columns, cells := NewHeader(k, header), PrintedCells(k, header, row, outcome);
            var name := columns[|columns| - 1];
            name in Updated(k, row, outcome)
            && (EndsBare(cells[|cells| - 1]) ==> Updated(k, row, outcome)[name] == cells[|cells| - 1])
  {
    var last := |NewHeader(k, header)| - 1;
    WantedIsUpdated(k, header, row, outcome, last);
    if Lands(k, header, row, outcome) {
      CellLands(k, header, row, outcome, last);
    } else {
      MissedEndsEmpty(k, header, row, outcome);
    }
  }

  lemma UpdatedWantsEnd(k: Names, header: seq<string>, row: Row, outcome: Option<Outcome>)
    requires header != [] && Distinct(header) && k.url != k.status && row.Keys == set c | c in header
    ensures WantsEnd(NewHeader(k, header), PrintedCells(k, header, row, outcome), Updated(k, row, outcome))
  {
    ColumnsDistinct(k, header);
    LastWanted(k, header, row, outcome);
  }

  // A row reads back with only its two outcome columns set, and only when it has an outcome, if and only if its outcome
  // lands and it keeps its ends.
  lemma RowReadsBack(k: Names, header: seq<string>, row: Row, outcome: Option<Outcome>, followed: bool)
    requires header != [] && Distinct(header) && k.url != k.status && row.Keys == set c | c in header
    ensures var columns, cells := NewHeader(k, header), PrintedCells(k, header, row, outcome);
            RowOf(Shorn(columns), ReadCells(cells, followed), |columns|) == Updated(k, row, outcome)
            <==> Lands(k, header, row, outcome) && KeepsEnds(columns, cells, followed)
  {
    var columns, cells := NewHeader(k, header), PrintedCells(k, header, row, outcome);
    if KeepsEnds(columns, cells, followed) {
      KeptEnds(columns, cells, followed);
      RowRoundTrip(k, header, row, outcome);
    } else {
      UpdatedWantsEnd(k, header, row, outcome);
      LostEnd(columns, cells, followed, Updated(k, row, outcome));
    }
  }

  lemma {:induction false} JoinEnds(lines: seq<string>)
    requires lines != [] && lines[|lines| - 1] != ""
    ensures var text, last := Join(lines, '\n'), lines[|lines| - 1];
            text != "" && text[|text| - 1] == last[|last| - 1]
    decreases |lines|
  {
    if |lines| > 1 {
      JoinEnds(lines[1..]);
    }
  }

  lemma EndsWithLine(lines: seq<string>, end: string)
    requires lines != [] && NoBreak(lines[|lines| - 1]) && lines[|lines| - 1] != "" && (end == "" || end == "\n")
    ensures var text := Join(lines, '\n') + end;
            text != "" && (text[|text| - 1] == '\n' <==> end == "\n")
  {
    var last := lines[|lines| - 1];
    assert last[|last| - 1] in last;
    JoinEnds(lines);
  }

  lemma LastOfLines(first: string, others: seq<string>)
    ensures ([first] + others)[|others|] == if others == [] then first else others[|others| - 1]
  {
  }

  lemma LastLinePlain(k: Names, text: string, outcomes: map<nat, Outcome>, others: seq<string>)
    requires Table(text) && PlainOutcomes(outcomes) && PlainNames(k)
    requires others == RowLines(k, Header(text), Parse(text), outcomes, |Parse(text)|)
    ensures var last := ([Line(NewHeader(k, Header(text)))] + others)[|others|];
            NoBreak(last) && last != ""
  {
    LastOfLines(Line(NewHeader(k, Header(text))), others);
    if others == [] {
      HeaderLineReads(k, text);
    } else {
      RowLineReads(k, text, outcomes, |others| - 1);
    }
  }

  // The printed text ends in a line feed exactly when the original does.
  lemma KeepsFinalNewline(k: Names, text: string, outcomes: map<nat, Outcome>)
    requires Table(text) && PlainOutcomes(outcomes) && PlainNames(k)
    ensures var printed := Print(k, text, Parse(text), outcomes);
            printed != "" && (printed[|printed| - 1] == '\n' <==> text != "" && text[|text| - 1] == '\n')
  {
    var others := RowLines(k, Header(text), Parse(text), outcomes, |Parse(text)|);
    LastLinePlain(k, text, outcomes, others);
    PrintIsLines(k, text, outcomes, others);
    EndsWithLine([Line(NewHeader(k, Header(text)))] + others, Trailing(text));
    TrailingIs(text);
  }

  lemma PrintIsLines(k: Names, text: string, outcomes: map<nat, Outcome>, others: seq<string>)
    requires others == RowLines(k, Header(text), Parse(text), outcomes, |Parse(text)|)
    ensures Print(k, text, Parse(text), outcomes)
         == Join([Line(NewHeader(k, Header(text)))] + others, '\n') + Trailing(text)
  {
  }

  lemma TrailingIs(text: string)
    ensures Trailing(text) == "\n" <==> text != "" && text[|text| - 1] == '\n'
  {
  }

  lemma OutcomeColumnsPlain()
    ensures PlainNames(OUTCOME_COLUMNS)
  {
    assert |OUTCOME_COLUMNS.url| != |OUTCOME_COLUMNS.status|;
  }

  // Row i comes back as it should: its outcome lands, and no carriage return of its line or the header's is lost.
  predicate ComesBack(k: Names, text: string, outcomes: map<nat, Outcome>, i: nat)
    requires i < |Parse(text)|
  {
    var header, row, outcome := Header(text), Parse(text)[i], OutcomeAt(outcomes, i);
    Lands(k, header, row, outcome)
    && KeepsEnds(NewHeader(k, header), PrintedCells(k, header, row, outcome), Followed(text, i))
  }

  // Parsing the printed manifest gives the same rows, each with only its two outcome columns set, and only when it
  // has an outcome, for exactly the rows that come back. When the table already has a status column but no URL column,
  // an outcome's URL goes to the wrong column; and a carriage return that ends up before a line end is lost.
  lemma ManifestRoundTrip(text: string, outcomes: map<nat, Outcome>)
    requires Table(text) && PlainOutcomes(outcomes)
    ensures var k, rows := OUTCOME_COLUMNS, Parse(text);
            var back := Parse(Print(k, text, rows, outcomes));
            |back| == |rows|
            && (forall i :: 0 <= i < |rows| ==>
                  (back[i] == Updated(k, rows[i], OutcomeAt(outcomes, i)) <==> ComesBack(k, text, outcomes, i)))
  {
    OutcomeColumnsPlain();
    RoundTrip(OUTCOME_COLUMNS, text, outcomes);
  }

  lemma RoundTrip(k: Names, text: string, outcomes: map<nat, Outcome>)
    requires Table(text) && PlainOutcomes(outcomes) && PlainNames(k)
    ensures var rows := Parse(text);
            var back := Parse(Print(k, text, rows, outcomes));
            |back| == |rows|
            && forall i :: 0 <= i < |rows| ==>
                 (back[i] == Updated(k, rows[i], OutcomeAt(outcomes, i)) <==> ComesBack(k, text, outcomes, i))
  {
    PrintedParses(k, text, outcomes, 0);
    var header, rows := Header(text), Parse(text);
    var back := Parse(Print(k, text, rows, outcomes));
    forall i | 0 <= i < |rows|
      ensures back[i] == Updated(k, rows[i], OutcomeAt(outcomes, i)) <==> ComesBack(k, text, outcomes, i)
    {
      PrintedParses(k, text, outcomes, i);
      ParsedRows(text, i);
      RowReadsBack(k, header, rows[i], OutcomeAt(outcomes, i), Followed(text, i));
    }
  }

  // In plain terms, for a row that comes back: its outcome is in the two columns, without one they are as before or
  // empty, and every other column is as it was.
  lemma ColumnsComeBack(text: string, outcomes: map<nat, Outcome>, i: nat)
    requires Table(text) && PlainOutcomes(outcomes) && i < |Parse(text)|
    requires ComesBack(OUTCOME_COLUMNS, text, outcomes, i)
    ensures var k, row := OUTCOME_COLUMNS, Parse(text)[i];
            var back := Parse(Print(k, text, Parse(text), outcomes));
            i < |back|
            && (forall c :: c in back[i] <==> c in row || c == k.url || c == k.status)
            && (i in outcomes ==>
                  back[i][k.url] == outcomes[i].uploadedUrl && back[i][k.status] == outcomes[i].uploadStatus)
            && (i !in outcomes ==> back[i][k.url] == Get(row, k.url) && back[i][k.status] == Get(row, k.status))
            && (forall c :: c in row && c != k.url && c != k.status ==> back[i][c] == row[c])
  {
    ManifestRoundTrip(text, outcomes);
    OutcomeColumnsPlain();
    UpdatedIs(OUTCOME_COLUMNS, Parse(text)[i], OutcomeAt(outcomes, i));
  }

  lemma UpdatedIs(k: Names, row: Row, outcome: Option<Outcome>)
    requires k.url != k.status
    ensures var after := Updated(k, row, outcome);
            (forall c :: c in after <==> c in row || c == k.url || c == k.status)
            && after[k.url] == (if outcome.Some? then outcome.value.uploadedUrl else Get(row, k.url))
            && after[k.status] == (if outcome.Some? then outcome.value.uploadStatus else Get(row, k.status))
            && (forall c :: c in row && c != k.url && c != k.status ==> after[c] == row[c])
  {
  }

  // What goes wrong then: the URL replaces the value of the last original column, and its own column stays empty.
  lemma OverwritesLastColumn(k: Names, header: seq<string>, row: Row, outcome: Option<Outcome>)
    requires header != [] && Distinct(header) && k.url != k.status && row.Keys == set c | c in header
    requires outcome.Some? && k.url !in header && k.status in header && header[|header| - 1] != k.status
    ensures var back := RowOf(NewHeader(k, header), PrintedCells(k, header, row, outcome), |NewHeader(k, header)|);
            k.url in back && back[k.url] == ""
            && header[|header| - 1] in back && back[header[|header| - 1]] == outcome.value.uploadedUrl
  {
    var columns, cells, last := NewHeader(k, header), PrintedCells(k, header, row, outcome), |header| - 1;
    Columns(k, header);
    assert columns[last] == columns[..|header|][last];
    CellAt(k, header, row, outcome, last);
    CellAt(k, header, row, outcome, |header|);
    RowValue(columns, cells, |columns|, last);
    RowValue(columns, cells, |columns|, |header|);
  }
}
