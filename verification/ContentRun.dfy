// One run of the release-content generator: an outcome per row, the tally, and the writes.
module ContentRun {
  import opened Strings
  import WorkerPool

  // `empty` is whether the body counts as empty content.
  datatype Row = Row(id: string, content: string, empty: bool)

  datatype Usage = Usage(input: nat, output: nat, cacheCreate: nat, cacheRead: nat)

  const NO_USAGE := Usage(0, 0, 0, 0)

  // What a model wrote about one release; `text` stands for the title, summary and other fields.
  datatype Generated = Generated(text: Option<string>, usage: Usage, skipped: bool)

  datatype PerRow = Okay(row: Row, result: Generated) | Failed(row: Row, error: string)

  datatype Outcome = Succeeded(text: Option<string>, usage: Usage) | Errored(error: string) | Canceled | Expired

  datatype Line = Line(customId: string, outcome: Outcome)

  // ---------- Batch results ----------

  // The outcome a row of the batch ends with: its own, or a failure when no line came back.
  function OutcomeOf(row: Row, outcome: Option<Outcome>): PerRow {
    match outcome
    case None => Failed(row, "no result line returned from batch")
    case Some(Succeeded(text, usage)) => Okay(row, Generated(text, usage, false))
    case Some(Errored(error)) => Failed(row, error)
    case Some(Canceled) => Failed(row, "request canceled")
    case Some(Expired) => Failed(row, "request expired")
  }

  function SkippedRow(row: Row): PerRow { Okay(row, Generated(None, NO_USAGE, true)) }

  // What the results stream says last about an id.
  function LastFor(lines: seq<Line>, id: string): Option<Outcome> {
    if lines == [] then None
    else if lines[|lines| - 1].customId == id then Some(lines[|lines| - 1].outcome)
    else LastFor(lines[..|lines| - 1], id)
  }

  lemma {:induction false} LastIs(lines: seq<Line>, id: string, o: Outcome)
    ensures LastFor(lines, id) == Some(o)
            <==> exists i :: 0 <= i < |lines| && lines[i] == Line(id, o)
                             && forall j :: i < j < |lines| ==> lines[j].customId != id
  {
    if lines != [] {
      var n := |lines| - 1;
      var front := lines[..n];
      LastIs(front, id, o);
      if lines[n].customId != id {
        if i: nat :| i < n && front[i] == Line(id, o) && forall j :: i < j < n ==> front[j].customId != id {
          assert lines[i] == Line(id, o) && forall j :: i < j < n ==> lines[j] == front[j];
        }
        if i: nat :| i < |lines| && lines[i] == Line(id, o) && forall j :: i < j < |lines| ==> lines[j].customId != id {
          assert front[i] == Line(id, o) && forall j :: i < j < n ==> front[j] == lines[j];
        }
      }
    }
  }

  function Lookup(parsed: map<string, Outcome>, id: string): Option<Outcome> {
    if id in parsed then Some(parsed[id]) else None
  }

  method CollectResults(lines: seq<Line>) returns (parsed: map<string, Outcome>)
    ensures forall id :: Lookup(parsed, id) == LastFor(lines, id)
  {
    parsed := map[];
    for i := 0 to |lines|
      invariant forall id :: Lookup(parsed, id) == LastFor(lines[..i], id)
    {
      parsed := parsed[lines[i].customId := lines[i].outcome];
      assert lines[..i + 1][..i] == lines[..i];
    }
    assert lines[..|lines|] == lines;
  }

  function Where(rows: seq<Row>, empty: bool): seq<Row> {
    if rows == [] then []
    else Where(rows[..|rows| - 1], empty) + if rows[|rows| - 1].empty == empty then [rows[|rows| - 1]] else []
  }

  lemma {:induction false} WherePartitions(rows: seq<Row>)
    ensures multiset(Where(rows, true)) + multiset(Where(rows, false)) == multiset(rows)
  {
    if rows != [] {
      var front, last := rows[..|rows| - 1], rows[|rows| - 1];
      WherePartitions(front);
      MultisetAppend(front, last);
      MultisetAppend(Where(front, last.empty), last);
      assert rows == front + [last];
      assert Where(rows, !last.empty) == Where(front, !last.empty);
    }
  }

  function RowsOf(perRow: seq<PerRow>): seq<Row> { seq(|perRow|, i requires 0 <= i < |perRow| => perRow[i].row) }

  // The entry a row must get.
  function EntryOf(row: Row, lines: seq<Line>): PerRow {
    if row.empty then SkippedRow(row) else OutcomeOf(row, LastFor(lines, row.id))
  }

  // A row ends with content exactly when the last line about it, if it was submitted, says that it succeeded: then with
  // that text and usage. Empty rows are skipped at no cost, and every other row has failed.
  lemma EntryIs(row: Row, lines: seq<Line>)
    ensures var entry := EntryOf(row, lines);
            entry.row == row
            && (row.empty ==> entry == Okay(row, Generated(None, Usage(0, 0, 0, 0), true)))
            && (!row.empty ==>
                  (forall text, usage :: entry == Okay(row, Generated(text, usage, false))
                                         <==> LastFor(lines, row.id) == Some(Succeeded(text, usage)))
                  && (entry.Failed? <==> LastFor(lines, row.id).None? || !LastFor(lines, row.id).value.Succeeded?)
                  && (forall e :: LastFor(lines, row.id) == Some(Errored(e)) ==> entry == Failed(row, e))
                  && (LastFor(lines, row.id) == Some(Canceled) ==> entry == Failed(row, "request canceled"))
                  && (LastFor(lines, row.id) == Some(Expired) ==> entry == Failed(row, "request expired"))
                  && (LastFor(lines, row.id) == None ==> entry == Failed(row, "no result line returned from batch")))
  {
  }

  lemma RowsOfAppend(perRow: seq<PerRow>, entry: PerRow)
    ensures RowsOf(perRow + [entry]) == RowsOf(perRow) + [entry.row]
  {
  }

  ghost predicate AllEntries(perRow: seq<PerRow>, lines: seq<Line>) {
    forall i :: 0 <= i < |perRow| ==> perRow[i] == EntryOf(perRow[i].row, lines)
  }

  method Partition(rows: seq<Row>, ghost lines: seq<Line>) returns (perRow: seq<PerRow>, eligible: seq<Row>)
    ensures RowsOf(perRow) == Where(rows, true) && eligible == Where(rows, false)
    ensures AllEntries(perRow, lines)
    ensures forall k :: 0 <= k < |eligible| ==> !eligible[k].empty
  {
    perRow, eligible := [], [];
    for i := 0 to |rows|
      invariant RowsOf(perRow) == Where(rows[..i], true) && eligible == Where(rows[..i], false)
      invariant AllEntries(perRow, lines)
      invariant forall k :: 0 <= k < |eligible| ==> !eligible[k].empty
    {
      assert rows[..i + 1][..i] == rows[..i];
      if rows[i].empty {
        RowsOfAppend(perRow, SkippedRow(rows[i]));
        perRow := perRow + [SkippedRow(rows[i])];
        continue;
      }
      eligible := eligible + [rows[i]];
    }
    assert rows[..|rows|] == rows;
  }

  method Merge(skipped: seq<PerRow>, eligible: seq<Row>, lines: seq<Line>) returns (perRow: seq<PerRow>)
    requires AllEntries(skipped, lines) && forall k :: 0 <= k < |eligible| ==> !eligible[k].empty
    ensures RowsOf(perRow) == RowsOf(skipped) + eligible
    ensures AllEntries(perRow, lines)
  {
    var parsed := CollectResults(lines);
    perRow := skipped;
    for i := 0 to |eligible|
      invariant RowsOf(perRow) == RowsOf(skipped) + eligible[..i]
      invariant AllEntries(perRow, lines)
    {
      var entry := OutcomeOf(eligible[i], Lookup(parsed, eligible[i].id));
      RowsOfAppend(perRow, entry);
      assert entry.row == eligible[i] && entry == EntryOf(entry.row, lines);
      assert eligible[..i + 1] == eligible[..i] + [eligible[i]];
      perRow := perRow + [entry];
    }
    assert eligible[..|eligible|] == eligible;
  }

  // The empty rows first and then the submitted ones, each in their order; each row once, with its own outcome.
  method RunBatch(rows: seq<Row>, lines: seq<Line>) returns (perRow: seq<PerRow>)
    ensures RowsOf(perRow) == Where(rows, true) + Where(rows, false)
    ensures multiset(RowsOf(perRow)) == multiset(rows)
    ensures AllEntries(perRow, lines)
  {
    WherePartitions(rows);
    var skipped, eligible := Partition(rows, lines);
    if eligible == [] {
      return skipped;
    }
    perRow := Merge(skipped, eligible, lines);
  }

  // The realtime path under every interleaving of its workers: the finished pool holds each row's own outcome.
  lemma RealtimeIsPerRow(perRow: seq<PerRow>, concurrency: nat, schedule: seq<nat>)
    requires concurrency >= 1
    ensures var s := WorkerPool.Run(WorkerPool.Start(WorkerPool.ClaimFirst, concurrency, |perRow|), perRow,
                                    WorkerPool.ClaimFirst, schedule);
            WorkerPool.AllDone(s) ==> s.results == seq(|perRow|, i requires 0 <= i < |perRow| => Some(perRow[i]))
  {
    WorkerPool.PoolIsMap(perRow, WorkerPool.ClaimFirst, concurrency, schedule);
  }

  // ---------- The tally ----------

  datatype Class = Written | SkippedEmpty | Failure | Unwritten

  function ClassOf(entry: PerRow, apply: bool): Class {
    if entry.Failed? then Failure
    else if entry.result.skipped then SkippedEmpty
    else if apply then Written
    else Unwritten
  }

  function CountClass(perRow: seq<PerRow>, apply: bool, c: Class): nat {
    if perRow == [] then 0
    else CountClass(perRow[..|perRow| - 1], apply, c) + if ClassOf(perRow[|perRow| - 1], apply) == c then 1 else 0
  }

  lemma {:induction false} ClassesCover(perRow: seq<PerRow>, apply: bool)
    ensures CountClass(perRow, apply, Written) + CountClass(perRow, apply, SkippedEmpty)
            + CountClass(perRow, apply, Failure) + CountClass(perRow, apply, Unwritten) == |perRow|
    ensures CountClass(perRow, apply, if apply then Unwritten else Written) == 0
  {
    if perRow != [] {
      ClassesCover(perRow[..|perRow| - 1], apply);
    }
  }

  function Of(perRow: seq<PerRow>, apply: bool, c: Class): set<int> {
    set i | 0 <= i < |perRow| && ClassOf(perRow[i], apply) == c
  }

  lemma OfLast(perRow: seq<PerRow>, apply: bool, c: Class)
    requires perRow != []
    ensures var n := |perRow| - 1;
            n !in Of(perRow[..n], apply, c)
            && Of(perRow, apply, c) == Of(perRow[..n], apply, c) + if ClassOf(perRow[n], apply) == c then {n} else {}
  {
    var n := |perRow| - 1;
    assert forall i :: 0 <= i < n ==> perRow[..n][i] == perRow[i];
  }

  lemma {:induction false} CountClassIs(perRow: seq<PerRow>, apply: bool, c: Class)
    ensures CountClass(perRow, apply, c) == |Of(perRow, apply, c)|
  {
    if perRow != [] {
      CountClassIs(perRow[..|perRow| - 1], apply, c);
      OfLast(perRow, apply, c);
    }
  }

  // The classes in plain terms: what failed, what was skipped, and in an applied run the rest.
  lemma ClassesAre(perRow: seq<PerRow>, apply: bool)
    ensures CountClass(perRow, apply, Failure) == |set i | 0 <= i < |perRow| && perRow[i].Failed?|
    ensures CountClass(perRow, apply, SkippedEmpty)
         == |set i | 0 <= i < |perRow| && perRow[i].Okay? && perRow[i].result.skipped|
    ensures CountClass(perRow, apply, Written)
         == |set i | 0 <= i < |perRow| && apply && perRow[i].Okay? && !perRow[i].result.skipped|
  {
    CountClassIs(perRow, apply, Failure);
    CountClassIs(perRow, apply, SkippedEmpty);
    CountClassIs(perRow, apply, Written);
    assert Of(perRow, apply, Failure)
        == set i | 0 <= i < |perRow| && perRow[i].Failed?;
    assert Of(perRow, apply, SkippedEmpty)
        == set i | 0 <= i < |perRow| && perRow[i].Okay? && perRow[i].result.skipped;
    assert Of(perRow, apply, Written)
        == set i | 0 <= i < |perRow| && apply && perRow[i].Okay? && !perRow[i].result.skipped;
  }

  datatype Payload = Payload(id: string, text: Option<string>)

  function Payloads(perRow: seq<PerRow>): seq<Payload> {
    if perRow == [] then []
    else
      var last := perRow[|perRow| - 1];
      Payloads(perRow[..|perRow| - 1])
      + if ClassOf(last, true) == Written then [Payload(last.row.id, last.result.text)] else []
  }

  function Add(u: Usage, v: Usage): Usage {
    Usage(u.input + v.input, u.output + v.output, u.cacheCreate + v.cacheCreate, u.cacheRead + v.cacheRead)
  }

  function TotalUsage(perRow: seq<PerRow>): Usage {
    if perRow == [] then NO_USAGE
    else
      var last := perRow[|perRow| - 1];
      if last.Failed? then TotalUsage(perRow[..|perRow| - 1])
      else Add(TotalUsage(perRow[..|perRow| - 1]), last.result.usage)
  }

  // Every row is counted in exactly one of the three tallies of an applied run, and has one sample line.
  method Tally(perRow: seq<PerRow>, apply: bool)
    returns (written: nat, skippedEmpty: nat, failed: nat, pending: seq<Payload>, total: Usage, samples: seq<string>)
    ensures written == |pending| && pending == if apply then Payloads(perRow) else []
    ensures written == CountClass(perRow, apply, Written)
    ensures skippedEmpty == CountClass(perRow, apply, SkippedEmpty)
    ensures failed == CountClass(perRow, apply, Failure)
    ensures written + skippedEmpty + failed <= |perRow|
    ensures apply ==> written + skippedEmpty + failed == |perRow|
    ensures total == TotalUsage(perRow)
    ensures samples == seq(|perRow|, i requires 0 <= i < |perRow| => perRow[i].row.id)
  {
    skippedEmpty, failed, pending, total, samples := 0, 0, [], NO_USAGE, [];
    for i := 0 to |perRow|
      invariant pending == if apply then Payloads(perRow[..i]) else []
      invariant |pending| == CountClass(perRow[..i], apply, Written)
      invariant skippedEmpty == CountClass(perRow[..i], apply, SkippedEmpty)
      invariant failed == CountClass(perRow[..i], apply, Failure)
      invariant total == TotalUsage(perRow[..i])
      invariant samples == seq(i, k requires 0 <= k < i => perRow[k].row.id)
    {
      var entry := perRow[i];
      assert perRow[..i + 1][..i] == perRow[..i];
      samples := samples + [entry.row.id];
      if entry.Failed? {
        failed := failed + 1;
        continue;
      }
      total := Add(total, entry.result.usage);
      if entry.result.skipped {
        skippedEmpty := skippedEmpty + 1;
      } else if apply {
        pending := pending + [Payload(entry.row.id, entry.result.text)];
      }
    }
    assert perRow[..|perRow|] == perRow;
    written := |pending|;
    ClassesCover(perRow, apply);
  }

  // ---------- The writes ----------

  type Table = map<string, Option<string>>

  // The table after the pooled writes landed in the given order.
  function Apply(table: Table, pending: seq<Payload>, order: seq<nat>): Table
    requires forall k :: 0 <= k < |order| ==> order[k] < |pending|
  {
    if order == [] then table
    else
      var p := pending[order[|order| - 1]];
      Apply(table, pending, order[..|order| - 1])[p.id := p.text]
  }

  ghost predicate DistinctRows(rows: seq<Row>) { forall i, j :: 0 <= i < j < |rows| ==> rows[i].id != rows[j].id }

  lemma {:induction false} AppliedAt(table: Table, pending: seq<Payload>, order: seq<nat>, id: string)
    requires forall k :: 0 <= k < |order| ==> order[k] < |pending|
    requires forall i, j :: 0 <= i < j < |pending| ==> pending[i].id != pending[j].id
    ensures var after := Apply(table, pending, order);
            (forall k :: 0 <= k < |order| && pending[order[k]].id == id ==>
               id in after && after[id] == pending[order[k]].text)
            && ((forall k :: 0 <= k < |order| ==> pending[order[k]].id != id) ==>
                  (id in after <==> id in table) && (id in table ==> after[id] == table[id]))
  {
    if order != [] {
      var n := |order| - 1;
      AppliedAt(table, pending, order[..n], id);
      assert forall k :: 0 <= k < n ==> order[..n][k] == order[k];
    }
  }

  predicate IsPayload(p: Payload, entry: PerRow) {
    ClassOf(entry, true) == Written && p == Payload(entry.row.id, entry.result.text)
  }

  // The payloads are those of the entries with content, one each.
  lemma {:induction false} PayloadsComeFrom(perRow: seq<PerRow>, p: Payload)
    ensures p in Payloads(perRow) <==> exists i :: 0 <= i < |perRow| && IsPayload(p, perRow[i])
  {
    if perRow != [] {
      var n := |perRow| - 1;
      PayloadsComeFrom(perRow[..n], p);
      if p in Payloads(perRow[..n]) {
        var i :| 0 <= i < n && IsPayload(p, perRow[..n][i]);
        assert IsPayload(p, perRow[i]);
      } else {
        assert forall i :: 0 <= i < n ==> perRow[..n][i] == perRow[i];
        assert p in Payloads(perRow) <==> IsPayload(p, perRow[n]);
      }
    }
  }

  lemma {:induction false} PayloadsDistinct(perRow: seq<PerRow>)
    requires DistinctRows(RowsOf(perRow))
    ensures forall k, l :: 0 <= k < l < |Payloads(perRow)| ==> Payloads(perRow)[k].id != Payloads(perRow)[l].id
  {
    if perRow != [] {
      var n := |perRow| - 1;
      var prefix := perRow[..n];
      assert RowsOf(prefix) == RowsOf(perRow)[..n];
      PayloadsDistinct(prefix);
      forall k | 0 <= k < |Payloads(prefix)| ensures Payloads(prefix)[k].id != perRow[n].row.id {
        PayloadsComeFrom(prefix, Payloads(prefix)[k]);
        var i :| 0 <= i < n && IsPayload(Payloads(prefix)[k], prefix[i]);
        assert RowsOf(perRow)[i] == prefix[i].row && RowsOf(perRow)[n] == perRow[n].row;
      }
    }
  }

  // An applied run over distinct rows, with the writes landing in any order: each row that got content has exactly
  // that content, and every other row of the table keeps what it had.
  lemma RunWrites(perRow: seq<PerRow>, table: Table, order: seq<nat>, i: nat)
    requires DistinctRows(RowsOf(perRow)) && i < |perRow|
    requires forall k :: 0 <= k < |order| ==> order[k] < |Payloads(perRow)|
    requires forall k :: 0 <= k < |Payloads(perRow)| ==> k in order
    ensures var after, id := Apply(table, Payloads(perRow), order), perRow[i].row.id;
            if perRow[i].Okay? && !perRow[i].result.skipped then id in after && after[id] == perRow[i].result.text
            else (id in after <==> id in table) && (id in table ==> after[id] == table[id])
  {
    var pending, id := Payloads(perRow), perRow[i].row.id;
    PayloadsDistinct(perRow);
    AppliedAt(table, pending, order, id);
    if ClassOf(perRow[i], true) == Written {
      PayloadsComeFrom(perRow, Payload(id, perRow[i].result.text));
      assert IsPayload(Payload(id, perRow[i].result.text), perRow[i]);
      var k :| 0 <= k < |pending| && pending[k] == Payload(id, perRow[i].result.text);
      assert k in order;
    } else {
      forall k | 0 <= k < |order| ensures pending[order[k]].id != id {
        PayloadsComeFrom(perRow, pending[order[k]]);
        var j :| 0 <= j < |perRow| && IsPayload(pending[order[k]], perRow[j]);
        assert RowsOf(perRow)[i] == perRow[i].row && RowsOf(perRow)[j] == perRow[j].row;
      }
    }
  }
}
