// Keyset pagination of the release feed, and the merge of its per-member queries.
module FeedPages {
  import opened Strings
  import opened FeedCursor

  ghost predicate Sorted(rows: seq<Row>) {
    forall i, j :: 0 <= i < j < |rows| ==> Before(rows[i], rows[j])
  }

  // `rows` is what ORDER BY … LIMIT k returns over the selected set.
  ghost predicate IsTop(selected: set<Row>, k: nat, rows: seq<Row>) {
    Sorted(rows) && |rows| <= k
    && (forall r :: r in rows ==> r in selected)
    && (forall r :: r in selected && r !in rows ==> |rows| == k && forall x :: x in rows ==> Before(x, r))
  }

  lemma {:induction false} TopExists(selected: set<Row>, k: nat) returns (rows: seq<Row>)
    ensures IsTop(selected, k, rows)
    decreases k
  {
    if k == 0 || selected == {} {
      rows := [];
    } else {
      var first := First(selected);
      var rest := TopExists(selected - {first}, k - 1);
      rows := [first] + rest;
      forall i, j | 0 <= i < j < |rows| ensures Before(rows[i], rows[j]) {
        assert rows[j] == rest[j - 1] && rest[j - 1] in selected - {first};
      }
      forall r | r in selected && r !in rows
        ensures |rows| == k && forall x :: x in rows ==> Before(x, r)
      {
        assert r in selected - {first} && r !in rest;
      }
    }
  }

  lemma {:induction false} First(selected: set<Row>) returns (first: Row)
    requires selected != {}
    ensures first in selected && forall r :: r in selected && r != first ==> Before(first, r)
    decreases |selected|
  {
    first :| first in selected;
    if selected != {first} {
      var rest := selected - {first};
      var other := First(rest);
      BeforeTotal(first, other);
      if Before(other, first) {
        first := other;
      } else {
        forall r | r in selected && r != first ensures Before(first, r) {
          if r != other {
            BeforeTransitive(first, other, r);
          }
        }
      }
    }
  }

  // ORDER BY is total on keys, so a query has one answer.
  lemma {:induction false} TopUnique(selected: set<Row>, k: nat, a: seq<Row>, b: seq<Row>)
    requires IsTop(selected, k, a) && IsTop(selected, k, b)
    ensures a == b
    decreases k
  {
    assert a != [] ==> a[0] in selected;
    assert b != [] ==> b[0] in selected;
    if a != [] && b != [] {
      TopHead(selected, k, a);
      TopHead(selected, k, b);
      if a[0] != b[0] {
        BeforeAsymmetric(a[0], b[0]);
      }
      TopTail(selected, k, a);
      TopTail(selected, k, b);
      TopUnique(selected - {a[0]}, k - 1, a[1..], b[1..]);
      assert a == [a[0]] + a[1..] && b == [b[0]] + b[1..];
    }
  }

  lemma TopHead(selected: set<Row>, k: nat, a: seq<Row>)
    requires IsTop(selected, k, a) && a != []
    ensures a[0] in selected && forall r :: r in selected && r != a[0] ==> Before(a[0], r)
  {
    forall r | r in selected && r != a[0] ensures Before(a[0], r) {
      if r in a {
        var i :| 0 <= i < |a| && a[i] == r;
        assert Before(a[0], a[i]);
      }
    }
  }

  lemma TopTail(selected: set<Row>, k: nat, a: seq<Row>)
    requires IsTop(selected, k, a) && a != []
    ensures IsTop(selected - {a[0]}, k - 1, a[1..])
  {
    forall r | r in a[1..] ensures r in selected - {a[0]} {
      var i :| 1 <= i < |a| && a[i] == r;
      assert Before(a[0], a[i]);
      BeforeIrreflexive(r);
    }
    assert a == [a[0]] + a[1..];
  }

  // ---------- Pages ----------

  datatype Page = Page(rows: seq<Row>, hasMore: bool, next: Option<string>)

  // A page asks for one row more than its limit and keeps the rest for the next one.
  function Cut(results: seq<Row>, limit: nat): Page {
    var hasMore := |results| > limit;
    var rows := if hasMore then results[..limit] else results;
    Page(rows, hasMore, if hasMore && |rows| > 0 then Some(BuildFeedCursor(rows[|rows| - 1])) else None)
  }

  ghost function Matching(db: set<Row>, cursor: Option<string>): set<Row> {
    set r | r in db && Selects(FeedCursorSql(cursor), r)
  }

  ghost predicate Serves(db: set<Row>, cursor: Option<string>, limit: nat, page: Page) {
    exists results :: IsTop(Matching(db, cursor), limit + 1, results) && page == Cut(results, limit)
  }

  // LIMIT k keeps k rows, or all when there are fewer.
  lemma TopSize(selected: set<Row>, k: nat, rows: seq<Row>)
    requires IsTop(selected, k, rows)
    ensures |rows| == if |selected| < k then |selected| else k
  {
    var kept := set r | r in rows;
    SortedIsDistinct(rows);
    SetOfSeq(rows);
    SubsetSize(kept, selected);
    if |rows| < k {
      forall r | r in selected ensures r in kept {
        assert r in rows;
      }
      assert kept == selected;
    }
  }

  lemma TopPrefix(selected: set<Row>, k: nat, rows: seq<Row>)
    requires IsTop(selected, k + 1, rows)
    ensures IsTop(selected, k, if |rows| > k then rows[..k] else rows)
  {
    var top := if |rows| > k then rows[..k] else rows;
    forall r | r in selected && r !in top ensures |top| == k && forall x :: x in top ==> Before(x, r) {
      if r in rows {
        var i :| 0 <= i < |rows| && rows[i] == r;
        assert i == k;
      }
    }
  }

  // A served page: the first `limit` of the rows that match. It says there is more exactly when there is a row it left
  // out, and then, and only then, it gives a cursor: that of its last row.
  lemma PageIsExact(db: set<Row>, cursor: Option<string>, limit: nat, page: Page)
    requires Serves(db, cursor, limit, page)
    ensures IsTop(Matching(db, cursor), limit, page.rows)
    ensures page.hasMore <==> |Matching(db, cursor)| > limit
    ensures |page.rows| == if |Matching(db, cursor)| < limit then |Matching(db, cursor)| else limit
    ensures limit >= 1 ==> (page.next.Some? <==> |Matching(db, cursor)| > limit)
    ensures page.next.Some? ==> page.rows != [] && page.next == Some(BuildFeedCursor(page.rows[|page.rows| - 1]))
  {
    var results :| IsTop(Matching(db, cursor), limit + 1, results) && page == Cut(results, limit);
    TopSize(Matching(db, cursor), limit + 1, results);
    TopPrefix(Matching(db, cursor), limit, results);
    TopSize(Matching(db, cursor), limit, page.rows);
  }

  // A client that follows nextCursor; the table may be any other set of rows at each request.
  ghost predicate Follows(cursor: Option<string>, dbs: seq<set<Row>>, pages: seq<Page>, limit: nat)
    decreases |pages|
  {
    |dbs| == |pages|
    && (pages != [] ==>
          Serves(dbs[0], cursor, limit, pages[0])
          && (|pages| > 1 ==> pages[0].next.Some? && Follows(pages[0].next, dbs[1..], pages[1..], limit)))
  }

  function Emitted(pages: seq<Page>): seq<Row> {
    if pages == [] then [] else pages[0].rows + Emitted(pages[1..])
  }

  ghost predicate AllWireSafe(dbs: seq<set<Row>>) {
    forall i, r :: 0 <= i < |dbs| && r in dbs[i] ==> WireSafe(r)
  }

  // Present in the table at every request of the walk.
  ghost predicate Stable(dbs: seq<set<Row>>, r: Row) {
    forall i :: 0 <= i < |dbs| ==> r in dbs[i]
  }

  ghost predicate Ahead(from: Option<Row>, r: Row) { from.None? || Before(from.value, r) }

  function CursorOf(from: Option<Row>): Option<string> {
    if from.None? then None else Some(BuildFeedCursor(from.value))
  }

  lemma OnePage(from: Option<Row>, db: set<Row>, limit: nat, page: Page)
    requires limit >= 1 && Serves(db, CursorOf(from), limit, page)
    requires from.Some? ==> WireSafe(from.value)
    ensures Sorted(page.rows) && (page.next.Some? <==> page.hasMore)
    ensures forall r :: r in page.rows ==> r in db && Ahead(from, r)
    ensures page.next.Some? ==> page.rows != [] && page.next == Some(BuildFeedCursor(page.rows[|page.rows| - 1]))
    ensures forall r :: r in db && Ahead(from, r) ==>
              r in page.rows || (page.next.Some? && Before(page.rows[|page.rows| - 1], r))
  {
    var cursor := CursorOf(from);
    var results :| IsTop(Matching(db, cursor), limit + 1, results) && page == Cut(results, limit);
    forall r ensures r in Matching(db, cursor) <==> r in db && Ahead(from, r) {
      if from.Some? {
        KeysetIsExact(from.value, r);
      } else {
        assert ParseFeedCursorKey(None) == None;
      }
    }
    forall r | r in db && Ahead(from, r)
      ensures r in page.rows || (page.next.Some? && Before(page.rows[|page.rows| - 1], r))
    {
      if r in results {
        var i :| 0 <= i < |results| && results[i] == r;
        if page.hasMore && i >= limit {
          assert Before(results[limit - 1], results[i]);
        } else {
          assert page.rows[i] == r;
        }
      } else {
        assert results[limit - 1] in results;
      }
    }
  }

  lemma {:induction false} WalkSorted(from: Option<Row>, dbs: seq<set<Row>>, pages: seq<Page>, limit: nat)
    requires limit >= 1 && pages != [] && AllWireSafe(dbs)
    requires from.Some? ==> WireSafe(from.value)
    requires Follows(CursorOf(from), dbs, pages, limit)
    ensures Sorted(Emitted(pages))
    ensures forall r :: r in Emitted(pages) ==> Ahead(from, r)
    decreases |pages|
  {
    var page := pages[0];
    OnePage(from, dbs[0], limit, page);
    if |pages| == 1 {
      assert Emitted(pages) == page.rows;
    } else {
      var last := page.rows[|page.rows| - 1];
      assert last in page.rows;
      WalkSorted(Some(last), dbs[1..], pages[1..], limit);
      var rest := Emitted(pages[1..]);
      SortedAppend(page.rows, rest);
      forall r | r in rest ensures Ahead(from, r) {
        if from.Some? {
          BeforeTransitive(from.value, last, r);
        }
      }
    }
  }

  // The row has come out, or is still ahead of the cursor that the last page gives.
  predicate Covered(pages: seq<Page>, r: Row)
    requires pages != []
  {
    var last := pages[|pages| - 1];
    r in Emitted(pages) || (last.next.Some? && last.rows != [] && Before(last.rows[|last.rows| - 1], r))
  }

  lemma {:induction false} WalkCovers(from: Option<Row>, dbs: seq<set<Row>>, pages: seq<Page>, limit: nat, r: Row)
    requires limit >= 1 && pages != [] && AllWireSafe(dbs)
    requires from.Some? ==> WireSafe(from.value)
    requires Follows(CursorOf(from), dbs, pages, limit)
    requires Stable(dbs, r) && Ahead(from, r)
    ensures Covered(pages, r)
    decreases |pages|
  {
    var page := pages[0];
    OnePage(from, dbs[0], limit, page);
    StableTail(dbs);
    if |pages| == 1 {
      assert Emitted(pages) == page.rows;
    } else if r !in page.rows {
      var last := page.rows[|page.rows| - 1];
      assert last in page.rows;
      WalkCovers(Some(last), dbs[1..], pages[1..], limit, r);
    }
  }

  // The traversal theorem, from any cursor: strictly ordered output, nothing present throughout is lost.
  lemma WalkFrom(from: Option<Row>, dbs: seq<set<Row>>, pages: seq<Page>, limit: nat)
    requires limit >= 1 && pages != [] && AllWireSafe(dbs)
    requires from.Some? ==> WireSafe(from.value)
    requires Follows(CursorOf(from), dbs, pages, limit)
    ensures Sorted(Emitted(pages))
    ensures forall r :: r in Emitted(pages) ==> Ahead(from, r)
    ensures forall r :: Stable(dbs, r) && Ahead(from, r) ==> Covered(pages, r)
  {
    WalkSorted(from, dbs, pages, limit);
    forall r | Stable(dbs, r) && Ahead(from, r) ensures Covered(pages, r) {
      WalkCovers(from, dbs, pages, limit, r);
    }
  }

  lemma SortedAppend(a: seq<Row>, b: seq<Row>)
    requires Sorted(a) && Sorted(b) && a != []
    requires forall r :: r in b ==> Before(a[|a| - 1], r)
    ensures Sorted(a + b)
  {
    forall i, j | 0 <= i < |a| <= j < |a + b| ensures Before((a + b)[i], (a + b)[j]) {
      assert b[j - |a|] in b;
      if i < |a| - 1 {
        BeforeTransitive(a[i], a[|a| - 1], b[j - |a|]);
      }
    }
  }

  lemma StableTail(dbs: seq<set<Row>>)
    requires dbs != []
    ensures forall r :: Stable(dbs, r) ==> r in dbs[0] && Stable(dbs[1..], r)
  {
    forall r, i | Stable(dbs, r) && 0 <= i < |dbs[1..]| ensures r in dbs[1..][i] {
      assert dbs[1..][i] == dbs[i + 1];
    }
  }

  // A walk from the head that ends (no nextCursor): strictly descending, no row twice, every stable row there.
  lemma CompleteWalk(dbs: seq<set<Row>>, pages: seq<Page>, limit: nat)
    requires limit >= 1 && pages != [] && AllWireSafe(dbs)
    requires Follows(None, dbs, pages, limit)
    ensures Sorted(Emitted(pages))
    ensures forall i, j :: 0 <= i < j < |Emitted(pages)| ==> Emitted(pages)[i] != Emitted(pages)[j]
    ensures pages[|pages| - 1].next.None? ==> forall r :: Stable(dbs, r) ==> r in Emitted(pages)
  {
    WalkFrom(None, dbs, pages, limit);
    forall i, j | 0 <= i < j < |Emitted(pages)| ensures Emitted(pages)[i] != Emitted(pages)[j] {
      BeforeIrreflexive(Emitted(pages)[i]);
    }
  }

  // Over one unchanging table the walk is the whole table in feed order.
  lemma WalkOfOneTable(db: set<Row>, pages: seq<Page>, limit: nat)
    requires limit >= 1 && pages != [] && (forall r :: r in db ==> WireSafe(r))
    requires Follows(None, seq(|pages|, i => db), pages, limit)
    requires pages[|pages| - 1].next.None?
    ensures IsTop(db, |Emitted(pages)|, Emitted(pages))
  {
    var dbs := seq(|pages|, i => db);
    CompleteWalk(dbs, pages, limit);
    EmittedFrom(None, db, pages, limit);
    forall r | r in db ensures r in Emitted(pages) {
      assert Stable(dbs, r);
    }
  }

  lemma {:induction false} EmittedFrom(cursor: Option<string>, db: set<Row>, pages: seq<Page>, limit: nat)
    requires Follows(cursor, seq(|pages|, i => db), pages, limit)
    ensures forall r :: r in Emitted(pages) ==> r in db
    decreases |pages|
  {
    if pages != [] {
      var results :| IsTop(Matching(db, cursor), limit + 1, results) && pages[0] == Cut(results, limit);
      assert forall r :: r in pages[0].rows ==> r in results;
      if |pages| > 1 {
        assert seq(|pages|, i => db)[1..] == seq(|pages[1..]|, i => db);
        EmittedFrom(pages[0].next, db, pages[1..], limit);
      }
    }
  }

  // Over an unchanging table the next page is never empty.
  lemma NextHasRows(from: Option<Row>, db: set<Row>, limit: nat, page: Page)
    requires limit >= 1 && Serves(db, CursorOf(from), limit, page) && page.next.Some?
    requires (from.Some? ==> WireSafe(from.value)) && forall r :: r in db ==> WireSafe(r)
    ensures page.rows != [] && page.rows[|page.rows| - 1] in db
    ensures exists r :: r in db && Before(page.rows[|page.rows| - 1], r)
  {
    var cursor := CursorOf(from);
    OnePage(from, db, limit, page);
    PageIsExact(db, cursor, limit, page);
    var last := page.rows[|page.rows| - 1];
    assert last in page.rows;
    if forall r :: r in Matching(db, cursor) ==> r in page.rows {
      SetOfSeq(page.rows);
      SubsetSize(Matching(db, cursor), set r | r in page.rows);
    }
    var r :| r in Matching(db, cursor) && r !in page.rows;
  }

  // The walk goes on from a full page, over rows that are left.
  lemma NextPage(from: Option<Row>, db: set<Row>, pages: seq<Page>, limit: nat) returns (last: Row, next: Row)
    requires limit >= 1 && |pages| > 1 && forall r :: r in db ==> WireSafe(r)
    requires from.Some? ==> WireSafe(from.value)
    requires Follows(CursorOf(from), seq(|pages|, i => db), pages, limit)
    ensures last in db && next in db && Before(last, next) && |pages[0].rows| == limit
    ensures Follows(CursorOf(Some(last)), seq(|pages[1..]|, i => db), pages[1..], limit)
  {
    var page := pages[0];
    assert seq(|pages|, i => db)[0] == db;
    NextHasRows(from, db, limit, page);
    PageIsExact(db, CursorOf(from), limit, page);
    last := page.rows[|page.rows| - 1];
    next :| next in db && Before(last, next);
    assert seq(|pages|, i => db)[1..] == seq(|pages[1..]|, i => db);
  }

  lemma {:induction false} LastPageHasRows(from: Option<Row>, db: set<Row>, pages: seq<Page>, limit: nat, next: Row)
    requires limit >= 1 && pages != [] && forall r :: r in db ==> WireSafe(r)
    requires from.Some? ==> WireSafe(from.value)
    requires Follows(CursorOf(from), seq(|pages|, i => db), pages, limit)
    requires next in db && Ahead(from, next)
    ensures |Emitted(pages)| >= (|pages| - 1) * limit + 1 && pages[|pages| - 1].rows != []
    decreases |pages|
  {
    if |pages| == 1 {
      OnePage(from, db, limit, pages[0]);
      assert Emitted(pages) == pages[0].rows;
    } else {
      var last, r := NextPage(from, db, pages, limit);
      LastPageHasRows(Some(last), db, pages[1..], limit, r);
      OneMore(|pages| - 1, limit);
    }
  }

  lemma OneMore(n: nat, limit: nat)
    requires n >= 1
    ensures n * limit == limit + (n - 1) * limit
  {
  }

  // A walk cannot go on for ever: over an unchanging table no page is empty, the last one included, so there are never
  // more pages than the rows fill.
  lemma WalkEnds(db: set<Row>, pages: seq<Page>, limit: nat)
    requires limit >= 1 && pages != [] && (forall r :: r in db ==> WireSafe(r))
    requires Follows(None, seq(|pages|, i => db), pages, limit)
    ensures db == {} ==> |pages| == 1
    ensures db != {} ==> (|pages| - 1) * limit < |db| && pages[|pages| - 1].rows != []
  {
    var dbs := seq(|pages|, i => db);
    if db == {} {
      PageIsExact(db, None, limit, pages[0]);
    } else {
      var first :| first in db;
      LastPageHasRows(None, db, pages, limit, first);
      CompleteWalk(dbs, pages, limit);
      EmittedFrom(None, db, pages, limit);
      SetOfSeq(Emitted(pages));
      var emitted := set r | r in Emitted(pages);
      SubsetSize(emitted, db);
    }
  }

  // ---------- The page size ----------

  const DEFAULT_FEED_LIMIT: nat := 50
  const MAX_FEED_LIMIT: nat := 200

  function ParseFeedLimit(limit: Option<real>): nat {
    if limit.None? || limit.value <= 0.0 then DEFAULT_FEED_LIMIT
    else if limit.value.Floor < MAX_FEED_LIMIT then limit.value.Floor else MAX_FEED_LIMIT
  }

  // The slice sizes that the tools' input schemas let through: absent, or a whole number from 1 to 200.
  predicate Admitted(requested: Option<nat>) { requested.None? || (1 <= requested.value && requested.value <= 200) }

  // A tool fills in its own default and has the result read as a limit.
  function PageSize(requested: Option<nat>, default: nat): nat {
    ParseFeedLimit(Some((if requested.Some? then requested.value else default) as real))
  }

  // Every admitted request gets exactly the slice size it asks for, which is at least 1.
  lemma AdmittedPageSize(requested: Option<nat>, default: nat)
    requires (requested.Some? ==> 1 <= requested.value <= 200) && 1 <= default <= 200
    ensures Admitted(requested)
    ensures PageSize(requested, default) == if requested.Some? then requested.value else default
    ensures PageSize(requested, default) >= 1
  {
  }

  // So a client of the tools that follows nextCursor to its end sees the feed, whatever slice size it asked for.
  lemma AdmittedWalk(requested: Option<nat>, default: nat, dbs: seq<set<Row>>, pages: seq<Page>)
    requires Admitted(requested) && 1 <= default <= 200
    requires pages != [] && AllWireSafe(dbs) && Follows(None, dbs, pages, PageSize(requested, default))
    ensures Sorted(Emitted(pages))
    ensures pages[|pages| - 1].next.None? ==> forall r :: Stable(dbs, r) ==> r in Emitted(pages)
  {
    AdmittedPageSize(requested, default);
    CompleteWalk(dbs, pages, PageSize(requested, default));
  }

  // For numbers that the schemas reject: the page size would be 0 exactly for a fraction below one…
  lemma FeedLimitPositive(limit: Option<real>)
    ensures limit.None? || limit.value <= 0.0 ==> ParseFeedLimit(limit) == 50
    ensures limit.Some? && 0.0 < limit.value < 200.0 ==>
              ParseFeedLimit(limit) as real <= limit.value < ParseFeedLimit(limit) as real + 1.0
    ensures limit.Some? && limit.value >= 200.0 ==> ParseFeedLimit(limit) == 200
    ensures ParseFeedLimit(limit) == 0 <==> limit.Some? && 0.0 < limit.value < 1.0
  {
    if limit.Some? && limit.value >= 1.0 {
      assert limit.value.Floor >= 1;
    }
  }

  // … and then a non-empty feed reports more rows but gives neither rows nor a cursor.
  lemma ZeroLimitStalls(db: set<Row>, page: Page)
    requires Serves(db, None, 0, page)
    ensures page == Page([], db != {}, None)
  {
    var results :| IsTop(Matching(db, None), 1, results) && page == Cut(results, 0);
    assert ParseFeedCursorKey(None) == None;
    assert Matching(db, None) == db;
    assert results != [] ==> results[0] in db && results[..0] == [];
    if db != {} {
      var r :| r in db;
      assert r in results || |results| == 1;
    }
  }

  // ---------- Collections: one query per chunk of members, merged ----------

  function CompareText(a: string, b: string): int {
    if Less(b, a) then -1 else if Less(a, b) then 1 else 0
  }

  function CompareRows(a: Row, b: Row): int {
    var aDated := if a.pub.Some? then 0 else 1;
    var bDated := if b.pub.Some? then 0 else 1;
    if aDated != bDated then aDated - bDated
    else if a.pub != b.pub then CompareText(a.pub.value, b.pub.value)
    else if a.fet != b.fet then CompareText(a.fet, b.fet)
    else CompareText(a.id, b.id)
  }

  // The comparator sorts as the ORDER BY does.
  lemma CompareIsBefore(a: Row, b: Row)
    ensures CompareRows(a, b) < 0 <==> Before(a, b)
    ensures CompareRows(a, b) == 0 <==> a == b
  {
    LessTotal(a.fet, b.fet);
    LessTotal(a.id, b.id);
    LessIrreflexive(a.fet);
    LessIrreflexive(a.id);
    if a.pub.Some? && b.pub.Some? {
      LessTotal(a.pub.value, b.pub.value);
      LessIrreflexive(a.pub.value);
    }
  }

  function Insert(r: Row, rows: seq<Row>): seq<Row> {
    if rows == [] then [r]
    else if CompareRows(r, rows[0]) <= 0 then [r] + rows
    else [rows[0]] + Insert(r, rows[1..])
  }

  // Array.prototype.sort with the comparator above.
  function SortRows(rows: seq<Row>): seq<Row> {
    if rows == [] then [] else Insert(rows[0], SortRows(rows[1..]))
  }

  ghost predicate Distinct(rows: seq<Row>) {
    forall i, j :: 0 <= i < j < |rows| ==> rows[i] != rows[j]
  }

  lemma {:induction false} InsertSorted(r: Row, rows: seq<Row>)
    requires Sorted(rows) && r !in rows
    ensures Sorted(Insert(r, rows))
    ensures forall x :: x in Insert(r, rows) <==> x == r || x in rows
    decreases |rows|
  {
    if rows != [] {
      CompareIsBefore(r, rows[0]);
      assert rows == [rows[0]] + rows[1..];
      if Before(r, rows[0]) {
        forall x | x in rows[1..] ensures Before(r, x) {
          var i :| 1 <= i < |rows| && rows[i] == x;
          BeforeTransitive(r, rows[0], x);
        }
      } else {
        BeforeTotal(r, rows[0]);
        InsertSorted(r, rows[1..]);
        forall x | x in Insert(r, rows[1..]) ensures Before(rows[0], x) {
          if x != r {
            var i :| 1 <= i < |rows| && rows[i] == x;
          }
        }
      }
    }
  }

  lemma {:induction false} SortRowsSorts(rows: seq<Row>)
    requires Distinct(rows)
    ensures Sorted(SortRows(rows))
    ensures forall x :: x in SortRows(rows) <==> x in rows
    decreases |rows|
  {
    if rows != [] {
      SortRowsSorts(rows[1..]);
      InsertSorted(rows[0], SortRows(rows[1..]));
      assert rows == [rows[0]] + rows[1..];
    }
  }

  ghost function Union(chunks: seq<set<Row>>): set<Row> {
    set i, r | 0 <= i < |chunks| && r in chunks[i] :: r
  }

  // `id` is the primary key: two rows with one id are one row.
  ghost predicate KeyedById(rows: set<Row>) {
    forall r, s :: r in rows && s in rows && r.id == s.id ==> r == s
  }

  lemma {:induction false} SetOfSeq(rows: seq<Row>)
    ensures |set r | r in rows| <= |rows|
    ensures Distinct(rows) ==> |set r | r in rows| == |rows|
    decreases |rows|
  {
    if rows != [] {
      SetOfSeq(rows[1..]);
      assert rows == [rows[0]] + rows[1..];
      assert (set r | r in rows) == (set r | r in rows[1..]) + {rows[0]};
    }
  }

  lemma SortedIsDistinct(rows: seq<Row>)
    requires Sorted(rows)
    ensures Distinct(rows)
  {
    forall i, j | 0 <= i < j < |rows| ensures rows[i] != rows[j] {
      BeforeIrreflexive(rows[i]);
    }
  }

  // If `n` rows of a sorted list all come before x, then x is not among its first n.
  lemma PositionAfter(sorted: seq<Row>, earlier: seq<Row>, i: nat)
    requires Sorted(sorted) && Sorted(earlier) && i <= |sorted|
    requires forall y :: y in earlier ==> y in sorted && (i < |sorted| ==> Before(y, sorted[i]))
    ensures |earlier| <= i
  {
    forall y | y in earlier ensures y in sorted[..i] {
      var k :| 0 <= k < |sorted| && sorted[k] == y;
      if i <= k {
        BeforeAsymmetric(y, sorted[i]);
      }
    }
    SortedIsDistinct(earlier);
    SetOfSeq(earlier);
    SetOfSeq(sorted[..i]);
    var small, large := set r | r in earlier, set r | r in sorted[..i];
    SubsetSize(small, large);
  }

  lemma SubsetSize(a: set<Row>, b: set<Row>)
    requires a <= b
    ensures |a| <= |b|
  {
    assert b == a + (b - a);
  }

  // Merging the top k of every chunk gives the top k of them all.
  lemma MergeIsTop(chunks: seq<set<Row>>, results: seq<seq<Row>>, k: nat, sorted: seq<Row>)
    requires |chunks| == |results| && forall i :: 0 <= i < |chunks| ==> IsTop(chunks[i], k, results[i])
    requires Sorted(sorted)
    requires forall r :: r in sorted <==> exists i :: 0 <= i < |results| && r in results[i]
    ensures IsTop(Union(chunks), k, if |sorted| > k then sorted[..k] else sorted)
  {
    var top := if |sorted| > k then sorted[..k] else sorted;
    forall r | r in top ensures r in Union(chunks) {
      assert r in sorted;
      var i :| 0 <= i < |results| && r in results[i];
      assert r in chunks[i];
    }
    assert forall at :: 0 <= at < |top| ==> top[at] == sorted[at];
    forall r | r in Union(chunks) && r !in top
      ensures |top| == k && forall x :: x in top ==> Before(x, r)
    {
      if r in sorted {
        var at :| 0 <= at < |sorted| && sorted[at] == r;
      } else {
        var i :| 0 <= i < |chunks| && r in chunks[i];
        assert r !in results[i];
        assert |results[i]| == k;
        PositionAfter(sorted, results[i], |sorted|);
        forall x | x in top ensures Before(x, r) {
          var at :| 0 <= at < k && sorted[at] == x;
          BeforeTotal(x, r);
          if Before(r, x) {
            forall y | y in results[i] ensures Before(y, sorted[at]) {
              BeforeTransitive(y, r, x);
            }
            PositionAfter(sorted, results[i], at);
          }
        }
      }
    }
  }

  // The collection feed: de-duplicate the chunk results by id, sort, keep `limit`.
  method CollectionFeed(ghost chunks: seq<set<Row>>, chunkResults: seq<seq<Row>>, limit: nat) returns (feed: seq<Row>)
    requires |chunks| == |chunkResults| && KeyedById(Union(chunks))
    requires forall i :: 0 <= i < |chunks| ==> IsTop(chunks[i], limit, chunkResults[i])
    ensures IsTop(Union(chunks), limit, feed)
  {
    if |chunkResults| == 1 {
      assert Union(chunks) == chunks[0];
      return chunkResults[0];
    }
    var seen: set<string> := {};
    var merged: seq<Row> := [];
    for c := 0 to |chunkResults|
      invariant Distinct(merged)
      invariant seen == set r | r in merged :: r.id
      invariant forall r :: r in merged ==> r in Union(chunks)
      invariant forall r :: r in merged <==> exists i :: 0 <= i < c && r in chunkResults[i]
    {
      ghost var before := merged;
      for k := 0 to |chunkResults[c]|
        invariant Distinct(merged)
        invariant seen == set r | r in merged :: r.id
        invariant forall r :: r in merged ==> r in Union(chunks)
        invariant forall r :: r in merged <==> r in before || r in chunkResults[c][..k]
      {
        var row := chunkResults[c][k];
        assert row in chunkResults[c];
        assert row in chunks[c];
        if row.id !in seen {
          seen := seen + {row.id};
          merged := merged + [row];
        } else {
          assert row in merged;
        }
        assert chunkResults[c][..k + 1] == chunkResults[c][..k] + [row];
      }
      assert chunkResults[c][..|chunkResults[c]|] == chunkResults[c];
    }
    var sorted := SortRows(merged);
    SortRowsSorts(merged);
    MergeIsTop(chunks, chunkResults, limit, sorted);
    feed := if |sorted| > limit then sorted[..limit] else sorted;
  }

  // The collection tool's page: the merged feed, cut. The chunks are what the members' queries select.
  method CollectionPage(ghost db: set<Row>, ghost chunks: seq<set<Row>>, ghost cursor: Option<string>,
                        chunkResults: seq<seq<Row>>, limit: nat)
    returns (page: Page)
    requires |chunks| == |chunkResults| && Union(chunks) == Matching(db, cursor) && KeyedById(db)
    requires forall i :: 0 <= i < |chunks| ==> IsTop(chunks[i], limit + 1, chunkResults[i])
    ensures Serves(db, cursor, limit, page)
    ensures IsTop(Matching(db, cursor), limit, page.rows) && (page.hasMore <==> |Matching(db, cursor)| > limit)
  {
    var feed := CollectionFeed(chunks, chunkResults, limit + 1);
    page := Cut(feed, limit);
    PageIsExact(db, cursor, limit, page);
  }
}
