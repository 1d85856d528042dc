// The release-feed cursor: its wire format, the keyset predicate it becomes, and the feed order.
module FeedCursor {
  import opened Strings

  // The sort key of a feed row. `published_at` is nullable, `fetched_at` and `id` are not.
  datatype Row = Row(pub: Option<string>, fet: string, id: string)

  predicate TieBefore(a: Row, b: Row) {
    Less(b.fet, a.fet) || (a.fet == b.fet && Less(b.id, a.id))
  }

  // ORDER BY (dated first), published_at DESC, fetched_at DESC, id DESC: `a` comes strictly before `b`.
  predicate Before(a: Row, b: Row) {
    match (a.pub, b.pub)
    case (Some(x), Some(y)) => Less(y, x) || (x == y && TieBefore(a, b))
    case (Some(_), None) => true
    case (None, Some(_)) => false
    case (None, None) => TieBefore(a, b)
  }

  lemma TieTransitive(a: Row, b: Row, c: Row)
    requires TieBefore(a, b) && TieBefore(b, c)
    ensures TieBefore(a, c)
  {
    if Less(b.fet, a.fet) && Less(c.fet, b.fet) {
      LessTransitive(c.fet, b.fet, a.fet);
    }
    if Less(b.id, a.id) && Less(c.id, b.id) {
      LessTransitive(c.id, b.id, a.id);
    }
  }

  lemma BeforeTransitive(a: Row, b: Row, c: Row)
    requires Before(a, b) && Before(b, c)
    ensures Before(a, c)
  {
    match (a.pub, b.pub, c.pub)
    case (Some(x), Some(y), Some(z)) =>
      if Less(y, x) && Less(z, y) {
        LessTransitive(z, y, x);
      } else if x == y == z {
        TieTransitive(a, b, c);
      }
    case (None, None, None) => TieTransitive(a, b, c);
    case _ =>
  }

  lemma BeforeIrreflexive(a: Row)
    ensures !Before(a, a)
  {
    LessIrreflexive(a.fet);
    LessIrreflexive(a.id);
    if a.pub.Some? {
      LessIrreflexive(a.pub.value);
    }
  }

  lemma BeforeTotal(a: Row, b: Row)
    ensures Before(a, b) || a == b || Before(b, a)
  {
    LessTotal(a.fet, b.fet);
    LessTotal(a.id, b.id);
    if a.pub.Some? && b.pub.Some? {
      LessTotal(a.pub.value, b.pub.value);
    }
  }

  lemma BeforeAsymmetric(a: Row, b: Row)
    requires Before(a, b)
    ensures !Before(b, a)
  {
    if Before(b, a) {
      BeforeTransitive(a, b, a);
      BeforeIrreflexive(a);
    }
  }

  // ---------- SQL with NULLs ----------

  datatype Column = PublishedAt | FetchedAt | Id

  // A WHERE fragment over one row; `V` is `()` where the text still holds `?` placeholders.
  datatype Sql<V> =
    | IsNull(col: Column)
    | Lt(col: Column, v: V)
    | Eq(col: Column, v: V)
    | And(left: Sql<V>, right: Sql<V>)
    | Or(left: Sql<V>, right: Sql<V>)

  function Placeholders(e: Sql<()>): nat {
    match e
    case IsNull(_) => 0
    case Lt(_, _) => 1
    case Eq(_, _) => 1
    case And(l, r) => Placeholders(l) + Placeholders(r)
    case Or(l, r) => Placeholders(l) + Placeholders(r)
  }

  // Placeholders take the bindings from left to right.
  function Bind(e: Sql<()>, bindings: seq<string>): Sql<string>
    requires |bindings| == Placeholders(e)
  {
    match e
    case IsNull(c) => IsNull(c)
    case Lt(c, _) => Lt(c, bindings[0])
    case Eq(c, _) => Eq(c, bindings[0])
    case And(l, r) => And(Bind(l, bindings[..Placeholders(l)]), Bind(r, bindings[Placeholders(l)..]))
    case Or(l, r) => Or(Bind(l, bindings[..Placeholders(l)]), Bind(r, bindings[Placeholders(l)..]))
  }

  datatype Truth = True | False | Unknown

  function Cell(r: Row, c: Column): Option<string> {
    match c
    case PublishedAt => r.pub
    case FetchedAt => Some(r.fet)
    case Id => Some(r.id)
  }

  function Known(b: bool): Truth { if b then True else False }

  // SQL's three-valued logic: a comparison with NULL is unknown.
  function Eval(e: Sql<string>, r: Row): Truth {
    match e
    case IsNull(c) => Known(Cell(r, c).None?)
    case Lt(c, v) => if Cell(r, c).None? then Unknown else Known(Less(Cell(r, c).value, v))
    case Eq(c, v) => if Cell(r, c).None? then Unknown else Known(Cell(r, c).value == v)
    case And(l, rt) =>
      if Eval(l, r) == False || Eval(rt, r) == False then False
      else if Eval(l, r) == Unknown || Eval(rt, r) == Unknown then Unknown
      else True
    case Or(l, rt) =>
      if Eval(l, r) == True || Eval(rt, r) == True then True
      else if Eval(l, r) == Unknown || Eval(rt, r) == Unknown then Unknown
      else False
  }

  // SQL's tables: a conjunction is as bad as its worse side and a disjunction as good as its better one, unknown lying
  // between false and true. A comparison is unknown exactly when its column is NULL, a NULL test never.
  lemma TruthTables(a: Sql<string>, b: Sql<string>, r: Row)
    ensures Eval(And(a, b), r) == True <==> Eval(a, r) == True && Eval(b, r) == True
    ensures Eval(And(a, b), r) == False <==> Eval(a, r) == False || Eval(b, r) == False
    ensures Eval(Or(a, b), r) == True <==> Eval(a, r) == True || Eval(b, r) == True
    ensures Eval(Or(a, b), r) == False <==> Eval(a, r) == False && Eval(b, r) == False
    ensures forall c, v :: Eval(Lt(c, v), r) == Unknown <==> c == PublishedAt && r.pub == None
    ensures forall c, v :: Eval(Eq(c, v), r) == Unknown <==> c == PublishedAt && r.pub == None
    ensures forall c :: Eval(IsNull(c), r) == if c == PublishedAt && r.pub == None then True else False
  {
  }

  // A row is selected when the fragment is true, not when it is unknown.
  predicate Selects(where: Option<Sql<string>>, r: Row) {
    where.None? || Eval(where.value, r) == True
  }

  // ---------- The wire format ----------

  datatype CursorKey = CursorKey(publishedAt: Option<string>, fetchedAt: Option<string>, id: Option<string>)

  function NonEmpty(s: string): Option<string> { if s == "" then None else Some(s) }

  function BuildFeedCursor(last: Row): string {
    (if last.pub.Some? then last.pub.value else "") + "|" + last.fet + "|" + last.id
  }

  function ParseFeedCursorKey(cursor: Option<string>): Option<CursorKey> {
    if cursor.None? || cursor.value == "" then None
    else
      var parts := Split(cursor.value, '|');
      if |parts| == 3 then
        if parts[1] != "" && parts[2] != ""
        then Some(CursorKey(NonEmpty(parts[0]), Some(parts[1]), Some(parts[2])))
        else None
      else if |parts| == 2 then
        if parts[1] != "" then Some(CursorKey(NonEmpty(parts[0]), None, Some(parts[1]))) else None
      else if |parts| == 1 && parts[0] != "" then Some(CursorKey(Some(parts[0]), None, None))
      else None
  }

  // What a row must look like for its cursor to carry its whole key.
  predicate WireSafe(r: Row) {
    r.fet != "" && r.id != "" && '|' !in r.fet && '|' !in r.id
    && (r.pub.Some? ==> r.pub.value != "" && '|' !in r.pub.value)
  }

  function KeyOf(r: Row): CursorKey { CursorKey(r.pub, Some(r.fet), Some(r.id)) }

  lemma BuildIsJoin(r: Row)
    ensures var pub := if r.pub.Some? then r.pub.value else "";
            BuildFeedCursor(r) == Join([pub, r.fet, r.id], '|')
  {
    var pub := if r.pub.Some? then r.pub.value else "";
    var parts := [pub, r.fet, r.id];
    assert parts[1..] == [r.fet, r.id] && parts[1..][1..] == [r.id];
    assert Join([r.fet, r.id], '|') == r.fet + "|" + r.id;
    assert pub + "|" + (r.fet + "|" + r.id) == pub + "|" + r.fet + "|" + r.id;
  }

  lemma {:induction false} SplitCount(s: string, t: string)
    ensures |Split(s + "|" + t, '|')| == |Split(s, '|')| + |Split(t, '|')|
    decreases |s|
  {
    var w := s + "|" + t;
    if s == "" {
      assert w[1..] == t;
    } else {
      assert w[1..] == s[1..] + "|" + t;
      SplitCount(s[1..], t);
    }
  }

  lemma {:induction false} SeparatorSplits(s: string)
    ensures '|' in s ==> |Split(s, '|')| >= 2
  {
    if s != "" {
      SeparatorSplits(s[1..]);
      assert s == [s[0]] + s[1..];
    }
  }

  // The cursor of a row reads back as the row's own key exactly for wire-safe rows.
  lemma CursorRoundTrip(r: Row)
    ensures ParseFeedCursorKey(Some(BuildFeedCursor(r))) == Some(KeyOf(r)) <==> WireSafe(r)
  {
    var pub := if r.pub.Some? then r.pub.value else "";
    BuildIsJoin(r);
    if '|' !in pub && '|' !in r.fet && '|' !in r.id {
      SplitJoin([pub, r.fet, r.id], '|');
    } else {
      SplitCount(pub + "|" + r.fet, r.id);
      SplitCount(pub, r.fet);
      SeparatorSplits(pub);
      SeparatorSplits(r.fet);
      SeparatorSplits(r.id);
    }
  }

  // The older shapes, with two parts or one.
  lemma LegacyKeys(pub: string, id: string)
    requires '|' !in pub && '|' !in id
    ensures ParseFeedCursorKey(Some(pub + "|" + id))
         == if id == "" then None else Some(CursorKey(if pub == "" then None else Some(pub), None, Some(id)))
    ensures ParseFeedCursorKey(Some(pub)) == if pub == "" then None else Some(CursorKey(Some(pub), None, None))
  {
    SplitPrefix(pub, id, '|');
    SplitWhole(pub, '|');
    SplitWhole(id, '|');
    assert pub + ['|'] + id == pub + "|" + id;
  }

  // ---------- The three renderers of the keyset predicate ----------

  datatype Fragment = Fragment(where: Option<Sql<()>>, bindings: seq<string>)

  // Raw D1 text with placeholders, used by the organisation and source feeds.
  function ParseFeedCursor(cursor: Option<string>): (f: Fragment)
    ensures |f.bindings| == if f.where.Some? then Placeholders(f.where.value) else 0
  {
    var key := ParseFeedCursorKey(cursor);
    if key.None? then Fragment(None, [])
    else
      var CursorKey(pub, fet, id) := key.value;
      var undated := IsNull(PublishedAt);
      if fet.Some? && id.Some? then
        if pub.Some? then
          Fragment(
            Some(Or(Or(Or(undated, Lt(PublishedAt, ())),
                       And(Eq(PublishedAt, ()), Lt(FetchedAt, ()))),
                    And(And(Eq(PublishedAt, ()), Eq(FetchedAt, ())), Lt(Id, ())))),
            [pub.value, pub.value, fet.value, pub.value, fet.value, id.value])
        else
          Fragment(
            Some(And(undated, Or(Lt(FetchedAt, ()), And(Eq(FetchedAt, ()), Lt(Id, ()))))),
            [fet.value, fet.value, id.value])
      else if id.Some? then
        if pub.Some? then
          Fragment(
            Some(Or(Or(undated, Lt(PublishedAt, ())), And(Eq(PublishedAt, ()), Lt(Id, ())))),
            [pub.value, pub.value, id.value])
        else
          Fragment(Some(And(undated, Lt(Id, ()))), [id.value])
      else
        var last := if pub.Some? then pub.value else "";
        Fragment(Some(Or(undated, Lt(PublishedAt, ()))), [last])
  }

  function RawFeedCursorSql(cursor: Option<string>): Option<Sql<string>> {
    var f := ParseFeedCursor(cursor);
    if f.where.None? then None else Some(Bind(f.where.value, f.bindings))
  }

  // The Drizzle form with inlined values, used by collection and category feeds.
  function FeedCursorSql(cursor: Option<string>): Option<Sql<string>> {
    var key := ParseFeedCursorKey(cursor);
    if key.None? then None
    else
      var CursorKey(pub, fet, id) := key.value;
      var undated := IsNull(PublishedAt);
      if fet.Some? && id.Some? then
        var tie := Or(Lt(FetchedAt, fet.value), And(Eq(FetchedAt, fet.value), Lt(Id, id.value)));
        if pub.Some? then
          Some(Or(Or(Or(undated, Lt(PublishedAt, pub.value)),
                     And(Eq(PublishedAt, pub.value), Lt(FetchedAt, fet.value))),
                  And(And(Eq(PublishedAt, pub.value), Eq(FetchedAt, fet.value)), Lt(Id, id.value))))
        else Some(And(undated, tie))
      else if id.Some? then
        if pub.Some? then
          Some(Or(Or(undated, Lt(PublishedAt, pub.value)), And(Eq(PublishedAt, pub.value), Lt(Id, id.value))))
        else Some(And(undated, Lt(Id, id.value)))
      else
        var last := if pub.Some? then pub.value else "";
        Some(Or(undated, Lt(PublishedAt, last)))
  }

  // The query-builder form of the latest-releases feed.
  function AfterFeedKey(key: CursorKey): Sql<string> {
    var CursorKey(pub, fet, id) := key;
    var undated := IsNull(PublishedAt);
    var tie :=
      if fet.Some? && id.Some?
      then Some(Or(Lt(FetchedAt, fet.value), And(Eq(FetchedAt, fet.value), Lt(Id, id.value))))
      else if id.Some? then Some(Lt(Id, id.value))
      else None;
    if pub.None? then
      if tie.None? then undated else And(undated, tie.value)
    else if tie.None? then Or(undated, Lt(PublishedAt, pub.value))
    else Or(Or(undated, Lt(PublishedAt, pub.value)), And(Eq(PublishedAt, pub.value), tie.value))
  }

  function LatestFeedSql(cursor: Option<string>): Option<Sql<string>> {
    var key := ParseFeedCursorKey(cursor);
    if key.None? then None else Some(AfterFeedKey(key.value))
  }

  // With the cursor of row `last`, each renderer selects exactly the rows strictly after `last`.
  lemma KeysetIsExact(last: Row, r: Row)
    requires WireSafe(last)
    ensures Selects(RawFeedCursorSql(Some(BuildFeedCursor(last))), r) <==> Before(last, r)
    ensures Selects(FeedCursorSql(Some(BuildFeedCursor(last))), r) <==> Before(last, r)
    ensures Selects(LatestFeedSql(Some(BuildFeedCursor(last))), r) <==> Before(last, r)
  {
    CursorRoundTrip(last);
    var cursor := Some(BuildFeedCursor(last));
    RawIsInlined(cursor);
    LatestSelectsSame(cursor, r);
    if last.pub.Some? {
      DatedIsExact(last.pub.value, last, r);
    } else {
      TieIsExact(last, r);
      assert Eval(And(IsNull(PublishedAt), Tie(last.fet, last.id)), r) == True <==> r.pub.None? && TieBefore(last, r);
    }
  }

  function Tie(fet: string, id: string): Sql<string> { Or(Lt(FetchedAt, fet), And(Eq(FetchedAt, fet), Lt(Id, id))) }

  lemma DatedIsExact(p: string, last: Row, r: Row)
    requires last.pub == Some(p)
    ensures Eval(AfterFeedKey(CursorKey(Some(p), Some(last.fet), Some(last.id))), r) == True <==> Before(last, r)
  {
    TieIsExact(last, r);
    var tie := Tie(last.fet, last.id);
    assert Eval(Or(IsNull(PublishedAt), Lt(PublishedAt, p)), r) == True <==> r.pub.None? || Less(r.pub.value, p);
    assert Eval(And(Eq(PublishedAt, p), tie), r) == True <==> r.pub == Some(p) && TieBefore(last, r);
  }

  // The query-builder form nests differently but selects the same rows, for every cursor a client may send.
  lemma LatestSelectsSame(cursor: Option<string>, r: Row)
    ensures Selects(LatestFeedSql(cursor), r) <==> Selects(FeedCursorSql(cursor), r)
  {
    var key := ParseFeedCursorKey(cursor);
    if key.Some? {
      var CursorKey(pub, fet, id) := key.value;
      if fet.Some? && id.Some? && pub.Some? {
        Distributes(pub.value, fet.value, id.value, r);
      }
    }
  }

  lemma Distributes(p: string, f: string, i: string, r: Row)
    ensures var older, same := Or(IsNull(PublishedAt), Lt(PublishedAt, p)), Eq(PublishedAt, p);
            Eval(Or(Or(older, And(same, Lt(FetchedAt, f))), And(And(same, Eq(FetchedAt, f)), Lt(Id, i))), r) == True
            <==> Eval(Or(older, And(same, Tie(f, i))), r) == True
  {
    var older, same := Or(IsNull(PublishedAt), Lt(PublishedAt, p)), Eq(PublishedAt, p);
    var earlier, alike, smaller := Lt(FetchedAt, f), Eq(FetchedAt, f), Lt(Id, i);
    TruthTables(same, earlier, r);
    TruthTables(same, alike, r);
    TruthTables(And(same, alike), smaller, r);
    TruthTables(older, And(same, earlier), r);
    TruthTables(Or(older, And(same, earlier)), And(And(same, alike), smaller), r);
    TruthTables(alike, smaller, r);
    TruthTables(earlier, And(alike, smaller), r);
    TruthTables(same, Tie(f, i), r);
    TruthTables(older, And(same, Tie(f, i)), r);
  }

  // Wire safety is also necessary: any other row's cursor selects a wrong row.
  lemma KeysetExactIff(last: Row)
    ensures (forall r :: Selects(FeedCursorSql(Some(BuildFeedCursor(last))), r) <==> Before(last, r))
            <==> WireSafe(last)
  {
    var cursor := Some(BuildFeedCursor(last));
    if WireSafe(last) {
      forall r ensures Selects(FeedCursorSql(cursor), r) <==> Before(last, r) {
        KeysetIsExact(last, r);
      }
    } else if ParseFeedCursorKey(cursor).None? {
      BeforeIrreflexive(last);
      assert Selects(FeedCursorSql(cursor), last) && !Before(last, last);
    } else {
      UnsafeKeyHasEmptyDate(last);
      var r := last.(pub := None);
      TieIsExact(last, r);
      LessIrreflexive(last.fet);
      LessIrreflexive(last.id);
      assert Before(last, r) && !Selects(FeedCursorSql(cursor), r);
    }
  }

  lemma UnsafeKeyHasEmptyDate(last: Row)
    requires !WireSafe(last) && ParseFeedCursorKey(Some(BuildFeedCursor(last))).Some?
    ensures last.pub == Some("")
    ensures ParseFeedCursorKey(Some(BuildFeedCursor(last))) == Some(CursorKey(None, Some(last.fet), Some(last.id)))
  {
    var pub := if last.pub.Some? then last.pub.value else "";
    BuildIsJoin(last);
    if '|' !in pub && '|' !in last.fet && '|' !in last.id {
      SplitJoin([pub, last.fet, last.id], '|');
    } else {
      SplitCount(pub + "|" + last.fet, last.id);
      SplitCount(pub, last.fet);
      SeparatorSplits(pub);
      SeparatorSplits(last.fet);
      SeparatorSplits(last.id);
    }
  }

  lemma TieIsExact(last: Row, r: Row)
    ensures Eval(Or(Lt(FetchedAt, last.fet), And(Eq(FetchedAt, last.fet), Lt(Id, last.id))), r) == True
            <==> TieBefore(last, r)
  {
    assert Eval(And(Eq(FetchedAt, last.fet), Lt(Id, last.id)), r) == True
      <==> r.fet == last.fet && Less(r.id, last.id);
  }

  // Binding the placeholders in order yields the inlined form, for every cursor shape.
  lemma RawIsInlined(cursor: Option<string>)
    ensures RawFeedCursorSql(cursor) == FeedCursorSql(cursor)
  {
    var key := ParseFeedCursorKey(cursor);
    if key.Some? {
      var CursorKey(pub, fet, id) := key.value;
      if fet.Some? && id.Some? && pub.Some? {
        BindDated(pub.value, fet.value, id.value);
      } else if fet.Some? && id.Some? {
        BindPair(Eq(FetchedAt, ()), Lt(Id, ()), [fet.value], [id.value], [fet.value, id.value]);
        BindPair(Lt(FetchedAt, ()), And(Eq(FetchedAt, ()), Lt(Id, ())), [fet.value], [fet.value, id.value],
                 [fet.value, fet.value, id.value]);
        BindPair(IsNull(PublishedAt), Or(Lt(FetchedAt, ()), And(Eq(FetchedAt, ()), Lt(Id, ()))), [],
                 [fet.value, fet.value, id.value], [fet.value, fet.value, id.value]);
      } else if id.Some? {
        BindLegacy(if pub.Some? then pub.value else "", id.value);
      } else {
        var last := if pub.Some? then pub.value else "";
        BindPair(IsNull(PublishedAt), Lt(PublishedAt, ()), [], [last], [last]);
      }
    }
  }

  lemma BindLegacy(p: string, i: string)
    ensures Bind(Or(Or(IsNull(PublishedAt), Lt(PublishedAt, ())), And(Eq(PublishedAt, ()), Lt(Id, ()))), [p, p, i])
         == Or(Or(IsNull(PublishedAt), Lt(PublishedAt, p)), And(Eq(PublishedAt, p), Lt(Id, i)))
    ensures Bind(And(IsNull(PublishedAt), Lt(Id, ())), [i]) == And(IsNull(PublishedAt), Lt(Id, i))
  {
    BindPair(IsNull(PublishedAt), Lt(PublishedAt, ()), [], [p], [p]);
    BindPair(Eq(PublishedAt, ()), Lt(Id, ()), [p], [i], [p, i]);
    BindPair(Or(IsNull(PublishedAt), Lt(PublishedAt, ())), And(Eq(PublishedAt, ()), Lt(Id, ())), [p], [p, i],
             [p, p, i]);
    BindPair(IsNull(PublishedAt), Lt(Id, ()), [], [i], [i]);
  }

  lemma BindDated(p: string, f: string, i: string)
    ensures Bind(Or(Or(Or(IsNull(PublishedAt), Lt(PublishedAt, ())),
                       And(Eq(PublishedAt, ()), Lt(FetchedAt, ()))),
                    And(And(Eq(PublishedAt, ()), Eq(FetchedAt, ())), Lt(Id, ()))), [p, p, f, p, f, i])
         == Or(Or(Or(IsNull(PublishedAt), Lt(PublishedAt, p)),
                  And(Eq(PublishedAt, p), Lt(FetchedAt, f))),
               And(And(Eq(PublishedAt, p), Eq(FetchedAt, f)), Lt(Id, i)))
  {
    BindPair(IsNull(PublishedAt), Lt(PublishedAt, ()), [], [p], [p]);
    BindPair(Eq(PublishedAt, ()), Lt(FetchedAt, ()), [p], [f], [p, f]);
    BindPair(Eq(PublishedAt, ()), Eq(FetchedAt, ()), [p], [f], [p, f]);
    var older, sameDate := Or(IsNull(PublishedAt), Lt(PublishedAt, ())), And(Eq(PublishedAt, ()), Lt(FetchedAt, ()));
    var sameBoth := And(Eq(PublishedAt, ()), Eq(FetchedAt, ()));
    BindPair(older, sameDate, [p], [p, f], [p, p, f]);
    BindPair(sameBoth, Lt(Id, ()), [p, f], [i], [p, f, i]);
    BindPair(Or(older, sameDate), And(sameBoth, Lt(Id, ())), [p, p, f], [p, f, i], [p, p, f, p, f, i]);
  }

  lemma BindPair(l: Sql<()>, r: Sql<()>, bl: seq<string>, br: seq<string>, b: seq<string>)
    requires |bl| == Placeholders(l) && |br| == Placeholders(r) && b == bl + br
    ensures Bind(Or(l, r), b) == Or(Bind(l, bl), Bind(r, br))
    ensures Bind(And(l, r), b) == And(Bind(l, bl), Bind(r, br))
  {
    assert b[..|bl|] == bl && b[|bl|..] == br;
  }
}
