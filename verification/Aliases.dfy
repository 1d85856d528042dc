// The domain-alias table and replacing one owner's whole set of aliases.
module Aliases {
  import opened Strings

  datatype Owner = Org(id: string) | Product(id: string)

  datatype Row = Row(domain: string, orgId: Option<string>, productId: Option<string>, createdAt: string)

  predicate Owns(owner: Owner, r: Row) {
    match owner
    case Org(id) => r.orgId == Some(id)
    case Product(id) => r.productId == Some(id)
  }

  // Each domain is in at most one row, so it has at most one owner.
  ghost predicate Unique(rows: seq<Row>) {
    forall i, j :: 0 <= i < j < |rows| ==> rows[i].domain != rows[j].domain
  }

  // ---------- Lists ----------

  function Filter<T>(s: seq<T>, keep: T -> bool): seq<T> {
    if s == [] then [] else Filter(s[..|s| - 1], keep) + if keep(s[|s| - 1]) then [s[|s| - 1]] else []
  }

  lemma {:induction false} FilterMember<T>(s: seq<T>, keep: T -> bool, x: T)
    ensures x in Filter(s, keep) <==> x in s && keep(x)
  {
    if s != [] {
      FilterMember(s[..|s| - 1], keep, x);
      assert s == s[..|s| - 1] + [s[|s| - 1]];
    }
  }

  lemma {:induction false} FilterConcat<T>(s: seq<T>, t: seq<T>, keep: T -> bool)
    ensures Filter(s + t, keep) == Filter(s, keep) + Filter(t, keep)
    decreases |t|
  {
    if t == [] {
      assert s + t == s;
    } else {
      assert (s + t)[..|s + t| - 1] == s + t[..|t| - 1];
      FilterConcat(s, t[..|t| - 1], keep);
    }
  }

  lemma {:induction false} FilterAll<T>(s: seq<T>, keep: T -> bool, all: bool)
    requires forall i :: 0 <= i < |s| ==> keep(s[i]) == all
    ensures Filter(s, keep) == if all then s else []
  {
    if s != [] {
      FilterAll(s[..|s| - 1], keep, all);
    }
  }

  // Keeping the rows that a first filter keeps anyway.
  lemma {:induction false} FilterTwice<T>(s: seq<T>, first: T -> bool, keep: T -> bool)
    requires forall x :: x in s && keep(x) ==> first(x)
    ensures Filter(Filter(s, first), keep) == Filter(s, keep)
  {
    if s != [] {
      var n := |s| - 1;
      FilterTwice(s[..n], first, keep);
      FilterConcat(Filter(s[..n], first), if first(s[n]) then [s[n]] else [], keep);
      assert forall x :: x in s[..n] ==> x in s;
    }
  }

  lemma {:induction false} FilterUnique(rows: seq<Row>, keep: Row -> bool)
    requires Unique(rows)
    ensures Unique(Filter(rows, keep))
  {
    if rows != [] {
      var n := |rows| - 1;
      FilterUnique(rows[..n], keep);
      var kept := Filter(rows[..n], keep);
      forall i | 0 <= i < |kept| ensures kept[i].domain != rows[n].domain {
        FilterMember(rows[..n], keep, kept[i]);
      }
    }
  }

  // Array.from(new Set(s)): the first of each, in order.
  function Deduped(s: seq<string>): (d: seq<string>)
    ensures forall x :: x in d <==> x in s
    ensures forall i, j :: 0 <= i < j < |d| ==> d[i] != d[j]
  {
    if s == [] then []
    else
      var d := Deduped(s[..|s| - 1]);
      assert s == s[..|s| - 1] + [s[|s| - 1]];
      if s[|s| - 1] in d then d else d + [s[|s| - 1]]
  }

  // ---------- The wanted domains ----------

  function Wanted(aliases: seq<string>): (wanted: seq<string>)
    ensures forall i, j :: 0 <= i < j < |wanted| ==> wanted[i] != wanted[j]
  {
    Deduped(Filter(seq(|aliases|, i requires 0 <= i < |aliases| => Trim(aliases[i])), d => d != ""))
  }

  // The trimmed, non-empty input.
  lemma WantedIsInput(aliases: seq<string>, d: string)
    ensures d in Wanted(aliases) <==> d != "" && exists i :: 0 <= i < |aliases| && Trim(aliases[i]) == d
  {
    var trimmed := seq(|aliases|, i requires 0 <= i < |aliases| => Trim(aliases[i]));
    FilterMember(trimmed, d => d != "", d);
    assert d in trimmed <==> exists i :: 0 <= i < |aliases| && Trim(aliases[i]) == d by {
      if i: nat :| i < |aliases| && Trim(aliases[i]) == d {
        assert trimmed[i] == d;
      }
    }
  }

  // ---------- Replacing ----------

  function Domains(rows: seq<Row>): seq<string> { seq(|rows|, i requires 0 <= i < |rows| => rows[i].domain) }

  function OwnedBy(rows: seq<Row>, owner: Owner): seq<Row> { Filter(rows, (r: Row) => Owns(owner, r)) }

  function OthersThan(rows: seq<Row>, owner: Owner): seq<Row> { Filter(rows, (r: Row) => !Owns(owner, r)) }

  function Missing(s: seq<string>, t: seq<string>): seq<string> { Filter(s, d => d !in t) }

  function ToDelete(rows: seq<Row>, owner: Owner, aliases: seq<string>): seq<string> {
    Missing(Domains(OwnedBy(rows, owner)), Wanted(aliases))
  }

  function ToInsert(rows: seq<Row>, owner: Owner, aliases: seq<string>): seq<string> {
    Missing(Wanted(aliases), Domains(OwnedBy(rows, owner)))
  }

  // The domain of the first row that already has a domain to insert.
  function Conflict(rows: seq<Row>, toInsert: seq<string>): Option<string> {
    var taken := Filter(rows, (r: Row) => r.domain in toInsert);
    if taken == [] then None else Some(taken[0].domain)
  }

  function NewRow(owner: Owner, domain: string, now: string): Row {
    match owner
    case Org(id) => Row(domain, Some(id), None, now)
    case Product(id) => Row(domain, None, Some(id), now)
  }

  function NewRows(owner: Owner, domains: seq<string>, now: string): seq<Row> {
    seq(|domains|, i requires 0 <= i < |domains| => NewRow(owner, domains[i], now))
  }

  function Remaining(rows: seq<Row>, owner: Owner, toDelete: seq<string>): seq<Row> {
    Filter(rows, (r: Row) => !(Owns(owner, r) && r.domain in toDelete))
  }

  function Replace(rows: seq<Row>, owner: Owner, aliases: seq<string>, now: string): (seq<Row>, Option<string>) {
    var toInsert := ToInsert(rows, owner, aliases);
    var conflict := Conflict(rows, toInsert);
    if conflict.Some? then (rows, conflict)
    else (Remaining(rows, owner, ToDelete(rows, owner, aliases)) + NewRows(owner, toInsert, now), None)
  }

  lemma OwnedDomains(rows: seq<Row>, owner: Owner, d: string)
    ensures d in Domains(OwnedBy(rows, owner)) <==> exists r :: r in rows && Owns(owner, r) && r.domain == d
  {
    var owned := OwnedBy(rows, owner);
    if d in Domains(owned) {
      var i :| 0 <= i < |owned| && Domains(owned)[i] == d;
      FilterMember(rows, (r: Row) => Owns(owner, r), owned[i]);
    }
    if r :| r in rows && Owns(owner, r) && r.domain == d {
      FilterMember(rows, (r: Row) => Owns(owner, r), r);
      var i :| 0 <= i < |owned| && owned[i] == r;
      assert Domains(owned)[i] == d;
    }
  }

  lemma InsertList(rows: seq<Row>, owner: Owner, aliases: seq<string>, d: string)
    ensures d in ToInsert(rows, owner, aliases)
            <==> d in Wanted(aliases) && !exists r :: r in rows && Owns(owner, r) && r.domain == d
  {
    FilterMember(Wanted(aliases), d => d !in Domains(OwnedBy(rows, owner)), d);
    OwnedDomains(rows, owner, d);
  }

  lemma DeleteList(rows: seq<Row>, owner: Owner, aliases: seq<string>, d: string)
    ensures d in ToDelete(rows, owner, aliases)
            <==> d !in Wanted(aliases) && exists r :: r in rows && Owns(owner, r) && r.domain == d
  {
    FilterMember(Domains(OwnedBy(rows, owner)), d => d !in Wanted(aliases), d);
    OwnedDomains(rows, owner, d);
  }

  // A row that has a wanted domain and another owner.
  predicate Foreign(r: Row, owner: Owner, aliases: seq<string>) { r.domain in Wanted(aliases) && !Owns(owner, r) }

  // It fails exactly when some wanted domain belongs to someone else; then it names such a domain and changes nothing.
  lemma ConflictIffForeign(rows: seq<Row>, owner: Owner, aliases: seq<string>, now: string)
    requires Unique(rows)
    ensures var (after, conflict) := Replace(rows, owner, aliases, now);
            (conflict.Some? <==> exists r :: r in rows && Foreign(r, owner, aliases))
            && (conflict.Some? ==>
                  after == rows
                  && exists r :: r in rows && Foreign(r, owner, aliases) && r.domain == conflict.value)
  {
    var toInsert := ToInsert(rows, owner, aliases);
    var taken := Filter(rows, (r: Row) => r.domain in toInsert);
    if taken != [] {
      var r := taken[0];
      FilterMember(rows, (r: Row) => r.domain in toInsert, r);
      InsertList(rows, owner, aliases, r.domain);
      assert Foreign(r, owner, aliases);
    }
    if r :| r in rows && Foreign(r, owner, aliases) {
      InsertList(rows, owner, aliases, r.domain);
      FilterMember(rows, (r: Row) => r.domain in toInsert, r);
    }
  }

  lemma NotTaken(rows: seq<Row>, toInsert: seq<string>, r: Row)
    requires Conflict(rows, toInsert).None? && r in rows
    ensures r.domain !in toInsert
  {
    FilterMember(rows, (r: Row) => r.domain in toInsert, r);
  }

  // No insert ever meets the unique index, so a domain keeps at most one owner.
  lemma ReplaceUnique(rows: seq<Row>, owner: Owner, aliases: seq<string>, now: string)
    requires Unique(rows)
    ensures Unique(Replace(rows, owner, aliases, now).0)
  {
    var toInsert := ToInsert(rows, owner, aliases);
    if Conflict(rows, toInsert).None? {
      var gone := ToDelete(rows, owner, aliases);
      var rest, added := Remaining(rows, owner, gone), NewRows(owner, toInsert, now);
      FilterUnique(rows, (r: Row) => !(Owns(owner, r) && r.domain in gone));
      forall i | 0 <= i < |rest| ensures rest[i].domain !in toInsert {
        FilterMember(rows, (r: Row) => !(Owns(owner, r) && r.domain in gone), rest[i]);
        NotTaken(rows, toInsert, rest[i]);
      }
      FilterDistinct(Wanted(aliases), d => d !in Domains(OwnedBy(rows, owner)));
      assert forall i :: 0 <= i < |added| ==> added[i].domain == toInsert[i];
    }
  }

  lemma {:induction false} FilterDistinct(s: seq<string>, keep: string -> bool)
    requires forall i, j :: 0 <= i < j < |s| ==> s[i] != s[j]
    ensures forall i, j :: 0 <= i < j < |Filter(s, keep)| ==> Filter(s, keep)[i] != Filter(s, keep)[j]
  {
    if s != [] {
      var n := |s| - 1;
      FilterDistinct(s[..n], keep);
      var kept := Filter(s[..n], keep);
      forall i | 0 <= i < |kept| ensures kept[i] != s[n] {
        FilterMember(s[..n], keep, kept[i]);
      }
    }
  }

  // On success the other owners' rows are exactly as they were, in order.
  lemma OthersUntouched(rows: seq<Row>, owner: Owner, aliases: seq<string>, now: string)
    ensures OthersThan(Replace(rows, owner, aliases, now).0, owner) == OthersThan(rows, owner)
  {
    var toInsert := ToInsert(rows, owner, aliases);
    if Conflict(rows, toInsert).None? {
      var gone := ToDelete(rows, owner, aliases);
      var rest, added := Remaining(rows, owner, gone), NewRows(owner, toInsert, now);
      var others := (r: Row) => !Owns(owner, r);
      FilterTwice(rows, (r: Row) => !(Owns(owner, r) && r.domain in gone), others);
      FilterConcat(rest, added, others);
      FilterAll(added, others, false);
      assert OthersThan(rest + added, owner) == Filter(rest + added, others);
    }
  }

  // On success the owner has exactly the wanted domains; those it had already keep their rows.
  lemma OwnsExactlyWanted(rows: seq<Row>, owner: Owner, aliases: seq<string>, now: string, d: string)
    ensures var (after, conflict) := Replace(rows, owner, aliases, now);
            conflict.None? ==>
              ((exists r :: r in after && Owns(owner, r) && r.domain == d) <==> d in Wanted(aliases))
              && (forall r :: r in rows && Owns(owner, r) && r.domain == d && d in Wanted(aliases) ==> r in after)
  {
    var toInsert, gone := ToInsert(rows, owner, aliases), ToDelete(rows, owner, aliases);
    var (after, conflict) := Replace(rows, owner, aliases, now);
    if conflict.None? {
      var rest, added := Remaining(rows, owner, gone), NewRows(owner, toInsert, now);
      var keep := (r: Row) => !(Owns(owner, r) && r.domain in gone);
      InsertList(rows, owner, aliases, d);
      DeleteList(rows, owner, aliases, d);
      assert after == rest + added;
      forall r | r in rows && Owns(owner, r) && r.domain == d && d in Wanted(aliases) ensures r in after {
        FilterMember(rows, keep, r);
      }
      if r :| r in after && Owns(owner, r) && r.domain == d {
        if r in rest {
          FilterMember(rows, keep, r);
        } else {
          var i :| 0 <= i < |added| && added[i] == r;
          assert r.domain == toInsert[i];
        }
      }
      if d in toInsert {
        var i :| 0 <= i < |toInsert| && toInsert[i] == d;
        assert added[i] in after && Owns(owner, added[i]) && added[i].domain == d;
      }
    }
  }

  // ---------- Runs ----------

  datatype Call = Call(owner: Owner, aliases: seq<string>, now: string)

  function RunCalls(rows: seq<Row>, calls: seq<Call>): seq<Row> {
    if calls == [] then rows
    else
      var last := calls[|calls| - 1];
      Replace(RunCalls(rows, calls[..|calls| - 1]), last.owner, last.aliases, last.now).0
  }

  // Whatever sequence of replacements, each domain has at most one row.
  lemma {:induction false} RunUnique(rows: seq<Row>, calls: seq<Call>)
    requires Unique(rows)
    ensures Unique(RunCalls(rows, calls))
  {
    if calls != [] {
      RunUnique(rows, calls[..|calls| - 1]);
      var last := calls[|calls| - 1];
      ReplaceUnique(RunCalls(rows, calls[..|calls| - 1]), last.owner, last.aliases, last.now);
    }
  }

  lemma NoElements(s: seq<string>)
    ensures s == [] || exists d :: d in s
  {
    if s != [] {
      assert s[0] in s;
    }
  }

  // A successful replacement repeated succeeds and changes nothing.
  lemma ReplaceAgain(rows: seq<Row>, owner: Owner, aliases: seq<string>, now: string, later: string)
    requires Replace(rows, owner, aliases, now).1.None?
    ensures var after := Replace(rows, owner, aliases, now).0;
            Replace(after, owner, aliases, later) == (after, None)
  {
    var after := Replace(rows, owner, aliases, now).0;
    var wanted := Wanted(aliases);
    forall d ensures d !in ToInsert(after, owner, aliases) && d !in ToDelete(after, owner, aliases) {
      OwnsExactlyWanted(rows, owner, aliases, now, d);
      InsertList(after, owner, aliases, d);
      DeleteList(after, owner, aliases, d);
    }
    NoElements(ToInsert(after, owner, aliases));
    NoElements(ToDelete(after, owner, aliases));
    NothingToInsert(after, ToInsert(after, owner, aliases));
    NothingToDelete(after, owner, ToDelete(after, owner, aliases));
    assert after + NewRows(owner, [], later) == after;
  }

  // ---------- The table ----------

  class AliasTable {
    var rows: seq<Row>

    ghost predicate Valid()
      reads this
    {
      Unique(rows)
    }

    constructor ()
      ensures Valid() && rows == []
    {
      rows := [];
    }

    method ReplaceAliases(owner: Owner, aliases: seq<string>, now: string) returns (conflict: Option<string>)
      requires Valid()
      modifies this
      ensures Valid() && (rows, conflict) == Replace(old(rows), owner, aliases, now)
      ensures Replaced(old(rows), rows, conflict, owner, aliases)
    {
      ReplaceReplaces(rows, owner, aliases, now);
      ReplaceUnique(rows, owner, aliases, now);
      conflict := Reconcile(owner, aliases, now);
    }

    // The statements of the replacement.
    method Reconcile(owner: Owner, aliases: seq<string>, now: string) returns (conflict: Option<string>)
      modifies this
      ensures (rows, conflict) == Replace(old(rows), owner, aliases, now)
    {
      var deduped := Wanted(aliases);
      var existing := Domains(OwnedBy(rows, owner));
      var toDelete := Missing(existing, deduped);
      var toInsert := Missing(deduped, existing);
      NothingToInsert(rows, toInsert);
      NothingToDelete(rows, owner, toDelete);
      if toInsert != [] {
        var foreign := Conflict(rows, toInsert);
        if foreign.Some? {
          return foreign;
        }
      }
      if toDelete != [] {
        rows := Remaining(rows, owner, toDelete);
      }
      ghost var rest := rows;
      assert rest == Remaining(old(rows), owner, toDelete);
      if toInsert != [] {
        rows := rows + NewRows(owner, toInsert, now);
      }
      assert rows == rest + NewRows(owner, toInsert, now);
      return None;
    }
  }

  // What the caller gets: a conflict exactly when someone else has a wanted domain, and then the table as it was;
  // otherwise the owner has exactly the wanted domains. Everyone else's rows are as they were.
  ghost predicate Replaced(before: seq<Row>, after: seq<Row>, conflict: Option<string>, owner: Owner,
                           aliases: seq<string>)
  {
    (conflict.Some? <==> exists r :: r in before && Foreign(r, owner, aliases))
    && (conflict.Some? ==> after == before && conflict.value in Wanted(aliases))
    && (conflict.None? ==> forall d :: d in Domains(OwnedBy(after, owner)) <==> d in Wanted(aliases))
    && OthersThan(after, owner) == OthersThan(before, owner)
  }

  lemma ReplaceReplaces(rows: seq<Row>, owner: Owner, aliases: seq<string>, now: string)
    requires Unique(rows)
    ensures var (after, conflict) := Replace(rows, owner, aliases, now);
            Replaced(rows, after, conflict, owner, aliases)
  {
    var (after, conflict) := Replace(rows, owner, aliases, now);
    ConflictIffForeign(rows, owner, aliases, now);
    OthersUntouched(rows, owner, aliases, now);
    if conflict.None? {
      forall d ensures d in Domains(OwnedBy(after, owner)) <==> d in Wanted(aliases) {
        OwnsExactlyWanted(rows, owner, aliases, now, d);
        OwnedDomains(after, owner, d);
      }
    }
  }

  lemma NothingToInsert(rows: seq<Row>, toInsert: seq<string>)
    ensures toInsert == [] ==> Conflict(rows, toInsert).None?
  {
    if toInsert == [] {
      FilterAll(rows, (r: Row) => r.domain in toInsert, false);
    }
  }

  lemma NothingToDelete(rows: seq<Row>, owner: Owner, toDelete: seq<string>)
    ensures toDelete == [] ==> Remaining(rows, owner, toDelete) == rows
  {
    if toDelete == [] {
      FilterAll(rows, (r: Row) => !(Owns(owner, r) && r.domain in toDelete), true);
    }
  }
}
