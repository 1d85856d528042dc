// Eastern calendar days as ranges of UTC instants, for a zone that alternates between UTC-4 and UTC-5.
module EasternDays {
  import opened Strings
  import opened Calendar

  const DAY_MS: int := 86_400_000
  const HOUR_MS: int := 3_600_000
  const EDT: int := -4 * HOUR_MS
  const EST: int := -5 * HOUR_MS

  // The zone database: the offset in force at each instant.
  type Zone = int -> int

  // Only the two offsets, and a change only when the clock shows 02:00: 07:00 UTC into EDT, 06:00 UTC into EST.
  ghost predicate SwitchesAtTwo(zone: Zone) {
    (forall t :: zone(t) == -14_400_000 || zone(t) == -18_000_000)
    && (forall t :: zone(t) != zone(t - 1) ==>
          t % 86_400_000 == if zone(t) == -14_400_000 then 25_200_000 else 21_600_000)
  }

  // The Eastern day number and minute of the day shown at an instant.
  function DayAt(zone: Zone, t: int): int { (t + zone(t)) / DAY_MS }
  function MinuteAt(zone: Zone, t: int): int { (t + zone(t)) % DAY_MS / 60_000 }

  predicate ShowsMidnight(zone: Zone, n: int, t: int) { DayAt(zone, t) == n && MinuteAt(zone, t) == 0 }

  // The probe: midnight at the one offset, else at the other, else an error.
  function Midnight(zone: Zone, n: int): Option<int> {
    var summer, winter := n * DAY_MS - EDT, n * DAY_MS - EST;
    if ShowsMidnight(zone, n, summer) then Some(summer)
    else if ShowsMidnight(zone, n, winter) then Some(winter)
    else None
  }

  lemma {:induction false} Steady(zone: Zone, a: int, b: int)
    requires a <= b && forall t {:trigger zone(t)} :: a < t <= b ==> zone(t) == zone(t - 1)
    ensures zone(a) == zone(b)
    decreases b - a
  {
    if a < b {
      Steady(zone, a, b - 1);
      assert zone(b) == zone(b - 1);
    }
  }

  // No change falls between 04:00 and 05:00 UTC, where the two candidate midnights lie.
  lemma SteadyAtMidnight(zone: Zone, n: int, t: int)
    requires SwitchesAtTwo(zone) && n * DAY_MS + 4 * HOUR_MS <= t <= n * DAY_MS + 5 * HOUR_MS
    ensures zone(t) == zone(n * DAY_MS + 4 * HOUR_MS)
  {
    var a := n * DAY_MS + 4 * HOUR_MS;
    forall u {:trigger zone(u)} | a < u <= t ensures zone(u) == zone(u - 1) {
      TimeOfDay(n, u);
    }
    Steady(zone, a, t);
  }

  lemma TimeOfDay(n: int, u: int)
    requires n * DAY_MS <= u < n * DAY_MS + DAY_MS
    ensures u % DAY_MS == u - n * DAY_MS && u / DAY_MS == n
  {
    assert u == n * DAY_MS + (u - n * DAY_MS);
  }

  // The probe never fails, and the zone's day reaches n exactly from that instant on.
  lemma MidnightIsExact(zone: Zone, n: int, t: int)
    requires SwitchesAtTwo(zone)
    ensures Midnight(zone, n).Some?
    ensures t + zone(t) >= n * DAY_MS <==> t >= Midnight(zone, n).value
  {
    var summer, winter := n * DAY_MS - EDT, n * DAY_MS - EST;
    TimeOfDay(n, n * DAY_MS);
    SteadyAtMidnight(zone, n, winter);
    if summer <= t <= winter {
      SteadyAtMidnight(zone, n, t);
    }
    if zone(summer) == EDT {
      assert summer + zone(summer) == n * DAY_MS;
    } else {
      assert winter + zone(winter) == n * DAY_MS;
      EarlierDay(n, summer + zone(summer));
    }
  }

  lemma EarlierDay(n: int, local: int)
    requires local < n * DAY_MS
    ensures local / DAY_MS < n
  {
  }

  // `m` is the first instant of Eastern day n.
  ghost predicate StartsDay(zone: Zone, n: int, m: int) { forall t :: DayAt(zone, t) >= n <==> t >= m }

  lemma DayReached(n: int, local: int)
    ensures local / DAY_MS >= n <==> local >= n * DAY_MS
  {
    var q, r := local / DAY_MS, local % DAY_MS;
    assert local == q * DAY_MS + r && 0 <= r < DAY_MS;
  }

  lemma MidnightStartsDay(zone: Zone, n: int)
    requires SwitchesAtTwo(zone)
    ensures Midnight(zone, n).Some? && StartsDay(zone, n, Midnight(zone, n).value)
  {
    MidnightIsExact(zone, n, 0);
    forall t ensures DayAt(zone, t) >= n <==> t >= Midnight(zone, n).value {
      MidnightIsExact(zone, n, t);
      DayReached(n, t + zone(t));
    }
  }

  lemma StartUnique(zone: Zone, n: int, a: int, b: int)
    requires StartsDay(zone, n, a) && StartsDay(zone, n, b)
    ensures a == b
  {
    assert DayAt(zone, a) >= n && DayAt(zone, b) >= n;
  }

  lemma StartsAscend(zone: Zone, n: int, k: int, a: int, b: int)
    requires StartsDay(zone, n, a) && StartsDay(zone, k, b) && n <= k
    ensures a <= b
  {
    assert DayAt(zone, b) >= k;
  }

  // The start of a day in numbers: its day count in milliseconds, and the four or five hours that the zone is behind.
  lemma StartIsMidnight(zone: Zone, n: int, m: int)
    requires SwitchesAtTwo(zone) && StartsDay(zone, n, m)
    ensures m == n * 86_400_000 - zone(m) && zone(m) in {-14_400_000, -18_000_000}
  {
    MidnightStartsDay(zone, n);
    StartUnique(zone, n, m, Midnight(zone, n).value);
    assert DayAt(zone, m) == n;
  }

  // An instant falls on day n exactly between the midnights of n and n + 1.
  lemma DayBracket(zone: Zone, n: int, a: int, b: int)
    requires StartsDay(zone, n, a) && StartsDay(zone, n + 1, b)
    ensures forall t :: a <= t < b <==> DayAt(zone, t) == n
  {
    forall t ensures a <= t < b <==> DayAt(zone, t) == n {
      assert DayAt(zone, t) >= n <==> t >= a;
    }
  }

  // Probes both offsets in turn; None stands for the error, which an Eastern zone never raises.
  method EtMidnightUtc(zone: Zone, n: int) returns (midnight: Option<int>)
    ensures midnight == Midnight(zone, n)
    ensures SwitchesAtTwo(zone) ==> midnight.Some? && StartsDay(zone, n, midnight.value)
  {
    var offsets := [EDT, EST];
    assert offsets[0] == EDT && offsets[1] == EST;
    midnight := None;
    for i := 0 to 2
      invariant midnight.None?
      invariant forall k :: 0 <= k < i ==> !ShowsMidnight(zone, n, n * DAY_MS - offsets[k])
    {
      var ms := n * DAY_MS - offsets[i];
      assert ms == if i == 0 then n * DAY_MS - EDT else n * DAY_MS - EST;
      if DayAt(zone, ms) == n && MinuteAt(zone, ms) == 0 {
        midnight := Some(ms);
        break;
      }
    }
    if SwitchesAtTwo(zone) {
      MidnightStartsDay(zone, n);
    }
  }

  // ---------- The search window ----------

  datatype Bound = Bound(day: string, startUtc: int, endUtc: int)

  // The bounds are consecutive days that share their ends and together are [start, end).
  ghost predicate Tiles(bounds: seq<Bound>, start: int, end: int) {
    if bounds == [] then end <= start
    else
      bounds[0].startUtc == start && bounds[|bounds| - 1].endUtc == end
      && forall i :: 0 <= i < |bounds| - 1 ==> bounds[i].endUtc == bounds[i + 1].startUtc
  }

  // The bound of day n: labelled with its date, from its midnight to the next.
  ghost predicate BoundOf(zone: Zone, b: Bound, n: int) {
    IsDay(b.day) && Day(b.day) == n && StartsDay(zone, n, b.startUtc) && StartsDay(zone, n + 1, b.endUtc)
  }

  // `d <= untilIso` on the text.
  predicate Within(d: string, untilIso: string): (within: bool)
    requires IsDay(d) && IsDay(untilIso)
    ensures within <==> Day(d) <= Day(untilIso)
  {
    DayOrder(untilIso, d);
    !Less(untilIso, d)
  }

  method MidnightOfDay(zone: Zone, n: int) returns (m: int)
    requires SwitchesAtTwo(zone)
    ensures StartsDay(zone, n, m)
  {
    var midnight := EtMidnightUtc(zone, n);
    m := midnight.value;
  }

  method DayBound(zone: Zone, d: string, ghost n: int) returns (b: Bound, next: string)
    requires SwitchesAtTwo(zone) && IsDay(d) && Day(d) == n && InRange(n + 1)
    ensures IsDay(next) && Day(next) == n + 1
    ensures BoundOf(zone, b, n)
  {
    next := AddDays(d, 1);
    var startUtc := MidnightOfDay(zone, Day(d));
    var endUtc := MidnightOfDay(zone, Day(next));
    b := Bound(d, startUtc, endUtc);
  }

  // One bound per day from `padSince` to `untilIso`.
  method DayBounds(zone: Zone, padSince: string, untilIso: string, ghost first: int, ghost last: int)
    returns (bounds: seq<Bound>)
    requires SwitchesAtTwo(zone) && IsDay(padSince) && IsDay(untilIso)
    requires Day(padSince) == first && Day(untilIso) == last && InRange(first) && InRange(last + 1)
    ensures |bounds| == if first <= last then last - first + 1 else 0
    ensures forall i :: 0 <= i < |bounds| ==> BoundOf(zone, bounds[i], first + i)
  {
    bounds := [];
    var d := padSince;
    while Within(d, untilIso)
      invariant IsDay(d) && Day(d) == first + |bounds|
      invariant |bounds| > 0 ==> first + |bounds| <= last + 1
      invariant forall i :: 0 <= i < |bounds| ==> BoundOf(zone, bounds[i], first + i)
      decreases last + 1 - first - |bounds|
    {
      var b, next := DayBound(zone, d, first + |bounds|);
      bounds := bounds + [b];
      d := next;
    }
  }

  method MidnightAfter(zone: Zone, d: string, days: int, ghost n: int) returns (m: int)
    requires SwitchesAtTwo(zone) && IsDay(d) && Day(d) + days == n && InRange(n)
    ensures StartsDay(zone, n, m)
  {
    m := MidnightOfDay(zone, Day(AddDays(d, days)));
  }

  // The whole window: one bound per day from the day before `since` to `until`; they tile
  // [searchStart, searchEnd), which holds exactly the instants of those days.
  method SearchOutputs(zone: Zone, sinceIso: string, untilIso: string, ghost first: int, ghost last: int)
    returns (bounds: seq<Bound>, searchStart: int, searchEnd: int)
    requires SwitchesAtTwo(zone) && IsDay(sinceIso) && IsDay(untilIso)
    requires first == Day(sinceIso) - 1 && last == Day(untilIso) && InRange(first) && InRange(last + 1)
    ensures |bounds| == if first <= last then last - first + 1 else 0
    ensures forall i :: 0 <= i < |bounds| ==> BoundOf(zone, bounds[i], first + i)
    ensures Tiles(bounds, searchStart, searchEnd)
    ensures StartsDay(zone, first, searchStart) && StartsDay(zone, last + 1, searchEnd)
    ensures searchStart == first * 86_400_000 - zone(searchStart)
    ensures searchEnd == (last + 1) * 86_400_000 - zone(searchEnd)
    ensures forall i :: 0 <= i < |bounds| ==>
              bounds[i].startUtc == (first + i) * 86_400_000 - zone(bounds[i].startUtc)
  {
    var padSince := AddDays(sinceIso, -1);
    bounds := DayBounds(zone, padSince, untilIso, first, last);
    searchStart := MidnightAfter(zone, padSince, 0, first);
    searchEnd := MidnightAfter(zone, untilIso, 1, last + 1);
    BoundsTile(zone, bounds, first, last, searchStart, searchEnd);
    StartIsMidnight(zone, first, searchStart);
    StartIsMidnight(zone, last + 1, searchEnd);
    BoundMidnights(zone, bounds, first);
  }

  lemma BoundMidnights(zone: Zone, bounds: seq<Bound>, first: int)
    requires SwitchesAtTwo(zone) && forall i :: 0 <= i < |bounds| ==> BoundOf(zone, bounds[i], first + i)
    ensures forall i :: 0 <= i < |bounds| ==>
              bounds[i].startUtc == (first + i) * 86_400_000 - zone(bounds[i].startUtc)
  {
    forall i | 0 <= i < |bounds|
      ensures bounds[i].startUtc == (first + i) * 86_400_000 - zone(bounds[i].startUtc)
    {
      StartIsMidnight(zone, first + i, bounds[i].startUtc);
    }
  }

  lemma BoundsTile(zone: Zone, bounds: seq<Bound>, first: int, last: int, start: int, end: int)
    requires |bounds| == if first <= last then last - first + 1 else 0
    requires forall i :: 0 <= i < |bounds| ==> BoundOf(zone, bounds[i], first + i)
    requires StartsDay(zone, first, start) && StartsDay(zone, last + 1, end)
    ensures Tiles(bounds, start, end)
  {
    if bounds == [] {
      StartsAscend(zone, last + 1, first, end, start);
    } else {
      StartUnique(zone, first, start, bounds[0].startUtc);
      StartUnique(zone, last + 1, end, bounds[|bounds| - 1].endUtc);
      forall i | 0 <= i < |bounds| - 1 ensures bounds[i].endUtc == bounds[i + 1].startUtc {
        assert BoundOf(zone, bounds[i], first + i) && BoundOf(zone, bounds[i + 1], first + (i + 1));
        StartUnique(zone, first + i + 1, bounds[i].endUtc, bounds[i + 1].startUtc);
      }
    }
  }
}
