// Which days the next changelog draft covers.
module DraftWindow {
  import opened Strings
  import opened Calendar

  datatype Window = Window(sinceIso: string, untilIso: string, cappedFrom: Option<string>)

  // Both inputs are days whose neighbours are still four-digit years.
  predicate Inputs(latest: Option<string>, today: string) {
    IsDay(today) && InRange(Day(today) - 1) && (latest.Some? ==> IsDay(latest.value) && InRange(Day(latest.value) + 1))
  }

  function ComputeDraftWindow(latest: Option<string>, today: string, maxSpanDays: nat): Window
    requires Inputs(latest, today)
  {
    var until := Day(today) - 1;
    var since := if latest.Some? then Day(latest.value) + 1 else until;
    if until - since > maxSpanDays
    then Window(IsoDay(until - maxSpanDays), IsoDay(until), Some(IsoDay(since)))
    else Window(IsoDay(since), IsoDay(until), None)
  }

  // The caller drafts unless it is already caught up: `sinceIso > untilIso` on the text.
  predicate Drafts(w: Window) { !Less(w.untilIso, w.sinceIso) }

  // ---------- The same in day numbers ----------

  datatype Span = Span(since: int, until: int, cappedFrom: Option<int>) {
    predicate Drafted() { since <= until }
  }

  function SpanOf(latest: Option<int>, today: int, maxSpanDays: nat): Span {
    var until := today - 1;
    var since := if latest.Some? then latest.value + 1 else until;
    if until - since > maxSpanDays then Span(until - maxSpanDays, until, Some(since)) else Span(since, until, None)
  }

  ghost predicate InDays(w: Window, s: Span) {
    IsDay(w.sinceIso) && IsDay(w.untilIso) && Day(w.sinceIso) == s.since && Day(w.untilIso) == s.until
    && (match (w.cappedFrom, s.cappedFrom)
        case (Some(c), Some(n)) => IsDay(c) && Day(c) == n
        case (None, None) => true
        case _ => false)
  }

  function LatestDay(latest: Option<string>): Option<int>
    requires latest.Some? ==> IsDay(latest.value)
  {
    if latest.Some? then Some(Day(latest.value)) else None
  }

  lemma WindowInDays(latest: Option<string>, today: string, maxSpanDays: nat)
    requires Inputs(latest, today)
    ensures InDays(ComputeDraftWindow(latest, today, maxSpanDays), SpanOf(LatestDay(latest), Day(today), maxSpanDays))
  {
  }

  // The text window is the day-number window, and the text comparison decides the same.
  lemma WindowIsSpan(latest: Option<string>, today: string, maxSpanDays: nat)
    requires Inputs(latest, today)
    ensures var w := ComputeDraftWindow(latest, today, maxSpanDays);
            var s := SpanOf(LatestDay(latest), Day(today), maxSpanDays);
            InDays(w, s) && (Drafts(w) <==> s.Drafted())
  {
    WindowInDays(latest, today, maxSpanDays);
    DraftsInDays(ComputeDraftWindow(latest, today, maxSpanDays), SpanOf(LatestDay(latest), Day(today), maxSpanDays));
  }

  lemma DraftsInDays(w: Window, s: Span)
    requires InDays(w, s)
    ensures Drafts(w) <==> s.Drafted()
  {
    DayOrder(w.untilIso, w.sinceIso);
  }

  // ---------- Runs ----------

  function LatestAfter(latest: Option<int>, s: Span): Option<int> { if s.Drafted() then Some(s.until) else latest }

  function Spans(latest: Option<int>, todays: seq<int>, maxSpanDays: nat): seq<Span>
    decreases |todays|
  {
    if todays == [] then []
    else
      var s := SpanOf(latest, todays[0], maxSpanDays);
      [s] + Spans(LatestAfter(latest, s), todays[1..], maxSpanDays)
  }

  // The newest section after all the runs, each of which drafts its whole window.
  function FinalLatest(latest: Option<int>, spans: seq<Span>): Option<int>
    decreases |spans|
  {
    if spans == [] then latest else FinalLatest(LatestAfter(latest, spans[0]), spans[1..])
  }

  // How often day d is drafted or reported as skipped by one run.
  function Covers(s: Span, d: int): nat {
    (if s.Drafted() && s.since <= d <= s.until then 1 else 0)
    + (if s.cappedFrom.Some? && s.cappedFrom.value <= d < s.since then 1 else 0)
  }

  function Total(spans: seq<Span>, d: int): nat {
    if spans == [] then 0 else Covers(spans[0], d) + Total(spans[1..], d)
  }

  // Over any sequence of runs the drafted windows and the reported skips tile the days after the first newest
  // section: up to the last newest section each day is in exactly one of them, and no other day is in any.
  lemma {:induction false} RunsTile(latest: int, todays: seq<int>, maxSpanDays: nat, d: int)
    ensures var spans := Spans(Some(latest), todays, maxSpanDays);
            var final := FinalLatest(Some(latest), spans);
            final.Some? && final.value >= latest
            && Total(spans, d) == if latest < d <= final.value then 1 else 0
    decreases |todays|
  {
    if todays != [] {
      var s := SpanOf(Some(latest), todays[0], maxSpanDays);
      RunsTile(LatestAfter(Some(latest), s).value, todays[1..], maxSpanDays, d);
    }
  }

  // From an empty changelog the tiling starts at the first run's yesterday.
  lemma FirstRunsTile(todays: seq<int>, maxSpanDays: nat, d: int)
    requires todays != []
    ensures var spans := Spans(None, todays, maxSpanDays);
            var final := FinalLatest(None, spans);
            final.Some? && Total(spans, d) == if todays[0] - 1 <= d <= final.value then 1 else 0
  {
    var s := SpanOf(None, todays[0], maxSpanDays);
    RunsTile(s.until, todays[1..], maxSpanDays, d);
  }

  // No window is longer than maxSpanDays + 1 days; a skip is reported exactly when days are left out, and names
  // the first of them; a window reaches yesterday and starts where the last one ended unless it was capped.
  lemma WindowBounds(latest: Option<string>, today: string, maxSpanDays: nat)
    requires Inputs(latest, today)
    ensures var s := SpanOf(LatestDay(latest), Day(today), maxSpanDays);
            InDays(ComputeDraftWindow(latest, today, maxSpanDays), s)
            && s.until - s.since + 1 <= maxSpanDays + 1
            && s.until == Day(today) - 1
            && (latest.Some? ==> (s.cappedFrom.None? <==> s.since == Day(latest.value) + 1))
            && (s.cappedFrom.Some? ==> s.cappedFrom.value < s.since && s.until - s.since == maxSpanDays)
  {
    WindowIsSpan(latest, today, maxSpanDays);
  }
}
