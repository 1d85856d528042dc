// How often a source is polled and when it is next due, read from its row.
module FetchPlan {
  import opened Strings

  const HOUR_MS: nat := 3_600_000

  // A nullable timestamp column after Date.parse.
  datatype Stamp = Missing | Malformed | At(ms: int)

  datatype Priority = Normal | Low | Paused
  datatype Cadence = Poll | FirecrawlWebhook | Push
  datatype Source = Source(priority: Priority, cadence: Cadence, lastPolledAt: Stamp, nextFetchAfter: Stamp)

  datatype Plan = Plan(cadence: Cadence, paused: bool, intervalHours: Option<nat>)

  function DescribeFetchPlan(row: Source): Plan {
    if row.cadence != Poll then Plan(row.cadence, row.priority == Paused, None)
    else
      Plan(Poll, row.priority == Paused,
           match row.priority case Normal => Some(4) case Low => Some(24) case Paused => None)
  }

  // `nextDueAt` of computeFetchState: the tier interval, pushed out by a later backoff.
  function NextDueAt(row: Source, plan: Plan, now: int): Option<int> {
    if plan.paused || plan.cadence != Poll || plan.intervalHours.None? then None
    else
      var base := if row.lastPolledAt.At? then row.lastPolledAt.ms else now;
      var tierDue := base + plan.intervalHours.value * HOUR_MS;
      if row.nextFetchAfter.At? && row.nextFetchAfter.ms > tierDue then Some(row.nextFetchAfter.ms)
      else Some(tierDue)
  }

  // A source has a due time exactly when it is polled by tier.
  lemma DueTimeIffPolled(row: Source, now: int)
    ensures NextDueAt(row, DescribeFetchPlan(row), now).Some? <==> row.cadence == Poll && row.priority != Paused
    ensures NextDueAt(row, DescribeFetchPlan(row), now).Some?
            ==> DescribeFetchPlan(row).intervalHours in {Some(4), Some(24)}
    ensures DescribeFetchPlan(row).cadence == row.cadence && (DescribeFetchPlan(row).paused <==> row.priority == Paused)
  {
  }

  // The alarm's own due time: a row that was never polled is due now unless a backoff holds it.
  function EffectiveDue(row: Source, nextDueAt: int, now: int): int {
    if row.lastPolledAt.Missing? then
      if row.nextFetchAfter.At? then row.nextFetchAfter.ms else now
    else nextDueAt
  }

  // The instant from which the alarm treats a polled row as due: the backoff or now for one that was never polled;
  // else four hours (a day for low priority) after the last poll, or after now if its time is unreadable, and not
  // before the backoff.
  predicate IsDueTime(row: Source, now: int, due: int) {
    var interval := if row.priority == Low then 86_400_000 else 14_400_000;
    match (row.lastPolledAt, row.nextFetchAfter)
    case (Missing, At(backoff)) => due == backoff
    case (Missing, _) => due == now
    case (At(polled), At(backoff)) => due == (if backoff > polled + interval then backoff else polled + interval)
    case (At(polled), _) => due == polled + interval
    case (Malformed, At(backoff)) => due == (if backoff > now + interval then backoff else now + interval)
    case (Malformed, _) => due == now + interval
  }

  lemma DueTimeIs(row: Source, now: int)
    requires row.cadence == Poll && row.priority != Paused
    ensures var next := NextDueAt(row, DescribeFetchPlan(row), now);
            next.Some? && IsDueTime(row, now, EffectiveDue(row, next.value, now))
    ensures DescribeFetchPlan(row).intervalHours == Some(if row.priority == Low then 24 else 4)
  {
  }
}
