// Session records of the status hub: the events that move them, the stale sweep, retention.
module Sessions {
  import opened Strings

  const STALE_SESSION_MS: nat := 15 * 60 * 1000
  const STALE_TIMEOUT_ERROR: string := "Session timed out (no updates received)"
  const RETENTION_MS: nat := 30 * 24 * 60 * 60 * 1000
  const CLEANUP_INTERVAL_MS: nat := 24 * 60 * 60 * 1000

  type Time = t: int | t > 0 witness 1

  datatype Status = Running | Complete | Error | Cancelled

  datatype Session = Session(
    status: Status,
    startedAt: int,
    lastUpdatedAt: int,
    error: Option<string>,
    errorSource: Option<string>,
    activeSources: seq<string>,
    dismissed: bool,
    cancelRequested: bool)

  predicate IsTerminal(s: Session) { s.status != Running }

  predicate IsSweepTimeout(s: Session) {
    s.status == Error && s.error == Some(STALE_TIMEOUT_ERROR) && s.errorSource == Some("us")
  }

  predicate BlocksLateTerminal(s: Session) { IsTerminal(s) && !IsSweepTimeout(s) }

  // `lastUpdatedAt || startedAt`
  function LastUpdate(s: Session): int { if s.lastUpdatedAt != 0 then s.lastUpdatedAt else s.startedAt }

  predicate Stale(s: Session, now: int) { s.status == Running && now - LastUpdate(s) > STALE_SESSION_MS }

  function Swept(s: Session, now: int): Session {
    if Stale(s, now)
    then s.(status := Error, error := Some(STALE_TIMEOUT_ERROR), errorSource := Some("us"), lastUpdatedAt := now)
    else s
  }

  predicate Expired(s: Session, now: int) { now - LastUpdate(s) > RETENTION_MS && s.status != Running }

  function SweepAll(sessions: map<string, Session>, now: int): map<string, Session> {
    map sid | sid in sessions :: Swept(sessions[sid], now)
  }

  function Unexpired(sessions: map<string, Session>, now: int): map<string, Session> {
    map sid | sid in sessions && !Expired(sessions[sid], now) :: sessions[sid]
  }

  datatype Hub = Hub(sessions: map<string, Session>, cleanupAt: Option<int>)

  datatype Op =
    | Start(sid: string, activeSources: seq<string>, now: Time)
    | Progress(sid: string, nowActive: Option<seq<string>>, now: Time)
    | Completed(sid: string, now: Time)
    | WasCancelled(sid: string, now: Time)
    | Failed(sid: string, error: Option<string>, errorSource: Option<string>, now: Time)
    | Sweep(now: Time)
    | RequestCancel(sid: string)
    | Dismiss(sid: string)
    | Cleanup(now: Time)

  function WithCleanup(h: Hub, now: Time): Hub {
    if h.cleanupAt.Some? then h else h.(cleanupAt := Some(now + CLEANUP_INTERVAL_MS))
  }

  function Put(h: Hub, sid: string, s: Session): Hub { h.(sessions := h.sessions[sid := s]) }

  function Finish(h: Hub, sid: string, status: Status, now: Time): Hub {
    if sid in h.sessions && !BlocksLateTerminal(h.sessions[sid])
    then Put(h, sid, h.sessions[sid].(status := status, error := None, errorSource := None,
                                      activeSources := [], lastUpdatedAt := now))
    else h
  }

  function Fail(h: Hub, sid: string, error: Option<string>, source: Option<string>, now: Time): Hub {
    if sid !in h.sessions
    then WithCleanup(Put(h, sid, Session(Error, now, now, error, source, [], false, false)), now)
    else if IsTerminal(h.sessions[sid]) then h
    else
      var s := h.sessions[sid];
      Put(h, sid, s.(status := Error, error := error, lastUpdatedAt := now,
                     errorSource := if source.Some? then source else s.errorSource))
  }

  function Step(h: Hub, op: Op): Hub {
    match op
    case Start(sid, active, now) =>
      WithCleanup(Put(h, sid, Session(Running, now, now, None, None, active, false, false)), now)
    case Progress(sid, active, now) =>
      if sid in h.sessions
      then
        var s := h.sessions[sid];
        Put(h, sid, s.(lastUpdatedAt := now,
                       activeSources := if active.Some? then active.value else s.activeSources))
      else h
    case Completed(sid, now) => Finish(h, sid, Complete, now)
    case WasCancelled(sid, now) => Finish(h, sid, Cancelled, now)
    case Failed(sid, error, source, now) => Fail(h, sid, error, source, now)
    case Sweep(now) => h.(sessions := SweepAll(h.sessions, now))
    case RequestCancel(sid) =>
      if sid in h.sessions && h.sessions[sid].status == Running
      then Put(h, sid, h.sessions[sid].(cancelRequested := true))
      else h
    case Dismiss(sid) =>
      if sid in h.sessions then Put(h, sid, h.sessions[sid].(dismissed := true)) else h
    case Cleanup(now) =>
      Hub(Unexpired(h.sessions, now), Some(now + CLEANUP_INTERVAL_MS))
  }

  function Run(h: Hub, ops: seq<Op>): Hub
    decreases |ops|
  {
    if ops == [] then h else Run(Step(h, ops[0]), ops[1..])
  }

  // ---------- The fold a session's status follows ----------

  datatype Phase = Live | TimedOut | Done | Stopped | Reported

  // The session's phase and the time of its last update.
  datatype Track = Track(phase: Phase, updatedAt: int)

  function PhaseOf(s: Session): Phase {
    match s.status
    case Running => Live
    case Complete => Done
    case Cancelled => Stopped
    case Error => if IsSweepTimeout(s) then TimedOut else Reported
  }

  function TrackOf(s: Session): Track { Track(PhaseOf(s), s.lastUpdatedAt) }

  function Follow(t: Track, sid: string, op: Op): Track {
    match op
    case Progress(id, _, now) => if id == sid then t.(updatedAt := now) else t
    case Completed(id, now) => if id == sid && t.phase in {Live, TimedOut} then Track(Done, now) else t
    case WasCancelled(id, now) => if id == sid && t.phase in {Live, TimedOut} then Track(Stopped, now) else t
    case Failed(id, error, source, now) =>
      if id == sid && t.phase == Live
      then Track(if error == Some(STALE_TIMEOUT_ERROR) && source == Some("us") then TimedOut else Reported, now)
      else t
    case Sweep(now) => if t.phase == Live && now - t.updatedAt > STALE_SESSION_MS then Track(TimedOut, now) else t
    case Start(_, _, _) => t
    case RequestCancel(_) => t
    case Dismiss(_) => t
    case Cleanup(_) => t
  }

  function FollowAll(t: Track, sid: string, ops: seq<Op>): Track
    decreases |ops|
  {
    if ops == [] then t else FollowAll(Follow(t, sid, ops[0]), sid, ops[1..])
  }

  // Neither started again nor cleaned up along the run.
  predicate Kept(h: Hub, sid: string, ops: seq<Op>): (kept: bool)
    ensures kept ==> sid in h.sessions && sid in Run(h, ops).sessions
    decreases |ops|
  {
    sid in h.sessions
    && (ops != [] ==> !(ops[0].Start? && ops[0].sid == sid) && Kept(Step(h, ops[0]), sid, ops[1..]))
  }

  // A running session carries no error of an earlier life.
  predicate Clean(s: Session) {
    s.lastUpdatedAt > 0 && (s.status == Running ==> s.error.None? && s.errorSource.None?)
  }

  lemma StepFollows(h: Hub, sid: string, op: Op)
    requires sid in h.sessions && Clean(h.sessions[sid]) && !(op.Start? && op.sid == sid)
    requires sid in Step(h, op).sessions
    ensures Clean(Step(h, op).sessions[sid])
    ensures TrackOf(Step(h, op).sessions[sid]) == Follow(TrackOf(h.sessions[sid]), sid, op)
  {
  }

  // From session:start to cleanup, through any history of any sessions, the stored session is the fold.
  lemma {:induction false} StatusIsFold(h: Hub, sid: string, ops: seq<Op>)
    requires Kept(h, sid, ops) && Clean(h.sessions[sid])
    ensures sid in Run(h, ops).sessions && Clean(Run(h, ops).sessions[sid])
    ensures TrackOf(Run(h, ops).sessions[sid]) == FollowAll(TrackOf(h.sessions[sid]), sid, ops)
    decreases |ops|
  {
    if ops != [] {
      StepFollows(h, sid, ops[0]);
      StatusIsFold(Step(h, ops[0]), sid, ops[1..]);
    }
  }

  function Rank(p: Phase): nat {
    match p case Live => 0 case TimedOut => 1 case Done => 2 case Stopped => 2 case Reported => 2
  }

  function StatusChanges(h: Hub, sid: string, ops: seq<Op>): nat
    requires Kept(h, sid, ops)
    decreases |ops|
  {
    if ops == [] then 0
    else
      var next := Step(h, ops[0]);
      assert Kept(next, sid, ops[1..]);
      (if next.sessions[sid].status != h.sessions[sid].status then 1 else 0) + StatusChanges(next, sid, ops[1..])
  }

  // At most two status changes from a fresh start, at most one after a timeout, none after a final status.
  lemma {:induction false} FewStatusChanges(h: Hub, sid: string, ops: seq<Op>)
    requires Kept(h, sid, ops) && Clean(h.sessions[sid])
    ensures StatusChanges(h, sid, ops) + Rank(PhaseOf(h.sessions[sid])) <= 2
    ensures sid in Run(h, ops).sessions
    ensures Rank(PhaseOf(Run(h, ops).sessions[sid])) >= Rank(PhaseOf(h.sessions[sid])) + StatusChanges(h, sid, ops)
    decreases |ops|
  {
    if ops != [] {
      StepFollows(h, sid, ops[0]);
      FewStatusChanges(Step(h, ops[0]), sid, ops[1..]);
    }
  }

  // complete, cancelled and reported errors keep status, text and source for good; a timeout can only become
  // complete or cancelled.
  lemma {:induction false} FinalIsFinal(h: Hub, sid: string, ops: seq<Op>)
    requires Kept(h, sid, ops) && Clean(h.sessions[sid]) && IsTerminal(h.sessions[sid])
    ensures sid in Run(h, ops).sessions
    ensures var before, after := h.sessions[sid], Run(h, ops).sessions[sid];
            (after.status, after.error, after.errorSource) == (before.status, before.error, before.errorSource)
            || (IsSweepTimeout(before) && after.status in {Complete, Cancelled}
                && after.error.None? && after.errorSource.None?)
    decreases |ops|
  {
    if ops != [] {
      StepFollows(h, sid, ops[0]);
      FinalIsFinal(Step(h, ops[0]), sid, ops[1..]);
    }
  }

  // A history that starts the session and then leaves it alone: the fold from a live track.
  lemma StartedSession(h: Hub, sid: string, active: seq<string>, now: Time, ops: seq<Op>)
    requires Kept(Step(h, Start(sid, active, now)), sid, ops)
    ensures var first := Step(h, Start(sid, active, now));
            sid in Run(first, ops).sessions
            && TrackOf(Run(first, ops).sessions[sid]) == FollowAll(Track(Live, now), sid, ops)
            && StatusChanges(first, sid, ops) <= 2
  {
    var first := Step(h, Start(sid, active, now));
    StatusIsFold(first, sid, ops);
    FewStatusChanges(first, sid, ops);
  }

  // A sweep marks exactly the running sessions without an update for more than fifteen minutes, and touches no other.
  lemma SweepMarksSilent(h: Hub, now: Time, sid: string)
    ensures var after := Step(h, Sweep(now));
            (sid in after.sessions <==> sid in h.sessions) && after.cleanupAt == h.cleanupAt
            && (sid in h.sessions ==>
                  var s := h.sessions[sid];
                  var silent := now - (if s.lastUpdatedAt != 0 then s.lastUpdatedAt else s.startedAt) > 900_000;
                  after.sessions[sid]
                  == if s.status == Running && silent
                     then s.(status := Error, error := Some("Session timed out (no updates received)"),
                             errorSource := Some("us"), lastUpdatedAt := now)
                     else s)
  {
  }

  // Every other event changes at most its own session.
  predicate About(op: Op, sid: string) {
    match op
    case Sweep(_) => true
    case Cleanup(_) => true
    case _ => op.sid == sid
  }

  lemma OthersAreLeft(h: Hub, op: Op, sid: string)
    requires !About(op, sid)
    ensures sid in Step(h, op).sessions <==> sid in h.sessions
    ensures sid in h.sessions ==> Step(h, op).sessions[sid] == h.sessions[sid]
  {
  }

  // A start, and an error of an unknown session, make a new record: not dismissed and not asked to cancel.
  lemma NewRecords(h: Hub, sid: string, active: seq<string>, error: Option<string>, source: Option<string>, now: Time)
    ensures Step(h, Start(sid, active, now)).sessions
         == h.sessions[sid := Session(Running, now, now, None, None, active, false, false)]
    ensures sid !in h.sessions ==>
              Step(h, Failed(sid, error, source, now)).sessions
              == h.sessions[sid := Session(Error, now, now, error, source, [], false, false)]
    ensures h.cleanupAt.None? ==>
              Step(h, Start(sid, active, now)).cleanupAt == Some(now + 86_400_000)
              && (sid !in h.sessions ==> Step(h, Failed(sid, error, source, now)).cleanupAt == Some(now + 86_400_000))
    ensures h.cleanupAt.Some? ==> Step(h, Start(sid, active, now)).cleanupAt == h.cleanupAt
  {
  }

  // What else one event does to a session that it does not start: progress replaces the active sources when it names
  // some, finishing clears them and any error text, and an error on a running session sets its text and, if it gives
  // one, its source. The start time never changes.
  lemma StepFields(h: Hub, sid: string, op: Op)
    requires sid in h.sessions && !op.Start? && !op.Sweep? && sid in Step(h, op).sessions
    ensures var s, after := h.sessions[sid], Step(h, op).sessions[sid];
            var finishes := About(op, sid) && (op.Completed? || op.WasCancelled?) && PhaseOf(s) in {Live, TimedOut};
            var fails := About(op, sid) && op.Failed? && s.status == Running;
            after.startedAt == s.startedAt
            && after.activeSources == (if finishes then []
                                       else if op.Progress? && op.sid == sid && op.nowActive.Some?
                                       then op.nowActive.value
                                       else s.activeSources)
            && after.error == (if finishes then None else if fails then op.error else s.error)
            && after.errorSource == (if finishes then None
                                     else if fails && op.errorSource.Some? then op.errorSource
                                     else s.errorSource)
  {
  }

  // A session is hidden exactly when it was dismissed since it started.
  lemma {:induction false} DismissedIff(h: Hub, sid: string, ops: seq<Op>)
    requires Kept(h, sid, ops)
    ensures sid in Run(h, ops).sessions
    ensures Run(h, ops).sessions[sid].dismissed
            <==> h.sessions[sid].dismissed || exists i :: 0 <= i < |ops| && ops[i] == Dismiss(sid)
    decreases |ops|
  {
    if ops != [] {
      var next := Step(h, ops[0]);
      DismissedIff(next, sid, ops[1..]);
      assert next.sessions[sid].dismissed <==> h.sessions[sid].dismissed || ops[0] == Dismiss(sid);
      assert forall i :: 0 < i < |ops| ==> ops[i] == ops[1..][i - 1];
    }
  }

  // It is asked to cancel exactly when a cancel came in while it was running.
  lemma {:induction false} CancelledIff(h: Hub, sid: string, ops: seq<Op>)
    requires Kept(h, sid, ops) && Clean(h.sessions[sid])
    ensures sid in Run(h, ops).sessions
    ensures Run(h, ops).sessions[sid].cancelRequested
            <==> h.sessions[sid].cancelRequested
                 || exists i :: 0 <= i < |ops| && ops[i] == RequestCancel(sid)
                                && FollowAll(TrackOf(h.sessions[sid]), sid, ops[..i]).phase == Live
    decreases |ops|
  {
    if ops != [] {
      var t, next, rest := TrackOf(h.sessions[sid]), Step(h, ops[0]), ops[1..];
      StepFollows(h, sid, ops[0]);
      CancelledIff(next, sid, rest);
      var t' := Follow(t, sid, ops[0]);
      assert next.sessions[sid].cancelRequested
        <==> h.sessions[sid].cancelRequested || (ops[0] == RequestCancel(sid) && t.phase == Live);
      forall i | 0 < i < |ops| ensures FollowAll(t, sid, ops[..i]) == FollowAll(t', sid, rest[..i - 1]) {
        assert ops[..i][1..] == rest[..i - 1];
      }
      assert FollowAll(t, sid, ops[..0]) == t;
      assert forall i :: 0 < i < |ops| ==> ops[i] == rest[i - 1];
      if i: nat :| i < |rest| && rest[i] == RequestCancel(sid) && FollowAll(t', sid, rest[..i]).phase == Live {
        assert ops[i + 1] == RequestCancel(sid) && FollowAll(t, sid, ops[..i + 1]).phase == Live;
      }
    }
  }

  // A hub that holds any session has its cleanup alarm set.
  lemma {:induction false} CleanupIsScheduled(h: Hub, ops: seq<Op>)
    requires h.sessions != map[] ==> h.cleanupAt.Some?
    ensures Run(h, ops).sessions != map[] ==> Run(h, ops).cleanupAt.Some?
    decreases |ops|
  {
    if ops != [] {
      CleanupIsScheduled(Step(h, ops[0]), ops[1..]);
    }
  }

  // Thirty days.
  const KEPT_MS: int := 2_592_000_000

  // Running, or last updated (else started) at most thirty days ago.
  predicate Retained(s: Session, now: int) {
    s.status == Running || now - (if s.lastUpdatedAt != 0 then s.lastUpdatedAt else s.startedAt) <= KEPT_MS
  }

  // A cleanup keeps exactly the retained sessions, as they were, and looks again a day later.
  lemma CleanupKeepsRetained(h: Hub, now: Time)
    ensures var after := Step(h, Cleanup(now));
            (forall sid :: sid in after.sessions <==> sid in h.sessions && Retained(h.sessions[sid], now))
            && (forall sid :: sid in after.sessions ==> after.sessions[sid] == h.sessions[sid])
            && after.cleanupAt == Some(now + 86_400_000)
  {
  }

  // Only a cleanup forgets a session, and never a running one: a session that is running before each cleanup of a run,
  // or was updated within thirty days of it, is there at the end.
  lemma {:induction false} RetainedSurvives(h: Hub, sid: string, ops: seq<Op>)
    requires sid in h.sessions && KeptRetained(h, sid, ops)
    ensures sid in Run(h, ops).sessions
    decreases |ops|
  {
    if ops != [] {
      RetainedSurvives(Step(h, ops[0]), sid, ops[1..]);
    }
  }

  // At every cleanup of the run the session, if it is still there, is retained.
  predicate KeptRetained(h: Hub, sid: string, ops: seq<Op>)
    decreases |ops|
  {
    ops != [] ==>
      (ops[0].Cleanup? && sid in h.sessions ==> Retained(h.sessions[sid], ops[0].now))
      && KeptRetained(Step(h, ops[0]), sid, ops[1..])
  }
}
