// One Durable Object per source: its alarm, the in-flight lease on a workflow run, and the D1 mirror.
module SourceActor {
  import opened Strings
  import opened FetchPlan
  import opened WorkflowIds
  import ScrapeLock

  const CREATE_FAILURE_RETRY_MS: nat := 10 * 60 * 1000
  const DUE_SLACK_MS: nat := 30 * 1000
  const STALE_ALARM_MS: nat := 60_000
  const SEED_JITTER_WINDOW_MS: nat := 5 * 60 * 1000

  const LIVE_STATUSES: set<string> := {"queued", "running", "waiting", "paused", "waitingForPause"}

  datatype ActorState = ActorState(nextAlarmAt: Option<int>, inFlight: bool, lastFiredAt: Option<nat>)

  // The `actor_*` columns of the source's D1 row.
  datatype Mirror = Mirror(managed: bool, nextAlarmAt: Option<int>)

  // What the workflow service answers about one instance id.
  datatype Lookup = Status(status: string) | NotFound | LookupError

  // The workflow binding: missing, without `get`, or complete.
  datatype Binding = Absent | CreateOnly | Full

  // Everything one alarm() run reads from its environment.
  datatype Tick = Tick(
    now: nat,
    row: Option<Source>,
    orgPaused: bool,
    binding: Binding,
    controlPlaneOk: bool,
    statuses: map<string, Lookup>,
    mirrorOk: bool)

  // The actor's storage and alarm, its mirror, and the workflow service: all instance ids, and when this
  // source's own creates were accepted.
  datatype World = World(
    sourceId: Option<string>,
    state: Option<ActorState>,
    alarm: Option<int>,
    mirror: Mirror,
    instances: set<string>,
    fires: seq<nat>)

  const FRESH := World(None, None, None, Mirror(false, None), {}, [])

  // ---------- The handlers as functions ----------

  function MirrorTo(w: World, nextAlarm: Option<int>, managed: bool, ok: bool): World {
    if ok then w.(mirror := Mirror(managed, nextAlarm)) else w
  }

  function Seed(w: World, name: string, next: int, ok: bool): World {
    MirrorTo(w.(sourceId := Some(name), alarm := Some(next)), Some(next), true, ok)
  }

  function EnsureScheduled(w: World, name: string, now: nat, force: bool, jitter: nat, ok: bool): World {
    if w.alarm.Some? && w.alarm.value > now - STALE_ALARM_MS && !force
    then MirrorTo(w.(sourceId := Some(name)), w.alarm, true, ok)
    else Seed(w, name, now + jitter, ok)
  }

  function ScheduleAt(w: World, at: int, inFlight: bool, lastFiredAt: Option<nat>, ok: bool): World {
    MirrorTo(w.(alarm := Some(at), state := Some(ActorState(Some(at), inFlight, lastFiredAt))), Some(at), true, ok)
  }

  function NoReschedule(w: World, ok: bool): World {
    MirrorTo(w.(alarm := None, state := Some(ActorState(None, false, None))), None, false, ok)
  }

  function Stop(w: World, ok: bool): World {
    MirrorTo(w.(alarm := None, state := None), None, false, ok)
  }

  predicate PreviousWorkflowAlive(t: Tick, id: string) {
    t.binding == Full && id in t.statuses
    && (t.statuses[id].LookupError? || (t.statuses[id].Status? && t.statuses[id].status in LIVE_STATUSES))
  }

  predicate CreateAccepted(w: World, t: Tick, id: string) {
    t.binding != Absent && t.controlPlaneOk && id !in w.instances
  }

  function Fire(w: World, name: string, t: Tick): World {
    if CreateAccepted(w, t, WorkflowId(name, t.now))
    then w.(instances := w.instances + {WorkflowId(name, t.now)}, fires := w.fires + [t.now])
    else w
  }

  function LastFired(w: World): Option<nat> { if w.state.Some? then w.state.value.lastFiredAt else None }

  // The row wants local polling at all.
  predicate Schedulable(t: Tick) {
    t.row.Some? && !t.orgPaused && NextDueAt(t.row.value, DescribeFetchPlan(t.row.value), t.now).Some?
  }

  function DueAt(t: Tick): int
    requires Schedulable(t)
  {
    EffectiveDue(t.row.value, NextDueAt(t.row.value, DescribeFetchPlan(t.row.value), t.now).value, t.now)
  }

  predicate Due(t: Tick) { Schedulable(t) && DueAt(t) <= t.now + DUE_SLACK_MS }

  // The in-flight guard: inside the window nobody asks; past it the service decides.
  predicate Holds(name: string, t: Tick, firedAt: nat) {
    t.now - firedAt < SAFETY_WINDOW_MS || PreviousWorkflowAlive(t, WorkflowId(name, firedAt))
  }

  predicate Guarded(w: World, name: string, t: Tick) {
    w.state.Some? && w.state.value.inFlight && w.state.value.lastFiredAt.Some?
    && Holds(name, t, w.state.value.lastFiredAt.value)
  }

  function FireAndSchedule(w: World, name: string, t: Tick, hours: Option<nat>): World {
    var fired := CreateAccepted(w, t, WorkflowId(name, t.now));
    var interval := (if hours.Some? then hours.value else 4) * HOUR_MS;
    ScheduleAt(Fire(w, name, t), t.now + (if fired then interval else CREATE_FAILURE_RETRY_MS),
               fired, if fired then Some(t.now) else LastFired(w), t.mirrorOk)
  }

  function Alarm(w0: World, t: Tick): World {
    var w := w0.(alarm := None);
    if w.sourceId.None? || w.sourceId.value == "" then w
    else
      var name := w.sourceId.value;
      if t.row.None? then Stop(w, t.mirrorOk)
      else if !Schedulable(t) then NoReschedule(w, t.mirrorOk)
      else if !Due(t) then ScheduleAt(w, DueAt(t), false, LastFired(w), t.mirrorOk)
      else if Guarded(w, name, t) then
        ScheduleAt(w, t.now + SAFETY_WINDOW_MS, true, w.state.value.lastFiredAt, t.mirrorOk)
      else FireAndSchedule(w, name, t, DescribeFetchPlan(t.row.value).intervalHours)
  }

  // ---------- Runs ----------

  datatype Op =
    | Ensure(now: nat, force: bool, jitter: nat, mirrorOk: bool)
    | Changed(now: nat, jitter: nat, mirrorOk: bool)
    | AlarmFires(tick: Tick)
    | CrashAfterCreate(tick: Tick) // the create went through, the run died before it was recorded
    | OtherSourceFires(source: string, now: nat)

  function Step(w: World, name: string, op: Op): World {
    match op
    case Ensure(now, force, jitter, ok) => EnsureScheduled(w, name, now, force, jitter, ok)
    case Changed(now, jitter, ok) => Seed(w, name, now + jitter, ok)
    case AlarmFires(t) => Alarm(w, t)
    case CrashAfterCreate(t) => Fire(w, name, t)
    case OtherSourceFires(s, now) => w.(instances := w.instances + {WorkflowId(s, now)})
  }

  function Run(w: World, name: string, ops: seq<Op>): World
    decreases |ops|
  {
    if ops == [] then w else Run(Step(w, name, ops[0]), name, ops[1..])
  }

  predicate WellFormed(name: string, op: Op) {
    (op.OtherSourceFires? ==> op.source != name)
    && (op.Ensure? || op.Changed? ==> op.jitter < SEED_JITTER_WINDOW_MS)
  }

  predicate AllWellFormed(name: string, ops: seq<Op>) {
    forall i :: 0 <= i < |ops| ==> WellFormed(name, ops[i])
  }

  // ---------- Instance ids ----------

  // The service's ids for this source are exactly the buckets of its accepted creates, each once; every
  // scheduled actor knows its own name.
  ghost predicate Valid(w: World, name: string) {
    name != ""
    && (w.sourceId.Some? ==> w.sourceId.value == name)
    && (w.alarm.Some? || w.state.Some? ==> w.sourceId.Some?)
    && (forall b: nat :: IdText(name, b) in w.instances <==> exists i :: 0 <= i < |w.fires| && Bucket(w.fires[i]) == b)
    && (forall i, j :: 0 <= i < j < |w.fires| ==> Bucket(w.fires[i]) != Bucket(w.fires[j]))
  }

  lemma FireValid(w: World, name: string, t: Tick)
    requires Valid(w, name)
    ensures Valid(Fire(w, name, t), name)
  {
    var after := Fire(w, name, t);
    if after != w {
      forall b: nat
        ensures IdText(name, b) in after.instances
                <==> exists i :: 0 <= i < |after.fires| && Bucket(after.fires[i]) == b
      {
        IdTextInjective(name, b, name, Bucket(t.now));
        if b == Bucket(t.now) {
          assert after.fires[|w.fires|] == t.now;
        } else if IdText(name, b) in w.instances {
          var i :| 0 <= i < |w.fires| && Bucket(w.fires[i]) == b;
          assert after.fires[i] == w.fires[i];
        }
      }
      forall i | 0 <= i < |w.fires| ensures Bucket(w.fires[i]) != Bucket(t.now) {
        assert IdText(name, Bucket(w.fires[i])) in w.instances;
      }
    }
  }

  lemma OtherValid(w: World, name: string, s: string, now: nat)
    requires Valid(w, name) && s != name
    ensures Valid(w.(instances := w.instances + {WorkflowId(s, now)}), name)
  {
    forall b: nat ensures IdText(name, b) != WorkflowId(s, now) {
      IdTextInjective(name, b, s, Bucket(now));
    }
  }

  // An alarm run touches the service only through one create.
  lemma AlarmCreates(w: World, name: string, t: Tick)
    requires w.sourceId.Some? ==> w.sourceId.value == name
    ensures var after := Alarm(w, t);
            after.sourceId == w.sourceId
            && (w.sourceId.None? ==> after == w.(alarm := None))
            && ((after.instances, after.fires) == (w.instances, w.fires)
                || (after.instances, after.fires) == (Fire(w, name, t).instances, Fire(w, name, t).fires))
  {
  }

  lemma SameServiceValid(w: World, after: World, name: string)
    requires Valid(w, name) && (after.instances, after.fires) == (w.instances, w.fires)
    requires after.sourceId.Some? ==> after.sourceId.value == name
    requires after.alarm.Some? || after.state.Some? ==> after.sourceId.Some?
    ensures Valid(after, name)
  {
  }

  lemma AlarmValid(w: World, name: string, t: Tick)
    requires Valid(w, name)
    ensures Valid(Alarm(w, t), name)
  {
    AlarmCreates(w, name, t);
    FireValid(w, name, t);
    var after := Alarm(w, t);
    if (after.instances, after.fires) == (w.instances, w.fires) {
      SameServiceValid(w, after, name);
    } else {
      SameServiceValid(Fire(w, name, t), after, name);
    }
  }

  lemma StepValid(w: World, name: string, op: Op)
    requires Valid(w, name) && WellFormed(name, op)
    ensures Valid(Step(w, name, op), name)
    ensures w.sourceId.Some? ==> Step(w, name, op).sourceId.Some?
    ensures op.OtherSourceFires? ==> WorkflowId(op.source, op.now) in Step(w, name, op).instances
  {
    match op {
      case AlarmFires(t) =>
        AlarmValid(w, name, t);
        AlarmCreates(w, name, t);
      case CrashAfterCreate(t) => FireValid(w, name, t);
      case OtherSourceFires(s, now) => OtherValid(w, name, s, now);
      case Ensure(_, _, _, _) => SameServiceValid(w, Step(w, name, op), name);
      case Changed(_, _, _) => SameServiceValid(w, Step(w, name, op), name);
    }
  }

  // In every reachable state, pauses, stops and crashes included: a pending alarm has its source id, and all
  // instances created for the source lie in different 15-minute buckets.
  lemma {:induction false} RunValid(w: World, name: string, ops: seq<Op>)
    requires Valid(w, name) && AllWellFormed(name, ops)
    ensures Valid(Run(w, name, ops), name)
    ensures Run(w, name, ops).alarm.Some? ==> Run(w, name, ops).sourceId == Some(name)
    ensures var fires := Run(w, name, ops).fires;
            forall i, j :: 0 <= i < j < |fires| ==> Bucket(fires[i]) != Bucket(fires[j])
    decreases |ops|
  {
    if ops != [] {
      StepValid(w, name, ops[0]);
      RunValid(Step(w, name, ops[0]), name, ops[1..]);
    }
  }

  lemma FreshIsValid(name: string)
    requires name != ""
    ensures Valid(FRESH, name) && FRESH.mirror == MirrorOf(FRESH.alarm)
  {
  }

  // A create is refused as a duplicate exactly when this source already fired in this bucket; no other
  // source's instances are ever in the way.
  lemma CollisionIffSameBucket(w: World, name: string, t: Tick)
    requires Valid(w, name)
    ensures CreateAccepted(w, t, WorkflowId(name, t.now))
            <==> (t.binding != Absent && t.controlPlaneOk
                  && forall i :: 0 <= i < |w.fires| ==> Bucket(w.fires[i]) != Bucket(t.now))
  {
  }

  // ---------- Alarm discipline ----------

  function MirrorOf(alarm: Option<int>): Mirror { Mirror(alarm.Some?, alarm) }

  // One alarm run, from any reachable state: it leaves either an alarm more than the slack ahead or none, none
  // exactly for a row without local cadence; its own state agrees, and the mirror if it could be written.
  lemma AlarmOutcome(w: World, name: string, t: Tick)
    requires Valid(w, name) && w.sourceId.Some?
    ensures var after := Alarm(w, t);
            (after.alarm.Some? <==> Schedulable(t))
            && (after.alarm.Some? ==> after.alarm.value > t.now + DUE_SLACK_MS)
            && (after.state.Some? ==> after.state.value.nextAlarmAt == after.alarm)
            && (after.state.None? <==> t.row.None?)
            && (t.mirrorOk ==> after.mirror == MirrorOf(after.alarm))
  {
    if t.row.Some? {
      DueTimeIffPolled(t.row.value, t.now);
    }
  }

  // Local polling is wanted: the row is there, its organisation is not paused, and it is polled and not paused itself.
  predicate Polled(t: Tick) {
    t.row.Some? && !t.orgPaused && t.row.value.cadence == Poll && t.row.value.priority != Paused
  }

  // What an alarm run does before it looks at the workflow service. A deleted source loses its state; one that is not
  // polled is left without a lease; one that is not due for more than half a minute waits for its due time, and drops
  // the lease but keeps the time of its last create.
  lemma AlarmBeforeDue(w: World, name: string, t: Tick, due: int)
    requires Valid(w, name) && w.sourceId.Some?
    requires Polled(t) ==> IsDueTime(t.row.value, t.now, due)
    ensures var after := Alarm(w, t);
            (t.row.None? ==> after.state == None && after.alarm == None)
            && (t.row.Some? && !Polled(t) ==> after.state == Some(ActorState(None, false, None)) && after.alarm == None)
            && (Polled(t) && due > t.now + 30_000 ==>
                  after.alarm == Some(due)
                  && after.state == Some(ActorState(Some(due), false,
                                                    if w.state.Some? then w.state.value.lastFiredAt else None)))
            && (!Polled(t) || due > t.now + 30_000 ==> after.fires == w.fires && after.instances == w.instances)
    ensures Polled(t) <==> Schedulable(t)
    ensures Due(t) <==> Polled(t) && due <= t.now + 30_000
  {
    if t.row.Some? {
      DueTimeIffPolled(t.row.value, t.now);
      if Polled(t) {
        DueTimeIs(t.row.value, t.now);
      }
    }
  }

  predicate WritesMirror(op: Op) {
    match op
    case Ensure(_, _, _, ok) => ok
    case Changed(_, _, ok) => ok
    case AlarmFires(t) => t.mirrorOk
    case CrashAfterCreate(_) => false
    case OtherSourceFires(_, _) => false
  }

  // Whatever came before, a handler whose mirror write succeeds leaves the mirror equal to the pending alarm.
  lemma MirrorCatchesUp(w: World, name: string, op: Op)
    requires Valid(w, name) && WritesMirror(op) && (op.AlarmFires? ==> w.sourceId.Some?)
    ensures Step(w, name, op).mirror == MirrorOf(Step(w, name, op).alarm)
  {
    if op.AlarmFires? {
      AlarmOutcome(w, name, op.tick);
    }
  }

  predicate QuietHeartbeat(op: Op, alarm: int) { op.Ensure? && !op.force && op.now < alarm + 60_000 }

  // Heartbeats never move an alarm that can still fire within a minute of its time.
  lemma {:induction false} HeartbeatsKeepAlarm(w: World, name: string, ops: seq<Op>)
    requires w.alarm.Some? && forall i :: 0 <= i < |ops| ==> QuietHeartbeat(ops[i], w.alarm.value)
    ensures Run(w, name, ops).alarm == w.alarm && Run(w, name, ops).state == w.state
    decreases |ops|
  {
    if ops != [] {
      assert QuietHeartbeat(ops[0], w.alarm.value);
      var next := Step(w, name, ops[0]);
      assert next.alarm == w.alarm;
      HeartbeatsKeepAlarm(next, name, ops[1..]);
    }
  }

  // A heartbeat moves the alarm exactly when there is none, it is a minute overdue, or the call is forced.
  lemma HeartbeatMovesIff(w: World, name: string, now: nat, force: bool, jitter: nat, ok: bool)
    requires w.alarm != Some(now + jitter)
    ensures EnsureScheduled(w, name, now, force, jitter, ok).alarm != w.alarm
            <==> w.alarm.None? || force || now >= w.alarm.value + 60_000
    ensures EnsureScheduled(w, name, now, force, jitter, ok).alarm in {w.alarm, Some(now + jitter)}
  {
  }

  // A seeded alarm fires within five minutes; a change of the source always seeds, a heartbeat only when it moves the
  // alarm.
  lemma SeedsSoon(w: World, name: string, op: Op)
    requires WellFormed(name, op) && (op.Ensure? || op.Changed?)
    ensures var after := Step(w, name, op);
            after.alarm.Some? && after.sourceId == Some(name)
            && (op.Changed? || after.alarm != w.alarm ==> op.now <= after.alarm.value < op.now + 300_000)
            && after.state == w.state && after.instances == w.instances && after.fires == w.fires
  {
  }

  // ---------- The in-flight lease ----------

  // The actor holds the lease of the create accepted at `firedAt`, the latest one.
  predicate Leased(w: World, name: string, firedAt: nat) {
    w.sourceId == Some(name) && name != "" && w.fires != [] && w.fires[|w.fires| - 1] == firedAt
    && w.state.Some? && w.state.value.inFlight && w.state.value.lastFiredAt == Some(firedAt)
  }

  // Without crashes between create and record: the recorded fire time is always the latest accepted create.
  ghost predicate Tracks(w: World) {
    w.state.Some? && w.state.value.lastFiredAt.Some? ==>
      w.fires != [] && w.state.value.lastFiredAt.value == w.fires[|w.fires| - 1]
  }

  predicate Lookups(w: World) { w.state.Some? && w.state.value.inFlight ==> w.state.value.lastFiredAt.Some? }

  lemma TracksStep(w: World, name: string, op: Op)
    requires (w.sourceId.Some? ==> w.sourceId.value == name) && Tracks(w) && Lookups(w) && !op.CrashAfterCreate?
    ensures Tracks(Step(w, name, op)) && Lookups(Step(w, name, op))
  {
  }

  lemma {:induction false} InFlightNamesLatest(w: World, name: string, ops: seq<Op>)
    requires Valid(w, name) && AllWellFormed(name, ops) && Tracks(w) && Lookups(w)
    requires forall i :: 0 <= i < |ops| ==> !ops[i].CrashAfterCreate?
    ensures Tracks(Run(w, name, ops)) && Lookups(Run(w, name, ops))
    ensures var after := Run(w, name, ops);
            after.state.Some? && after.state.value.inFlight
            ==> exists firedAt :: Leased(after, name, firedAt)
    decreases |ops|
  {
    if ops == [] {
      if w.state.Some? && w.state.value.inFlight {
        assert Leased(w, name, w.fires[|w.fires| - 1]);
      }
    } else {
      StepValid(w, name, ops[0]);
      TracksStep(w, name, ops[0]);
      InFlightNamesLatest(Step(w, name, ops[0]), name, ops[1..]);
    }
  }

  // The service's answers that leave the run in progress, or leave that open.
  predicate MayBeAlive(answer: Lookup) {
    match answer
    case LookupError => true
    case NotFound => false
    case Status(s) => s == "queued" || s == "running" || s == "waiting" || s == "paused" || s == "waitingForPause"
  }

  // Inside the window, or the service can be asked and its answer leaves it open that the run goes on.
  predicate ToldAlive(name: string, t: Tick, firedAt: nat) {
    var id := WorkflowId(name, firedAt);
    t.now - firedAt < 900_000 || (t.binding == Full && id in t.statuses && MayBeAlive(t.statuses[id]))
  }

  // Due at every alarm, and at every alarm either inside the window or told the run is alive.
  predicate KeepsLease(name: string, op: Op, firedAt: nat) {
    !op.CrashAfterCreate? && (op.AlarmFires? ==> Due(op.tick) && ToldAlive(name, op.tick, firedAt))
  }

  // As long as the guard holds, no alarm of a due source creates another instance and the lease stays.
  lemma {:induction false} LeaseHolds(w: World, name: string, ops: seq<Op>, firedAt: nat)
    requires Leased(w, name, firedAt)
    requires forall i :: 0 <= i < |ops| ==> KeepsLease(name, ops[i], firedAt)
    ensures Run(w, name, ops).fires == w.fires && Leased(Run(w, name, ops), name, firedAt)
    decreases |ops|
  {
    if ops != [] {
      var next := Step(w, name, ops[0]);
      assert KeepsLease(name, ops[0], firedAt);
      assert Leased(next, name, firedAt) && next.fires == w.fires;
      LeaseHolds(next, name, ops[1..], firedAt);
    }
  }

  // So between one accepted create and the next lies an alarm at least a window later at which the service
  // said of exactly that instance: finished or unknown (or could not be asked, having no `get`).
  lemma NextCreateNeedsEnd(w: World, name: string, ops: seq<Op>, firedAt: nat)
    requires Leased(w, name, firedAt)
    requires forall i :: 0 <= i < |ops| ==> !ops[i].CrashAfterCreate? && (ops[i].AlarmFires? ==> Due(ops[i].tick))
    requires Run(w, name, ops).fires != w.fires
    ensures exists i :: 0 <= i < |ops| && ops[i].AlarmFires?
              && ops[i].tick.now - firedAt >= 900_000
              && (ops[i].tick.binding == Full && WorkflowId(name, firedAt) in ops[i].tick.statuses ==>
                    !MayBeAlive(ops[i].tick.statuses[WorkflowId(name, firedAt)]))
  {
    if forall i :: 0 <= i < |ops| ==> KeepsLease(name, ops[i], firedAt) {
      LeaseHolds(w, name, ops, firedAt);
    }
  }

  // The first alarm past the lease does create: its bucket is new, so only the binding or the control plane can refuse.
  lemma EndedLeaseFires(w: World, name: string, t: Tick, firedAt: nat)
    requires Valid(w, name) && Leased(w, name, firedAt)
    requires forall i :: 0 <= i < |w.fires| ==> w.fires[i] <= firedAt
    requires Due(t) && !Holds(name, t, firedAt)
    ensures Alarm(w, t).fires == if t.binding != Absent && t.controlPlaneOk then w.fires + [t.now] else w.fires
    ensures Alarm(w, t).fires != w.fires <==> Leased(Alarm(w, t), name, t.now)
    ensures Alarm(w, t).fires == w.fires ==>
              Alarm(w, t).alarm == Some(t.now + CREATE_FAILURE_RETRY_MS) && !Alarm(w, t).state.value.inFlight
  {
    forall i | 0 <= i < |w.fires| ensures Bucket(w.fires[i]) != Bucket(t.now) {
      WindowSeparatesBuckets(w.fires[i], t.now);
    }
    CollisionIffSameBucket(w, name, t);
  }

  // A polled source, due, in flight since `firedAt`, with a service that answers `answer` for that instance. Within
  // fifteen minutes, or when the answer leaves it open that the run goes on, nothing is created, the lease stays and
  // the next look is fifteen minutes later. Otherwise there is a create unless the control plane refuses it: then in
  // flight anew until the tier interval is over, else without a lease and again in ten minutes.
  lemma AlarmByAnswer(w: World, name: string, t: Tick, due: int, firedAt: nat, answer: Lookup)
    requires Valid(w, name) && Leased(w, name, firedAt) && forall i :: 0 <= i < |w.fires| ==> w.fires[i] <= firedAt
    requires Polled(t) && IsDueTime(t.row.value, t.now, due) && due <= t.now + 30_000
    requires t.binding == Full && WorkflowId(name, firedAt) in t.statuses
    requires t.statuses[WorkflowId(name, firedAt)] == answer
    ensures var after := Alarm(w, t);
            if t.now - firedAt < 900_000 || MayBeAlive(answer) then
              after.fires == w.fires && after.alarm == Some(t.now + 900_000)
              && after.state == Some(ActorState(Some(t.now + 900_000), true, Some(firedAt)))
            else if t.controlPlaneOk then
              var next := t.now + if t.row.value.priority == Low then 86_400_000 else 14_400_000;
              after.fires == w.fires + [t.now] && after.alarm == Some(next)
              && after.state == Some(ActorState(Some(next), true, Some(t.now)))
              && WorkflowId(name, t.now) in after.instances
            else
              after.fires == w.fires && after.alarm == Some(t.now + 600_000)
              && after.state == Some(ActorState(Some(t.now + 600_000), false, Some(firedAt)))
  {
    AlarmBeforeDue(w, name, t, due);
    DueTimeIs(t.row.value, t.now);
    if t.now - firedAt >= 900_000 && !MayBeAlive(answer) {
      EndedLeaseFires(w, name, t, firedAt);
    }
  }

  // Without a lease a due source is created at once, by the same rule for the next look; a service without `get` cannot
  // be asked and its lease ends with the window.
  lemma AlarmUnleased(w: World, name: string, t: Tick, due: int)
    requires Valid(w, name) && w.sourceId.Some?
    requires Polled(t) && IsDueTime(t.row.value, t.now, due) && due <= t.now + 30_000
    requires w.state.Some? && w.state.value.inFlight && w.state.value.lastFiredAt.Some? ==>
               t.binding != Full && t.now - w.state.value.lastFiredAt.value >= 900_000
    ensures var after := Alarm(w, t);
            var accepted := t.binding != Absent && t.controlPlaneOk
                            && forall i :: 0 <= i < |w.fires| ==> w.fires[i] / 900_000 != t.now / 900_000;
            (accepted <==> after.fires == w.fires + [t.now]) && (!accepted <==> after.fires == w.fires)
            && (accepted ==>
                  after.state.Some? && after.state.value.inFlight && after.state.value.lastFiredAt == Some(t.now))
            && (!accepted ==> after.alarm == Some(t.now + 600_000) && !after.state.value.inFlight)
  {
    AlarmBeforeDue(w, name, t, due);
    CollisionIffSameBucket(w, name, t);
  }

  // ---------- The Durable Object ----------

  class Actor {
    const name: string
    var sourceId: Option<string>
    var state: Option<ActorState>
    var alarmAt: Option<int>
    var scrapeLock: Option<ScrapeLock.Lock>
    var mirror: Mirror // the D1 row's actor columns
    var instances: set<string> // ids known to the workflow service
    ghost var fires: seq<nat> // when it accepted a create of this actor

    ghost function View(): World
      reads this
    {
      World(sourceId, state, alarmAt, mirror, instances, fires)
    }

    constructor (name: string)
      ensures this.name == name && View() == FRESH && scrapeLock == None
    {
      this.name := name;
      sourceId, state, alarmAt, scrapeLock := None, None, None, None;
      mirror, instances, fires := Mirror(false, None), {}, [];
    }

    method MirrorToD1(nextAlarm: Option<int>, managed: bool, ok: bool)
      modifies this`mirror
      ensures View() == MirrorTo(old(View()), nextAlarm, managed, ok)
    {
      if ok {
        mirror := Mirror(managed, nextAlarm);
      }
    }

    method EnsureScheduled(now: nat, force: bool, jitter: nat, ok: bool) returns (seeded: bool, nextAlarmAt: int)
      modifies this`sourceId, this`alarmAt, this`mirror
      ensures View() == Step(old(View()), name, Ensure(now, force, jitter, ok))
      ensures alarmAt == Some(nextAlarmAt)
      ensures seeded <==> old(alarmAt).None? || force || now >= old(alarmAt).value + STALE_ALARM_MS
    {
      sourceId := Some(name);
      var existing := alarmAt;
      var stale := existing.Some? && existing.value <= now - STALE_ALARM_MS;
      if existing.Some? && !stale && !force {
        MirrorToD1(existing, true, ok);
        return false, existing.value;
      }
      nextAlarmAt := now + jitter;
      alarmAt := Some(nextAlarmAt);
      MirrorToD1(alarmAt, true, ok);
      seeded := true;
    }

    method OnSourceChanged(now: nat, jitter: nat, ok: bool)
      modifies this`sourceId, this`alarmAt, this`mirror
      ensures View() == Step(old(View()), name, Changed(now, jitter, ok))
    {
      sourceId := Some(name);
      var next := now + jitter;
      alarmAt := Some(next);
      MirrorToD1(alarmAt, true, ok);
    }

    method PersistState(nextAlarmAt: Option<int>, inFlight: bool, lastFiredAt: Option<nat>)
      modifies this`state
      ensures View() == old(View()).(state := Some(ActorState(nextAlarmAt, inFlight, lastFiredAt)))
    {
      state := Some(ActorState(nextAlarmAt, inFlight, lastFiredAt));
    }

    method ScheduleAtTime(at: int, inFlight: bool, lastFiredAt: Option<nat>, ok: bool)
      modifies this`alarmAt, this`state, this`mirror
      ensures View() == ScheduleAt(old(View()), at, inFlight, lastFiredAt, ok)
    {
      alarmAt := Some(at);
      PersistState(alarmAt, inFlight, lastFiredAt);
      MirrorToD1(alarmAt, true, ok);
    }

    method ClearSchedule(ok: bool)
      modifies this`alarmAt, this`state, this`mirror
      ensures View() == NoReschedule(old(View()), ok)
    {
      PersistState(None, false, None);
      alarmAt := None;
      MirrorToD1(None, false, ok);
    }

    method TearDown(ok: bool)
      modifies this`alarmAt, this`state, this`mirror
      ensures View() == Stop(old(View()), ok)
    {
      alarmAt := None;
      state := None;
      MirrorToD1(None, false, ok);
    }

    method FireWorkflow(id: string, t: Tick) returns (fired: bool)
      requires id == WorkflowId(name, t.now)
      modifies this`instances, this`fires
      ensures View() == Fire(old(View()), name, t)
      ensures fired == CreateAccepted(old(View()), t, id)
    {
      if t.binding == Absent || !t.controlPlaneOk || id in instances {
        return false;
      }
      instances := instances + {id};
      fires := fires + [t.now];
      fired := true;
    }

    // The platform takes the pending alarm away before it calls the handler.
    method OnAlarm(t: Tick)
      requires sourceId.Some? ==> sourceId.value == name
      modifies this
      ensures View() == Step(old(View()), name, AlarmFires(t))
      ensures scrapeLock == old(scrapeLock)
    {
      alarmAt := None;
      if sourceId.None? || sourceId.value == "" {
        return;
      }
      if t.row.None? {
        TearDown(t.mirrorOk);
        return;
      }
      var row := t.row.value;
      var plan := DescribeFetchPlan(row);
      var nextDueAt := NextDueAt(row, plan, t.now);
      if t.orgPaused {
        ClearSchedule(t.mirrorOk);
        return;
      }
      if nextDueAt.None? {
        ClearSchedule(t.mirrorOk);
        return;
      }
      var prev := state;
      var lastFiredAt := if prev.Some? then prev.value.lastFiredAt else None;
      var due := EffectiveDue(row, nextDueAt.value, t.now);
      if due > t.now + DUE_SLACK_MS {
        ScheduleAtTime(due, false, lastFiredAt, t.mirrorOk);
        return;
      }
      if prev.Some? && prev.value.inFlight && lastFiredAt.Some? {
        var withinWindow := t.now - lastFiredAt.value < SAFETY_WINDOW_MS;
        if withinWindow || PreviousWorkflowAlive(t, WorkflowId(name, lastFiredAt.value)) {
          ScheduleAtTime(t.now + SAFETY_WINDOW_MS, true, lastFiredAt, t.mirrorOk);
          return;
        }
      }
      Refire(t, plan.intervalHours, lastFiredAt);
    }

    // Starts the workflow and looks again after the tier interval, or soon after a refused create.
    method Refire(t: Tick, intervalHours: Option<nat>, lastFiredAt: Option<nat>)
      requires lastFiredAt == LastFired(View())
      modifies this`instances, this`fires, this`alarmAt, this`state, this`mirror
      ensures View() == FireAndSchedule(old(View()), name, t, intervalHours)
    {
      var fired := FireWorkflow(WorkflowId(name, t.now), t);
      var hours := if intervalHours.Some? then intervalHours.value else 4;
      var next := if fired then t.now + hours * HOUR_MS else t.now + CREATE_FAILURE_RETRY_MS;
      ScheduleAtTime(next, fired, if fired then Some(t.now) else lastFiredAt, t.mirrorOk);
    }

    method TryAcquireScrapeLock(session: string, now: int) returns (answer: ScrapeLock.Acquired)
      modifies this`scrapeLock
      ensures (scrapeLock, answer) == ScrapeLock.TryAcquire(old(scrapeLock), session, now)
    {
      if scrapeLock.Some? && scrapeLock.value.expiresAt > now {
        return ScrapeLock.Acquired(false, scrapeLock.value.sessionId);
      }
      scrapeLock := Some(ScrapeLock.Lock(session, now + ScrapeLock.LEASE_MS));
      answer := ScrapeLock.Acquired(true, session);
    }

    method ReleaseScrapeLock(session: string)
      modifies this`scrapeLock
      ensures scrapeLock == ScrapeLock.Release(old(scrapeLock), session)
    {
      if scrapeLock.Some? && scrapeLock.value.sessionId == session {
        scrapeLock := None;
      }
    }
  }
}
