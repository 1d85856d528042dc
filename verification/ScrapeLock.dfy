// The per-source update lock: a lease with lazy expiry and owner-only release.
module ScrapeLock {
  import opened Strings

  const LEASE_MS: nat := 15 * 60 * 1000

  datatype Lock = Lock(sessionId: string, expiresAt: int)
  datatype Acquired = Acquired(acquired: bool, sessionId: string)

  predicate Live(lock: Option<Lock>, now: int) { lock.Some? && lock.value.expiresAt > now }

  function TryAcquire(lock: Option<Lock>, session: string, now: int): (Option<Lock>, Acquired) {
    if Live(lock, now) then (lock, Acquired(false, lock.value.sessionId))
    else (Some(Lock(session, now + LEASE_MS)), Acquired(true, session))
  }

  function Release(lock: Option<Lock>, session: string): Option<Lock> {
    if lock.Some? && lock.value.sessionId == session then None else lock
  }

  // ---------- Whole runs ----------

  datatype LockOp = AcquireOp(session: string, now: int) | ReleaseOp(session: string, now: int)

  // One session's possession of the lock, from the acquire to its release or expiry.
  datatype Hold = Hold(session: string, from: int, until: int)

  datatype History = History(lock: Option<Lock>, holds: seq<Hold>, now: int)

  const START := History(None, [], 0)

  function Step(h: History, op: LockOp): History {
    match op
    case AcquireOp(s, now) =>
      var (lock, answer) := TryAcquire(h.lock, s, now);
      History(lock, if answer.acquired then h.holds + [Hold(s, now, now + LEASE_MS)] else h.holds, now)
    case ReleaseOp(s, now) =>
      var lock := Release(h.lock, s);
      History(lock, if lock != h.lock && h.holds != [] then EndLast(h.holds, now) else h.holds, now)
  }

  function EndLast(holds: seq<Hold>, now: int): seq<Hold>
    requires holds != []
  {
    var n := |holds| - 1;
    holds[n := holds[n].(until := if now < holds[n].until then now else holds[n].until)]
  }

  function Run(h: History, ops: seq<LockOp>): History
    decreases |ops|
  {
    if ops == [] then h else Run(Step(h, ops[0]), ops[1..])
  }

  predicate Monotone(now: int, ops: seq<LockOp>)
    decreases |ops|
  {
    ops == [] || (now <= ops[0].now && Monotone(ops[0].now, ops[1..]))
  }

  ghost predicate Valid(h: History) {
    (forall i :: 0 <= i < |h.holds| ==> h.holds[i].from <= h.holds[i].until && h.holds[i].from <= h.now)
    && (forall i, j :: 0 <= i < j < |h.holds| ==> h.holds[i].until <= h.holds[j].from)
    && (match h.lock
        case Some(l) =>
          h.holds != []
          && (var last := h.holds[|h.holds| - 1]; last.session == l.sessionId && last.until == l.expiresAt)
        case None => h.holds == [] || h.holds[|h.holds| - 1].until <= h.now)
  }

  // Some hold covers this instant.
  ghost predicate HeldAt(h: History, now: int) {
    exists i :: 0 <= i < |h.holds| && h.holds[i].from <= now < h.holds[i].until
  }

  lemma LastIsLatest(h: History)
    requires Valid(h) && h.holds != []
    ensures forall i :: 0 <= i < |h.holds| ==> h.holds[i].until <= h.holds[|h.holds| - 1].until
  {
  }

  lemma StepValid(h: History, op: LockOp)
    requires Valid(h) && h.now <= op.now
    ensures Valid(Step(h, op))
  {
    if h.holds != [] {
      LastIsLatest(h);
    }
    match op {
      case AcquireOp(s, now) =>
      case ReleaseOp(s, now) => ReleaseValid(h, s, now);
    }
  }

  lemma ReleaseValid(h: History, s: string, now: int)
    requires Valid(h) && h.now <= now
    ensures Valid(Step(h, ReleaseOp(s, now)))
  {
    if Release(h.lock, s) != h.lock {
      var n := |h.holds| - 1;
      var ended := EndLast(h.holds, now);
      assert h.holds[n].from <= ended[n].until <= h.holds[n].until;
      assert forall i :: 0 <= i < n ==> ended[i] == h.holds[i];
    }
  }

  // The hold intervals of any run are pairwise disjoint, in acquisition order.
  lemma {:induction false} HoldsDisjoint(h: History, ops: seq<LockOp>)
    requires Valid(h) && Monotone(h.now, ops)
    ensures Valid(Run(h, ops))
    ensures var holds := Run(h, ops).holds;
            forall i, j :: 0 <= i < j < |holds| ==>
              holds[i].from <= holds[i].until <= holds[j].from <= holds[j].until
    decreases |ops|
  {
    if ops != [] {
      StepValid(h, ops[0]);
      HoldsDisjoint(Step(h, ops[0]), ops[1..]);
    }
  }

  lemma RunFromStart(ops: seq<LockOp>)
    requires Monotone(0, ops)
    ensures Valid(Run(START, ops))
  {
    HoldsDisjoint(START, ops);
  }

  // In every reachable state, an attempt fails exactly when a hold covers the moment; a failure changes
  // nothing and names the session of that hold.
  lemma AcquireFailsIffHeld(h: History, session: string, now: int)
    requires Valid(h) && h.now <= now
    ensures var (lock, answer) := TryAcquire(h.lock, session, now);
            (answer.acquired <==> !HeldAt(h, now))
            && (answer.acquired ==> lock == Some(Lock(session, now + 900_000)))
            && (!answer.acquired ==> lock == h.lock)
            && (!answer.acquired ==>
                  exists i :: 0 <= i < |h.holds| && h.holds[i].from <= now < h.holds[i].until
                              && answer.sessionId == h.holds[i].session)
  {
    if h.holds != [] {
      var n := |h.holds| - 1;
      LastIsLatest(h);
      if Live(h.lock, now) {
        assert h.holds[n].from <= now < h.holds[n].until;
      }
    }
  }

  // A session whose lease was taken over cannot end the newer hold; an owner's release ends its own at once.
  lemma ReleaseOnlyOwn(h: History, session: string, now: int)
    requires Valid(h) && h.now <= now
    ensures var after := Step(h, ReleaseOp(session, now));
            (h.lock.Some? && h.lock.value.sessionId != session ==> after.lock == h.lock && after.holds == h.holds)
            && (h.lock.Some? && h.lock.value.sessionId == session ==> after.lock == None && !HeldAt(after, now))
  {
    StepValid(h, ReleaseOp(session, now));
    var after := Step(h, ReleaseOp(session, now));
    if after.holds != [] {
      LastIsLatest(after);
    }
  }
}
