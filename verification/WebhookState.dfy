// Delivery health of one webhook subscription under interleaved queue consumers.
module WebhookState {
  import opened Strings

  const USER_AUTO_DISABLE_FAILURES: nat := 10
  const USER_AUTO_DISABLE_MIN_FAILURES: nat := 3
  const USER_AUTO_DISABLE_STREAK_MS: nat := 48 * 60 * 60 * 1000

  // The columns the delivery path reads and writes; instants are milliseconds.
  datatype Row = Row(
    enabled: bool,
    userId: Option<string>,
    consecutiveFailures: nat,
    failureStreakStartedAt: Option<int>)

  // The part of a row a disable is compared against.
  datatype Snapshot = Snapshot(consecutiveFailures: nat, failureStreakStartedAt: Option<int>)

  function SnapshotOf(r: Row): Snapshot { Snapshot(r.consecutiveFailures, r.failureStreakStartedAt) }

  predicate UserOwned(r: Row) { r.userId.Some? && r.userId.value != "" }

  function StreakMs(startedAt: Option<int>, now: int): Option<nat> {
    if startedAt.None? then None else Some(if now < startedAt.value then 0 else now - startedAt.value)
  }

  predicate ShouldAutoDisable(r: Row, adminThreshold: int, now: int) {
    if !r.enabled then false
    else if UserOwned(r) then
      if r.consecutiveFailures >= USER_AUTO_DISABLE_FAILURES then true
      else if r.consecutiveFailures >= USER_AUTO_DISABLE_MIN_FAILURES then
        var streak := StreakMs(r.failureStreakStartedAt, now);
        streak.Some? && streak.value >= USER_AUTO_DISABLE_STREAK_MS
      else false
    else r.consecutiveFailures >= adminThreshold
  }

  // ---------- The single-statement updates; None is a deleted row ----------

  function RecordSuccess(row: Option<Row>): Option<Row> {
    if row.None? then None else Some(row.value.(consecutiveFailures := 0, failureStreakStartedAt := None))
  }

  function RecordFailure(row: Option<Row>, at: int): Option<Row> {
    if row.None? then None
    else
      var r := row.value;
      Some(r.(consecutiveFailures := r.consecutiveFailures + 1,
              failureStreakStartedAt := if r.consecutiveFailures == 0 then Some(at) else r.failureStreakStartedAt))
  }

  // Whether the conditional UPDATE that disables finds the row as it was observed.
  predicate Matches(row: Option<Row>, observed: Snapshot) {
    row.Some? && row.value.enabled && SnapshotOf(row.value) == observed
  }

  function Disable(row: Option<Row>, observed: Snapshot): Option<Row> {
    if Matches(row, observed) then Some(row.value.(enabled := false)) else row
  }

  // The owner's PATCH: switching on also clears the failure counters.
  function PatchEnabled(row: Option<Row>, enable: bool): Option<Row> {
    if row.None? then None
    else if enable then
      Some(row.value.(enabled := true, consecutiveFailures := 0, failureStreakStartedAt := None))
    else Some(row.value.(enabled := false))
  }

  // ---------- Interleaved steps ----------

  // A consumer that decided at `now` to disable the row it saw, and has not yet done so.
  datatype Decision = Decision(seen: Row, now: int)

  datatype World = World(row: Option<Row>, held: map<nat, Decision>, notices: seq<Snapshot>)

  datatype Op =
    | Fail(consumer: nat, at: int, now: int)
    | Flip(consumer: nat)
    | Succeed
    | Patch(enable: bool)
    | Delete

  function Step(w: World, op: Op, threshold: int): World {
    match op
    case Fail(c, at, now) =>
      var failed := RecordFailure(w.row, at);
      w.(row := failed,
         held := if failed.Some? && ShouldAutoDisable(failed.value, threshold, now)
                 then w.held[c := Decision(failed.value, now)] else w.held - {c})
    case Flip(c) =>
      if c !in w.held then w
      else
        var observed := SnapshotOf(w.held[c].seen);
        World(Disable(w.row, observed), w.held - {c},
              if Matches(w.row, observed) then w.notices + [observed] else w.notices)
    case Succeed => w.(row := RecordSuccess(w.row))
    case Patch(enable) => w.(row := PatchEnabled(w.row, enable))
    case Delete => w.(row := None)
  }

  function Run(w: World, ops: seq<Op>, threshold: int): World {
    if ops == [] then w else Step(Run(w, ops[..|ops| - 1], threshold), ops[|ops| - 1], threshold)
  }

  function Created(userId: Option<string>): World { World(Some(Row(true, userId, 0, None)), map[], []) }

  // A manual change does what it says: switching on starts the counters afresh, switching off keeps them.
  lemma PatchIs(w: World, enable: bool, threshold: int)
    requires w.row.Some?
    ensures var after := Step(w, Patch(enable), threshold);
            after.row == Some(if enable then Row(true, w.row.value.userId, 0, None)
                              else Row(false, w.row.value.userId, w.row.value.consecutiveFailures,
                                       w.row.value.failureStreakStartedAt))
            && after.held == w.held && after.notices == w.notices
  {
  }

  // A flip ends its consumer's decision. It pauses the row, and nothing else of it, with one notice, exactly when the
  // row is on and has the counters that were seen; otherwise it leaves the row alone. A deletion takes the row away.
  lemma FlipIs(w: World, c: nat, threshold: int)
    requires c in w.held
    ensures var after, seen := Step(w, Flip(c), threshold), w.held[c].seen;
            var lands := w.row.Some? && w.row.value.enabled
                         && w.row.value.consecutiveFailures == seen.consecutiveFailures
                         && w.row.value.failureStreakStartedAt == seen.failureStreakStartedAt;
            after.row == (if lands then Some(Row(false, w.row.value.userId, w.row.value.consecutiveFailures,
                                                 w.row.value.failureStreakStartedAt))
                          else w.row)
            && |after.notices| == |w.notices| + (if lands then 1 else 0)
            && after.held == w.held - {c}
    ensures Step(w, Delete, threshold) == World(None, w.held, w.notices)
  {
  }

  // ---------- Notices and flips ----------

  predicate On(w: World) { w.row.Some? && w.row.value.enabled }

  function One(b: bool): nat { if b then 1 else 0 }

  // How many steps of a run switch the row off, how many of those are consumers' flips, and how many switch it on.
  function Offs(w: World, ops: seq<Op>, threshold: int): nat {
    if ops == [] then 0
    else
      var before := Run(w, ops[..|ops| - 1], threshold);
      Offs(w, ops[..|ops| - 1], threshold) + One(On(before) && !On(Run(w, ops, threshold)))
  }

  function AutoOffs(w: World, ops: seq<Op>, threshold: int): nat {
    if ops == [] then 0
    else
      var before := Run(w, ops[..|ops| - 1], threshold);
      AutoOffs(w, ops[..|ops| - 1], threshold)
      + One(ops[|ops| - 1].Flip? && On(before) && !On(Run(w, ops, threshold)))
  }

  function Ons(w: World, ops: seq<Op>, threshold: int): nat {
    if ops == [] then 0
    else
      var before := Run(w, ops[..|ops| - 1], threshold);
      Ons(w, ops[..|ops| - 1], threshold) + One(!On(before) && On(Run(w, ops, threshold)))
  }

  // One notice per enabled-to-disabled flip by a consumer, whatever the interleaving; and since the row has to be
  // switched on again before it can be switched off again, at most one more notice than re-enables.
  lemma {:induction false} NoticesAreFlips(w: World, ops: seq<Op>, threshold: int)
    ensures |Run(w, ops, threshold).notices| == |w.notices| + AutoOffs(w, ops, threshold)
    ensures Offs(w, ops, threshold) + One(On(Run(w, ops, threshold))) == Ons(w, ops, threshold) + One(On(w))
    ensures AutoOffs(w, ops, threshold) <= Offs(w, ops, threshold) <= Ons(w, ops, threshold) + 1
  {
    if ops != [] {
      NoticesAreFlips(w, ops[..|ops| - 1], threshold);
    }
  }

  // ---------- The counters are a fold over the outcomes ----------

  predicate Resets(op: Op) { op.Succeed? || op == Patch(true) }

  // The failures since the last success or re-enable, oldest first.
  function Streak(ops: seq<Op>): seq<int> {
    if ops == [] then []
    else
      var last := ops[|ops| - 1];
      if Resets(last) then []
      else if last.Fail? then Streak(ops[..|ops| - 1]) + [last.at]
      else Streak(ops[..|ops| - 1])
  }

  function SnapshotOfStreak(streak: seq<int>): Snapshot {
    Snapshot(|streak|, if streak == [] then None else Some(streak[0]))
  }

  lemma {:induction false} CountersAreStreak(userId: Option<string>, ops: seq<Op>, threshold: int)
    ensures var w := Run(Created(userId), ops, threshold);
            w.row.Some? ==> SnapshotOf(w.row.value) == SnapshotOfStreak(Streak(ops)) && w.row.value.userId == userId
  {
    if ops != [] {
      CountersAreStreak(userId, ops[..|ops| - 1], threshold);
    }
  }

  // Every pending decision was due when it was made, and about this subscription.
  ghost predicate Due(w: World, userId: Option<string>, threshold: int) {
    forall c :: c in w.held ==>
      w.held[c].seen.userId == userId && ShouldAutoDisable(w.held[c].seen, threshold, w.held[c].now)
  }

  lemma {:induction false} DecisionsDue(userId: Option<string>, ops: seq<Op>, threshold: int)
    ensures Due(Run(Created(userId), ops, threshold), userId, threshold)
  {
    if ops != [] {
      DecisionsDue(userId, ops[..|ops| - 1], threshold);
      CountersAreStreak(userId, ops, threshold);
    }
  }

  // Enough failures in a row: for a user's webhook ten, or three of which the first is two days old; for an
  // administrator's as many as the threshold.
  predicate Enough(streak: seq<int>, userId: Option<string>, threshold: int, now: int) {
    EnoughFailures(|streak|, if streak == [] then None else Some(streak[0]), userId, threshold, now)
  }

  predicate EnoughFailures(failures: nat, since: Option<int>, userId: Option<string>, threshold: int, now: int) {
    if userId.Some? && userId.value != "" then
      failures >= 10 || (failures >= 3 && since.Some? && now - since.value >= 172_800_000)
    else failures >= threshold
  }

  // A failure leaves its consumer with a decision exactly when the row is on and the failures in a row, this one
  // included, are enough.
  lemma DecidesIffEnough(userId: Option<string>, ops: seq<Op>, threshold: int, c: nat, at: int, now: int)
    ensures var w := Run(Created(userId), ops + [Fail(c, at, now)], threshold);
            c in w.held <==> On(w) && Enough(Streak(ops + [Fail(c, at, now)]), userId, threshold, now)
  {
    var more := ops + [Fail(c, at, now)];
    CountersAreStreak(userId, more, threshold);
    assert more[..|more| - 1] == ops;
  }

  // A flip that lands always finds enough failures in a row: the last outcomes are all failures, as many as were seen,
  // and they are enough at the time of the decision.
  lemma FlipIsEarned(userId: Option<string>, ops: seq<Op>, threshold: int, c: nat)
    requires var w := Run(Created(userId), ops, threshold);
             c in w.held && Matches(w.row, SnapshotOf(w.held[c].seen))
    ensures Enough(Streak(ops), userId, threshold, Run(Created(userId), ops, threshold).held[c].now)
  {
    CountersAreStreak(userId, ops, threshold);
    DecisionsDue(userId, ops, threshold);
  }

  // ---------- Pending decisions are distinct ----------

  // A new streak is stamped with an instant that no pending decision saw its own streak start at.
  predicate FreshStamp(w: World, op: Op) {
    op.Fail? && w.row.Some? && w.row.value.consecutiveFailures == 0 ==>
      forall c :: c in w.held ==> w.held[c].seen.failureStreakStartedAt != Some(op.at)
  }

  ghost predicate FreshStamps(w: World, ops: seq<Op>, threshold: int) {
    forall i :: 0 <= i < |ops| ==> FreshStamp(Run(w, ops[..i], threshold), ops[i])
  }

  // What one decision saw is of another streak, or of this streak and no later than now.
  predicate Past(w: World, seen: Row) {
    seen.failureStreakStartedAt.Some?
    && (w.row.Some? && w.row.value.failureStreakStartedAt == seen.failureStreakStartedAt ==>
          seen.consecutiveFailures <= w.row.value.consecutiveFailures)
  }

  ghost predicate Valid(w: World) {
    (w.row.Some? ==> (w.row.value.consecutiveFailures == 0 <==> w.row.value.failureStreakStartedAt.None?))
    && (forall c :: c in w.held ==> Past(w, w.held[c].seen))
    && (forall c, d :: c in w.held && d in w.held && c != d ==>
          SnapshotOf(w.held[c].seen) != SnapshotOf(w.held[d].seen))
  }

  lemma StepValid(w: World, op: Op, threshold: int)
    requires Valid(w) && FreshStamp(w, op)
    ensures Valid(Step(w, op, threshold))
  {
  }

  lemma {:induction false} RunValid(w: World, ops: seq<Op>, threshold: int)
    requires Valid(w) && FreshStamps(w, ops, threshold)
    ensures Valid(Run(w, ops, threshold))
  {
    if ops != [] {
      var n := |ops| - 1;
      FreshPrefix(w, ops, threshold);
      RunValid(w, ops[..n], threshold);
      assert FreshStamp(Run(w, ops[..n], threshold), ops[n]);
      StepValid(Run(w, ops[..n], threshold), ops[n], threshold);
    }
  }

  lemma FreshPrefix(w: World, ops: seq<Op>, threshold: int)
    requires ops != [] && FreshStamps(w, ops, threshold)
    ensures FreshStamps(w, ops[..|ops| - 1], threshold)
  {
    var prefix := ops[..|ops| - 1];
    forall i | 0 <= i < |prefix| ensures FreshStamp(Run(w, prefix[..i], threshold), prefix[i]) {
      assert prefix[..i] == ops[..i];
    }
  }

  // ---------- When a decision lands ----------

  predicate ByConsumer(op: Op, c: nat) { (op.Fail? || op.Flip?) && op.consumer == c }

  ghost predicate Without(ops: seq<Op>, c: nat) { forall i :: 0 <= i < |ops| ==> !ByConsumer(ops[i], c) }

  // The decision fits the row: its flip would land.
  predicate Fits(w: World, c: nat) { c in w.held && Matches(w.row, SnapshotOf(w.held[c].seen)) }

  // The streak that consumer c saw, or a row state before it, is still going on in an enabled row.
  predicate CanCatchUp(w: World, c: nat) {
    c in w.held && On(w)
    && w.row.value.failureStreakStartedAt == w.held[c].seen.failureStreakStartedAt
    && w.row.value.consecutiveFailures <= w.held[c].seen.consecutiveFailures
  }

  // A new streak starts with the very stamp of the streak that consumer c saw.
  predicate Reuses(w: World, op: Op, c: nat) {
    c in w.held && op.Fail? && w.row.Some? && w.row.value.consecutiveFailures == 0
    && w.held[c].seen.failureStreakStartedAt == Some(op.at)
  }

  ghost predicate NeverReuses(w: World, ops: seq<Op>, threshold: int, c: nat) {
    forall i :: 0 <= i < |ops| ==> !Reuses(Run(w, ops[..i], threshold), ops[i], c)
  }

  // What every run from creation keeps, whatever the stamps.
  ghost predicate Sound(w: World) {
    (w.row.Some? ==> (w.row.value.consecutiveFailures == 0 <==> w.row.value.failureStreakStartedAt.None?))
    && forall c :: c in w.held ==>
         w.held[c].seen.consecutiveFailures > 0 && w.held[c].seen.failureStreakStartedAt.Some?
  }

  lemma StepSound(w: World, op: Op, threshold: int)
    requires Sound(w)
    ensures Sound(Step(w, op, threshold))
  {
  }

  lemma {:induction false} RunSound(w: World, ops: seq<Op>, threshold: int)
    requires Sound(w)
    ensures Sound(Run(w, ops, threshold))
  {
    if ops != [] {
      RunSound(w, ops[..|ops| - 1], threshold);
      StepSound(Run(w, ops[..|ops| - 1], threshold), ops[|ops| - 1], threshold);
    }
  }

  lemma NeverReusesPrefix(w: World, ops: seq<Op>, threshold: int, c: nat)
    requires ops != [] && NeverReuses(w, ops, threshold, c)
    ensures NeverReuses(w, ops[..|ops| - 1], threshold, c)
    ensures !Reuses(Run(w, ops[..|ops| - 1], threshold), ops[|ops| - 1], c)
  {
    var prefix := ops[..|ops| - 1];
    forall i | 0 <= i < |prefix| ensures !Reuses(Run(w, prefix[..i], threshold), prefix[i], c) {
      assert prefix[..i] == ops[..i];
    }
  }

  lemma LostStep(w: World, op: Op, threshold: int, c: nat)
    requires Sound(w) && c in w.held && !ByConsumer(op, c) && !Reuses(w, op, c) && !CanCatchUp(w, c)
    ensures var w' := Step(w, op, threshold);
            c in w'.held && w'.held[c] == w.held[c] && !CanCatchUp(w', c)
  {
  }

  // Once the row has left the streak that was seen, the decision never fits again unless a new streak takes its stamp.
  lemma {:induction false} LostForGood(w: World, ops: seq<Op>, threshold: int, c: nat)
    requires Sound(w) && c in w.held && !CanCatchUp(w, c)
    requires Without(ops, c) && NeverReuses(w, ops, threshold, c)
    ensures var w' := Run(w, ops, threshold);
            c in w'.held && w'.held[c] == w.held[c] && !CanCatchUp(w', c) && !Fits(w', c)
  {
    if ops != [] {
      var prefix := ops[..|ops| - 1];
      NeverReusesPrefix(w, ops, threshold, c);
      LostForGood(w, prefix, threshold, c);
      RunSound(w, prefix, threshold);
      LostStep(Run(w, prefix, threshold), ops[|ops| - 1], threshold, c);
    }
  }

  // n failures in a row, all by one consumer and stamped alike.
  function Fails(consumer: nat, at: int, n: nat): (ops: seq<Op>)
    ensures |ops| == n
  {
    if n == 0 then [] else Fails(consumer, at, n - 1) + [Fail(consumer, at, at)]
  }

  lemma {:induction false} FailsAt(consumer: nat, at: int, n: nat, i: nat)
    requires i < n
    ensures Fails(consumer, at, n)[..i] == Fails(consumer, at, i)
    ensures Fails(consumer, at, n)[i] == Fail(consumer, at, at)
  {
    if i < n - 1 {
      FailsAt(consumer, at, n - 1, i);
      assert Fails(consumer, at, n)[..i] == Fails(consumer, at, n - 1)[..i];
    }
  }

  function FailedRow(r: Row, at: int, n: nat): Row {
    Row(r.enabled, r.userId, r.consecutiveFailures + n,
        if r.consecutiveFailures == 0 && n > 0 then Some(at) else r.failureStreakStartedAt)
  }

  // What n failures of others leave: the row counted up and its streak started; c's decision as it was.
  ghost predicate AfterFails(w: World, w': World, at: int, n: nat, c: nat) {
    w.row.Some? && w'.row == Some(FailedRow(w.row.value, at, n)) && w'.notices == w.notices
    && (c in w'.held <==> c in w.held) && (c in w.held ==> w'.held[c] == w.held[c])
  }

  lemma OneMoreFails(w: World, w': World, consumer: nat, at: int, n: nat, c: nat, threshold: int)
    requires AfterFails(w, w', at, n, c) && c != consumer
    ensures AfterFails(w, Step(w', Fail(consumer, at, at), threshold), at, n + 1, c)
  {
  }

  lemma RunLast(w: World, ops: seq<Op>, op: Op, threshold: int)
    ensures Run(w, ops + [op], threshold) == Step(Run(w, ops, threshold), op, threshold)
  {
    assert (ops + [op])[..|ops + [op]| - 1] == ops;
  }

  lemma {:induction false} RunFails(w: World, consumer: nat, at: int, n: nat, c: nat, threshold: int)
    requires w.row.Some? && c != consumer
    ensures AfterFails(w, Run(w, Fails(consumer, at, n), threshold), at, n, c)
  {
    if n > 0 {
      RunFails(w, consumer, at, n - 1, c, threshold);
      var ops := Fails(consumer, at, n - 1);
      OneMoreFails(w, Run(w, ops, threshold), consumer, at, n - 1, c, threshold);
      RunLast(w, ops, Fail(consumer, at, at), threshold);
    }
  }

  // Failures of another consumer bring the row up to what was seen.
  lemma CatchUp(w: World, threshold: int, c: nat) returns (ops: seq<Op>)
    requires Sound(w) && CanCatchUp(w, c)
    ensures Without(ops, c) && NeverReuses(w, ops, threshold, c) && Fits(Run(w, ops, threshold), c)
  {
    var row, seen := w.row.value, w.held[c].seen;
    var n := seen.consecutiveFailures - row.consecutiveFailures;
    ops := Fails(c + 1, 0, n);
    RunFails(w, c + 1, 0, n, c, threshold);
    forall i | 0 <= i < n
      ensures ops[i] == Fail(c + 1, 0, 0) && !Reuses(Run(w, ops[..i], threshold), ops[i], c)
    {
      FailsAt(c + 1, 0, n, i);
      RunFails(w, c + 1, 0, i, c, threshold);
    }
  }

  // Exactly when a pending decision can still land without a reused stamp: while the row is on, in the streak that was
  // seen, and not past the count that was seen.
  lemma LandsIffCanCatchUp(w: World, threshold: int, c: nat)
    requires Sound(w) && c in w.held
    ensures (exists ops :: Without(ops, c) && NeverReuses(w, ops, threshold, c) && Fits(Run(w, ops, threshold), c))
            <==> CanCatchUp(w, c)
  {
    if CanCatchUp(w, c) {
      var ops := CatchUp(w, threshold, c);
    } else {
      forall ops | Without(ops, c) && NeverReuses(w, ops, threshold, c) ensures !Fits(Run(w, ops, threshold), c) {
        LostForGood(w, ops, threshold, c);
      }
    }
  }

  // A success, a re-enable, a manual pause or a deletion ends that; so does one more failure once the decision fits.
  predicate Disturbs(w: World, op: Op, c: nat) {
    op.Succeed? || op.Patch? || op.Delete? || (op.Fail? && Fits(w, c))
  }

  // Step i of the run is a failure of a row without any.
  ghost predicate StartsStreak(w: World, ops: seq<Op>, threshold: int, i: nat)
    requires i < |ops|
  {
    var before := Run(w, ops[..i], threshold);
    ops[i].Fail? && before.row.Some? && before.row.value.consecutiveFailures == 0
  }

  // A decision of a consumer that takes no step is kept.
  lemma {:induction false} HeldThroughout(w: World, ops: seq<Op>, threshold: int, c: nat)
    requires c in w.held && Without(ops, c)
    ensures c in Run(w, ops, threshold).held && Run(w, ops, threshold).held[c] == w.held[c]
  {
    if ops != [] {
      HeldThroughout(w, ops[..|ops| - 1], threshold, c);
    }
  }

  // After any of them the decision can land again only if a new streak takes its own stamp.
  lemma DisturbedNeverLands(w: World, op: Op, ops: seq<Op>, threshold: int, c: nat)
    requires Sound(w) && c in w.held && Disturbs(w, op, c) && !ByConsumer(op, c)
    requires Without(ops, c)
    ensures Fits(Run(Step(w, op, threshold), ops, threshold), c)
            ==> exists i :: 0 <= i < |ops| && ops[i].Fail? && StartsStreak(Step(w, op, threshold), ops, threshold, i)
                            && w.held[c].seen.failureStreakStartedAt == Some(ops[i].at)
  {
    var next := Step(w, op, threshold);
    StepSound(w, op, threshold);
    assert !CanCatchUp(next, c);
    if NeverReuses(next, ops, threshold, c) {
      LostForGood(next, ops, threshold, c);
    } else {
      var i :| 0 <= i < |ops| && Reuses(Run(next, ops[..i], threshold), ops[i], c);
      HeldThroughout(next, ops[..i], threshold, c);
      assert StartsStreak(next, ops, threshold, i);
    }
  }

  // Another consumer saw the very same counters: its flip is worth as much as c's.
  predicate SameView(w: World, d: nat, c: nat) {
    c in w.held && d in w.held && SnapshotOf(w.held[d].seen) == SnapshotOf(w.held[c].seen)
  }

  // Only attempts to flip, none of them able to land on this row.
  ghost predicate Undisturbed(w: World, ops: seq<Op>, c: nat) {
    forall i :: 0 <= i < |ops| ==> ops[i].Flip? && !SameView(w, ops[i].consumer, c)
  }

  lemma FitsStep(w: World, op: Op, threshold: int, c: nat)
    requires Sound(w) && c in w.held && !ByConsumer(op, c) && !Reuses(w, op, c)
    requires Fits(w, c)
    ensures var w' := Step(w, op, threshold);
            c in w'.held && w'.held[c] == w.held[c]
            && (Fits(w', c) <==> op.Flip? && !SameView(w, op.consumer, c))
            && (Fits(w', c) ==> forall d :: SameView(w', d, c) <==> SameView(w, d, c))
            && (!Fits(w', c) ==> !CanCatchUp(w', c))
  {
  }

  lemma UndisturbedLast(w: World, ops: seq<Op>, c: nat)
    requires ops != []
    ensures var last := ops[|ops| - 1];
            Undisturbed(w, ops, c)
            <==> Undisturbed(w, ops[..|ops| - 1], c) && last.Flip? && !SameView(w, last.consumer, c)
  {
    var prefix := ops[..|ops| - 1];
    assert forall i :: 0 <= i < |prefix| ==> prefix[i] == ops[i];
  }

  // From the failure that made consumer c decide until its flip, with no new streak taking its stamp: the flip lands if
  // and only if every step in between is an attempt to flip by a consumer that saw other counters.
  lemma {:induction false} FlipIffUndisturbed(w: World, ops: seq<Op>, threshold: int, c: nat)
    requires Sound(w) && Fits(w, c)
    requires Without(ops, c) && NeverReuses(w, ops, threshold, c)
    ensures var w' := Run(w, ops, threshold);
            c in w'.held && w'.held[c] == w.held[c]
            && (Fits(w', c) <==> Undisturbed(w, ops, c))
            && (Fits(w', c) ==> forall d :: SameView(w', d, c) <==> SameView(w, d, c))
            && (!Fits(w', c) ==> !CanCatchUp(w', c))
  {
    if ops != [] {
      var prefix, last := ops[..|ops| - 1], ops[|ops| - 1];
      NeverReusesPrefix(w, ops, threshold, c);
      FlipIffUndisturbed(w, prefix, threshold, c);
      RunSound(w, prefix, threshold);
      UndisturbedLast(w, ops, c);
      var before := Run(w, prefix, threshold);
      if Fits(before, c) {
        FitsStep(before, last, threshold, c);
      } else {
        LostStep(before, last, threshold, c);
      }
    }
  }

  // Where pending decisions are distinct, as fresh stamps keep them: if and only if nothing but attempts to flip came
  // in between.
  lemma FlipIffOnlyFlips(w: World, ops: seq<Op>, threshold: int, c: nat)
    requires Sound(w) && Valid(w) && Fits(w, c)
    requires Without(ops, c) && NeverReuses(w, ops, threshold, c)
    ensures Fits(Run(w, ops, threshold), c) <==> forall i :: 0 <= i < |ops| ==> ops[i].Flip?
  {
    FlipIffUndisturbed(w, ops, threshold, c);
  }

  // Whatever the stamps and whatever happened in between: a pending decision lands exactly when the row is on and the
  // failures since the last success or re-enable are as many as it saw and began at the same instant.
  lemma FlipIffSameStreak(userId: Option<string>, ops: seq<Op>, threshold: int, c: nat)
    requires c in Run(Created(userId), ops, threshold).held
    ensures var w := Run(Created(userId), ops, threshold);
            var seen := w.held[c].seen;
            Fits(w, c)
            <==> On(w) && |Streak(ops)| == seen.consecutiveFailures
                 && Streak(ops) != [] && seen.failureStreakStartedAt == Some(Streak(ops)[0])
  {
    CountersAreStreak(userId, ops, threshold);
    RunSound(Created(userId), ops, threshold);
  }

  // The decision fits right after the failure that made it.
  lemma DecisionFits(w: World, c: nat, at: int, now: int, threshold: int)
    requires c in Step(w, Fail(c, at, now), threshold).held
    ensures Fits(Step(w, Fail(c, at, now), threshold), c)
  {
  }

  // ---------- A reused stamp ----------

  // n failures from creation, the last of them consumer 0's; then a success.
  function Recovered(userId: Option<string>, at: int, n: nat, threshold: int): World
    requires n > 0
  {
    Step(Step(Run(Created(userId), Fails(1, at, n - 1), threshold), Fail(0, at, at), threshold), Succeed, threshold)
  }

  // And n failures more, in the same millisecond.
  function Rebuilt(userId: Option<string>, at: int, n: nat, threshold: int): World
    requires n > 0
  {
    Run(Recovered(userId, at, n, threshold), Fails(1, at, n), threshold)
  }

  // What consumer 0 decided, and the row after the success.
  ghost predicate HasRecovered(w: World, seen: Row) {
    0 in w.held && w.held[0].seen == seen && w.notices == [] && w.row == Some(Row(true, seen.userId, 0, None))
  }

  lemma DecidesThenRecovers(before: World, userId: Option<string>, at: int, n: nat, threshold: int)
    requires n > 0 && ShouldAutoDisable(Row(true, userId, n, Some(at)), threshold, at)
    requires AfterFails(Created(userId), before, at, n - 1, 0)
    ensures HasRecovered(Step(Step(before, Fail(0, at, at), threshold), Succeed, threshold),
                         Row(true, userId, n, Some(at)))
  {
    assert RecordFailure(before.row, at) == Some(Row(true, userId, n, Some(at)));
  }

  lemma FitsAgain(recovered: World, w: World, userId: Option<string>, at: int, n: nat, threshold: int)
    requires n > 0 && HasRecovered(recovered, Row(true, userId, n, Some(at))) && AfterFails(recovered, w, at, n, 0)
    ensures Fits(w, 0) && w.notices == [] && |Step(w, Flip(0), threshold).notices| == 1
  {
  }

  // With a reused stamp the success prevents nothing, at any count that is due.
  lemma RebuiltSnapshotFlips(userId: Option<string>, at: int, n: nat, threshold: int)
    requires n > 0 && ShouldAutoDisable(Row(true, userId, n, Some(at)), threshold, at)
    ensures var w := Rebuilt(userId, at, n, threshold);
            Fits(w, 0) && w.notices == [] && |Step(w, Flip(0), threshold).notices| == 1
  {
    RunFails(Created(userId), 1, at, n - 1, 0, threshold);
    DecidesThenRecovers(Run(Created(userId), Fails(1, at, n - 1), threshold), userId, at, n, threshold);
    var recovered := Recovered(userId, at, n, threshold);
    RunFails(recovered, 1, at, n, 0, threshold);
    FitsAgain(recovered, Rebuilt(userId, at, n, threshold), userId, at, n, threshold);
  }

  // In particular where it is deployed: ten failures of a user's webhook, fifty of an administrator's.
  lemma RebuiltWhereDeployed(user: string)
    requires user != ""
    ensures Fits(Rebuilt(Some(user), 5, 10, 50), 0) && Fits(Rebuilt(None, 5, 50, 50), 0)
  {
    RebuiltSnapshotFlips(Some(user), 5, 10, 50);
    RebuiltSnapshotFlips(None, 5, 50, 50);
  }
}
