// The webhook queue consumer: every message of a batch is settled once, and subscriptions are paused on the way.
module DeliveryQueue {
  import opened Strings
  import opened WebhookState

  datatype Outcome = Success | TransientFailure | PermFail

  // One message, and what each awaited call finds: other consumers may change the row in between.
  datatype Message = Message(
    subscriptionId: string,
    withinRate: bool,
    atLookup: Option<Row>,
    outcome: Outcome,
    at: int,
    atUpdate: Option<Row>,
    now: int,
    atFlip: Option<Row>)

  // A call of ack or retry on the message at an index of the batch.
  datatype Settlement = Ack(index: nat) | Retry(index: nat, delaySeconds: nat)

  datatype Settings = Settings(masterKey: bool, threshold: int)

  predicate Delivered(m: Message) { m.withinRate && m.atLookup.Some? && m.atLookup.value.enabled }

  // Nothing more can come of the message: its receiver is gone or off, took it, or will never take it.
  predicate Settled(m: Message) { m.withinRate && (!Delivered(m) || m.outcome != TransientFailure) }

  // The failure made the row due for pausing.
  predicate Due(m: Message, threshold: int) {
    Delivered(m) && m.outcome != Success
    && var seen := RecordFailure(m.atUpdate, m.at);
       seen.Some? && ShouldAutoDisable(seen.value, threshold, m.now)
  }

  // It did, and the row was still as it was then.
  predicate Pauses(m: Message, threshold: int) {
    Due(m, threshold) && Matches(m.atFlip, SnapshotOf(RecordFailure(m.atUpdate, m.at).value))
  }

  // The steps on the subscription's row that message i takes, as consumer i.
  function WritesOf(m: Message, i: nat, threshold: int): seq<Op> {
    if !Delivered(m) then []
    else if m.outcome == Success then [Succeed]
    else [Fail(i, m.at, m.now)] + if Due(m, threshold) then [Flip(i)] else []
  }

  // They are steps of the interleaved protocol: a failed delivery goes on to flip exactly when its failure left a
  // decision pending, and pauses exactly when that flip sends a notice.
  lemma WritesAreSteps(m: Message, i: nat, threshold: int, failing: World, flipping: World)
    requires Delivered(m) && m.outcome != Success
    requires failing.row == m.atUpdate && flipping.row == m.atFlip
    requires var failed := Step(failing, Fail(i, m.at, m.now), threshold);
             i in failed.held ==> i in flipping.held && flipping.held[i] == failed.held[i]
    ensures var decided := i in Step(failing, Fail(i, m.at, m.now), threshold).held;
            (Flip(i) in WritesOf(m, i, threshold) <==> decided)
            && (Pauses(m, threshold) <==>
                  decided && |Step(flipping, Flip(i), threshold).notices| == |flipping.notices| + 1)
  {
  }

  // Each message is settled exactly once, in batch order: acknowledged exactly when it is settled for good.
  ghost predicate SettledOnce(calls: seq<Settlement>, messages: seq<Message>, settings: Settings) {
    |calls| == |messages|
    && forall i :: 0 <= i < |calls| ==>
         calls[i].index == i
         && (calls[i].Ack? <==> settings.masterKey && Settled(messages[i]))
         && (calls[i].Retry? ==>
               calls[i].delaySeconds == if settings.masterKey && !messages[i].withinRate then 6 else 0)
  }

  // The notices name the pausing messages, each once, in order.
  ghost predicate NoticesFor(notices: seq<nat>, messages: seq<Message>, threshold: int) {
    (forall k :: 0 <= k < |notices| ==> notices[k] < |messages| && Pauses(messages[notices[k]], threshold))
    && (forall k, l :: 0 <= k < l < |notices| ==> notices[k] < notices[l])
    && (forall i :: 0 <= i < |messages| && Pauses(messages[i], threshold) ==> i in notices)
  }

  // What a delivery writes: nothing when nothing was sent, the success, or the failure, followed by a flip exactly when
  // the row is on and has now failed enough. It pauses exactly when that flip finds the row on and with the same
  // counters. Only a transient failure and a rate limit leave a message unsettled.
  lemma WritesAre(m: Message, i: nat, threshold: int)
    ensures Delivered(m) <==> m.withinRate && m.atLookup.Some? && m.atLookup.value.enabled
    ensures var writes := WritesOf(m, i, threshold);
            (writes == [] <==> !Delivered(m)) && (writes == [Succeed] <==> Delivered(m) && m.outcome == Success)
    ensures var failed, writes := Delivered(m) && m.outcome != Success, WritesOf(m, i, threshold);
            (failed ==> |writes| in {1, 2} && writes[0] == Fail(i, m.at, m.now))
            && (Flip(i) in writes
                <==> failed && m.atUpdate.Some? && FailsEnough(m.atUpdate.value, m.at, m.now, threshold))
    ensures Pauses(m, threshold)
            <==> Flip(i) in WritesOf(m, i, threshold) && m.atFlip.Some? && m.atFlip.value.enabled
                 && CountsOneMore(m.atUpdate.value, m.at, m.atFlip.value)
    ensures Settled(m) <==> m.withinRate && (Delivered(m) && m.outcome != Success ==> m.outcome == PermFail)
  {
    FlipsIfDue(m, i, threshold);
    if Delivered(m) && m.outcome != Success {
      assert WritesOf(m, i, threshold)[0] == Fail(i, m.at, m.now);
    }
  }

  lemma FlipsIfDue(m: Message, i: nat, threshold: int)
    ensures Flip(i) in WritesOf(m, i, threshold) <==> Due(m, threshold)
    ensures var failed := Delivered(m) && m.outcome != Success;
            Due(m, threshold)
            <==> failed && m.atUpdate.Some? && FailsEnough(m.atUpdate.value, m.at, m.now, threshold)
  {
    if Delivered(m) && m.outcome != Success && Due(m, threshold) {
      assert WritesOf(m, i, threshold)[1] == Flip(i);
    }
  }

  // With this failure the row, being on, has failed enough.
  predicate FailsEnough(r: Row, at: int, now: int, threshold: int) {
    var since := if r.consecutiveFailures == 0 then Some(at) else r.failureStreakStartedAt;
    r.enabled && EnoughFailures(r.consecutiveFailures + 1, since, r.userId, threshold, now)
  }

  // The counters of `later` are those of r and one failure more, at the given time.
  predicate CountsOneMore(r: Row, at: int, later: Row) {
    later.consecutiveFailures == r.consecutiveFailures + 1
    && later.failureStreakStartedAt == if r.consecutiveFailures == 0 then Some(at) else r.failureStreakStartedAt
  }

  method DeliverBatch(messages: seq<Message>, settings: Settings)
    returns (calls: seq<Settlement>, notices: seq<nat>, writes: seq<seq<Op>>)
    ensures SettledOnce(calls, messages, settings)
    ensures if settings.masterKey then NoticesFor(notices, messages, settings.threshold) else notices == []
    ensures |writes| == if settings.masterKey then |messages| else 0
    ensures forall i :: 0 <= i < |writes| ==> writes[i] == WritesOf(messages[i], i, settings.threshold)
  {
    calls, notices, writes := [], [], [];
    if !settings.masterKey {
      for i := 0 to |messages|
        invariant |calls| == i && forall k :: 0 <= k < i ==> calls[k] == Retry(k, 0)
      {
        calls := calls + [Retry(i, 0)];
      }
      return;
    }
    for i := 0 to |messages|
      invariant SettledOnce(calls, messages[..i], settings)
      invariant NoticesFor(notices, messages[..i], settings.threshold)
      invariant |writes| == i && forall k :: 0 <= k < i ==> writes[k] == WritesOf(messages[k], k, settings.threshold)
    {
      var call, notified, ops := DeliverOne(messages[i], i, settings.threshold);
      calls := calls + [call];
      writes := writes + [ops];
      if notified {
        notices := notices + [i];
      }
      assert messages[..i + 1] == messages[..i] + [messages[i]];
    }
    assert messages[..|messages|] == messages;
  }

  method DeliverOne(m: Message, i: nat, threshold: int)
    returns (call: Settlement, notified: bool, writes: seq<Op>)
    ensures call == if Settled(m) then Ack(i) else Retry(i, if m.withinRate then 0 else 6)
    ensures notified <==> Pauses(m, threshold)
    ensures writes == WritesOf(m, i, threshold)
  {
    notified, writes := false, [];
    if !m.withinRate {
      return Retry(i, 6), false, [];
    }
    var sub := m.atLookup;
    if sub.None? || !sub.value.enabled {
      return Ack(i), false, [];
    }
    if m.outcome == Success {
      return Ack(i), false, [Succeed];
    }
    var seen := RecordFailure(m.atUpdate, m.at);
    writes := [Fail(i, m.at, m.now)];
    if seen.Some? && ShouldAutoDisable(seen.value, threshold, m.now) {
      notified := Matches(m.atFlip, SnapshotOf(seen.value));
      writes := writes + [Flip(i)];
    }
    call := if m.outcome == PermFail then Ack(i) else Retry(i, 0);
  }

  // ---------- The dead-letter queue ----------

  function CountOf(messages: seq<Message>, id: string): nat {
    if messages == [] then 0
    else CountOf(messages[..|messages| - 1], id) + if messages[|messages| - 1].subscriptionId == id then 1 else 0
  }

  lemma {:induction false} CountPositive(messages: seq<Message>, id: string)
    ensures CountOf(messages, id) > 0 <==> exists i :: 0 <= i < |messages| && messages[i].subscriptionId == id
  {
    if messages != [] {
      var n := |messages| - 1;
      CountPositive(messages[..n], id);
      if CountOf(messages[..n], id) > 0 {
        var i :| 0 <= i < n && messages[..n][i].subscriptionId == id;
        assert messages[i].subscriptionId == id;
      } else {
        assert forall i :: 0 <= i < n ==> messages[..n][i] == messages[i];
      }
    }
  }

  // The messages of one subscription.
  function Of(messages: seq<Message>, id: string): set<int> {
    set i | 0 <= i < |messages| && messages[i].subscriptionId == id
  }

  lemma OfLast(messages: seq<Message>, id: string)
    requires messages != []
    ensures var n := |messages| - 1;
            n !in Of(messages[..n], id)
            && Of(messages, id) == Of(messages[..n], id) + if messages[n].subscriptionId == id then {n} else {}
  {
    var n := |messages| - 1;
    assert forall i :: 0 <= i < n ==> messages[..n][i] == messages[i];
  }

  lemma {:induction false} CountIs(messages: seq<Message>, id: string)
    ensures CountOf(messages, id) == |Of(messages, id)|
  {
    if messages != [] {
      CountIs(messages[..|messages| - 1], id);
      OfLast(messages, id);
    }
  }

  // Every message is acknowledged once, and the summary counts each subscription's messages: the alert's entries are
  // exactly the subscriptions of the batch and its counts add up to the batch.
  method DrainDeadLetters(messages: seq<Message>) returns (calls: seq<Settlement>, bySubId: map<string, nat>)
    ensures |calls| == |messages| && forall i :: 0 <= i < |calls| ==> calls[i] == Ack(i)
    ensures forall id :: CountOf(messages, id) == if id in bySubId then bySubId[id] else 0
    ensures forall id :: id in bySubId <==> exists i :: 0 <= i < |messages| && messages[i].subscriptionId == id
  {
    calls, bySubId := [], map[];
    for i := 0 to |messages|
      invariant |calls| == i && forall k :: 0 <= k < i ==> calls[k] == Ack(k)
      invariant forall id :: CountOf(messages[..i], id) == if id in bySubId then bySubId[id] else 0
      invariant forall id :: id in bySubId ==> bySubId[id] > 0
    {
      var id := messages[i].subscriptionId;
      calls := calls + [Ack(i)];
      var count := if id in bySubId then bySubId[id] else 0;
      bySubId := bySubId[id := count + 1];
      assert messages[..i + 1][..i] == messages[..i];
    }
    assert messages[..|messages|] == messages;
    forall id ensures id in bySubId <==> exists i :: 0 <= i < |messages| && messages[i].subscriptionId == id {
      CountPositive(messages, id);
    }
  }
}
