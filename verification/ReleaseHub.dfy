// The release stream: publish, subscribe with resume, and paged replay over the event buffer.
module ReleaseHub {
  import opened Strings
  import opened EventBuffer

  datatype Message = Ready(head: nat) | SnapshotGap(since: nat, oldest: nat) | Deliver(event: Event)

  // How one connection came and went: its cursor, the head it joined at, and the head it closed at.
  datatype Visit = Visit(since: Option<nat>, joinedAt: nat, gap: bool, closedAt: Option<nat>)

  // `log` is everything ever published; `inboxes` is what each connection was sent.
  datatype Hub = Hub(store: Store, log: seq<Payload>, inboxes: map<nat, seq<Message>>, visits: map<nat, Visit>)

  function AppendAll(s: Store, payloads: seq<Payload>, lim: Limits): (Store, seq<Event>)
    decreases |payloads|
  {
    if payloads == [] then (s, [])
    else
      var (next, event) := Append(s, payloads[0], lim);
      var (last, events) := AppendAll(next, payloads[1..], lim);
      (last, [event] + events)
  }

  function Deliveries(events: seq<Event>): seq<Message> {
    seq(|events|, i requires 0 <= i < |events| => Deliver(events[i]))
  }

  // What /subscribe sends before any live event.
  function Handshake(s: Store, since: Option<nat>, lim: Limits): seq<Message> {
    [Ready(CurrentSeq(s))]
    + (if since.None? then []
       else if Gap(s, since.value) then [SnapshotGap(since.value, OldestSeq(s))]
       else if since.value < CurrentSeq(s) then Deliveries(ReplayEvents(s, since.value, lim))
       else [])
  }

  datatype Op = Publish(payloads: seq<Payload>) | Subscribe(id: nat, since: Option<nat>) | Close(id: nat)

  predicate Attached(h: Hub, id: nat) { id in h.visits && h.visits[id].closedAt.None? }

  function Broadcast(inboxes: map<nat, seq<Message>>, visits: map<nat, Visit>, messages: seq<Message>)
    : map<nat, seq<Message>>
  {
    map id | id in inboxes ::
      if id in visits && visits[id].closedAt.None? then inboxes[id] + messages else inboxes[id]
  }

  function Step(h: Hub, op: Op, lim: Limits): Hub {
    match op
    case Publish(payloads) =>
      var (store, events) := AppendAll(h.store, payloads, lim);
      Hub(store, h.log + payloads, Broadcast(h.inboxes, h.visits, Deliveries(events)), h.visits)
    case Subscribe(id, since) =>
      if id in h.visits || id in h.inboxes then h
      else
        var gap := since.Some? && Gap(h.store, since.value);
        h.(inboxes := h.inboxes[id := Handshake(h.store, since, lim)],
           visits := h.visits[id := Visit(since, CurrentSeq(h.store), gap, None)])
    case Close(id) =>
      if Attached(h, id) then h.(visits := h.visits[id := h.visits[id].(closedAt := Some(CurrentSeq(h.store)))]) else h
  }

  function Run(h: Hub, ops: seq<Op>, lim: Limits): Hub
    decreases |ops|
  {
    if ops == [] then h else Run(Step(h, ops[0], lim), ops[1..], lim)
  }

  function Published(ops: seq<Op>): nat
    decreases |ops|
  {
    if ops == [] then 0
    else (if ops[0].Publish? then |ops[0].payloads| else 0) + Published(ops[1..])
  }

  // ---------- What every connection has received ----------

  function EndOf(h: Hub, v: Visit): nat { if v.closedAt.Some? then v.closedAt.value else |h.log| }

  // Where a connection's events begin: after its cursor, or after the head if there was nothing to replay.
  function StartOf(v: Visit): nat {
    if v.since.Some? && !v.gap && v.since.value < v.joinedAt then v.since.value else v.joinedAt
  }

  function Opening(v: Visit, oldest: nat): seq<Message> {
    [Ready(v.joinedAt)] + if v.gap && v.since.Some? then [SnapshotGap(v.since.value, oldest)] else []
  }

  ghost predicate InboxIs(h: Hub, id: nat)
    requires id in h.visits
  {
    var v := h.visits[id];
    id in h.inboxes && v.joinedAt <= EndOf(h, v) <= |h.log|
    && (v.gap ==> v.since.Some?)
    && exists oldest :: h.inboxes[id] == Opening(v, oldest) + Deliveries(Events(h.log, StartOf(v), EndOf(h, v)))
  }

  ghost predicate Valid(h: Hub, lim: Limits) {
    Keeps(h.store, h.log, lim) && h.inboxes.Keys == h.visits.Keys
    && forall id :: id in h.visits ==> InboxIs(h, id)
  }

  lemma {:induction false} AppendAllKeeps(s: Store, log: seq<Payload>, payloads: seq<Payload>, lim: Limits)
    requires Keeps(s, log, lim) && |log| + |payloads| < Power10(lim.padWidth)
    ensures var (after, events) := AppendAll(s, payloads, lim);
            Keeps(after, log + payloads, lim) && events == Events(log + payloads, |log|, |log| + |payloads|)
    decreases |payloads|
  {
    if payloads == [] {
      assert log + payloads == log;
    } else {
      AppendKeeps(s, log, payloads[0], lim);
      var (next, event) := Append(s, payloads[0], lim);
      AppendAllKeeps(next, log + [payloads[0]], payloads[1..], lim);
      Regroup(log, payloads);
      EventsHead(log + payloads, |log|);
    }
  }

  lemma Regroup(log: seq<Payload>, payloads: seq<Payload>)
    requires payloads != []
    ensures log + [payloads[0]] + payloads[1..] == log + payloads && (log + payloads)[|log|] == payloads[0]
  {
  }

  lemma EventsHead(log: seq<Payload>, a: nat)
    requires a < |log|
    ensures Events(log, a, |log|) == [Event(a + 1, log[a])] + Events(log, a + 1, |log|)
  {
  }

  lemma EventsGrow(log: seq<Payload>, more: seq<Payload>, a: nat, b: nat)
    requires a <= b <= |log|
    ensures Events(log + more, a, b) == Events(log, a, b)
  {
  }

  lemma DeliveriesConcat(a: seq<Event>, b: seq<Event>)
    ensures Deliveries(a + b) == Deliveries(a) + Deliveries(b)
  {
  }

  // Live events join on to what a connection already has.
  lemma InboxGrows(opening: seq<Message>, log: seq<Payload>, more: seq<Payload>, from: nat)
    requires from <= |log|
    ensures opening + Deliveries(Events(log, from, |log|)) + Deliveries(Events(log + more, |log|, |log + more|))
         == opening + Deliveries(Events(log + more, from, |log + more|))
  {
    var whole := log + more;
    EventsGrow(log, more, from, |log|);
    EventsConcat(whole, from, |log|, |whole|);
    DeliveriesConcat(Events(whole, from, |log|), Events(whole, |log|, |whole|));
  }

  lemma BroadcastInbox(h: Hub, after: Hub, payloads: seq<Payload>, id: nat)
    requires id in h.visits && InboxIs(h, id) && after.visits == h.visits && after.log == h.log + payloads
    requires after.inboxes
          == Broadcast(h.inboxes, h.visits, Deliveries(Events(after.log, |h.log|, |after.log|)))
    ensures InboxIs(after, id)
  {
    var v := h.visits[id];
    var from, end := StartOf(v), EndOf(h, v);
    var oldest :| h.inboxes[id] == Opening(v, oldest) + Deliveries(Events(h.log, from, end));
    if v.closedAt.None? {
      InboxGrows(Opening(v, oldest), h.log, payloads, from);
      assert after.inboxes[id] == Opening(v, oldest) + Deliveries(Events(after.log, from, |after.log|));
    } else {
      EventsGrow(h.log, payloads, from, end);
      assert after.inboxes[id] == Opening(v, oldest) + Deliveries(Events(after.log, from, end));
    }
  }

  lemma PublishValid(h: Hub, payloads: seq<Payload>, lim: Limits)
    requires Valid(h, lim) && |h.log| + |payloads| < Power10(lim.padWidth)
    ensures Valid(Step(h, Publish(payloads), lim), lim)
  {
    AppendAllKeeps(h.store, h.log, payloads, lim);
    var after := Step(h, Publish(payloads), lim);
    forall id | id in after.visits ensures InboxIs(after, id) {
      BroadcastInbox(h, after, payloads, id);
    }
  }

  lemma SubscribeInbox(h: Hub, id: nat, since: Option<nat>, lim: Limits)
    requires Valid(h, lim) && id !in h.visits
    ensures InboxIs(Step(h, Subscribe(id, since), lim), id)
  {
    var after := Step(h, Subscribe(id, since), lim);
    var v := after.visits[id];
    var head := |h.log|;
    if since.Some? && !v.gap && since.value < head {
      ReplayIsTail(h.store, h.log, since.value, lim);
    }
    assert after.inboxes[id] == Opening(v, OldestSeq(h.store)) + Deliveries(Events(h.log, StartOf(v), head));
  }

  lemma InboxFrame(h: Hub, after: Hub, id: nat)
    requires id in h.visits && id in after.visits && InboxIs(h, id) && after.log == h.log
    requires id in after.inboxes && after.inboxes[id] == h.inboxes[id]
    requires after.visits[id].(closedAt := None) == h.visits[id].(closedAt := None)
    requires EndOf(after, after.visits[id]) == EndOf(h, h.visits[id])
    ensures InboxIs(after, id)
  {
    var v := h.visits[id];
    var oldest :| h.inboxes[id] == Opening(v, oldest) + Deliveries(Events(h.log, StartOf(v), EndOf(h, v)));
    assert Opening(after.visits[id], oldest) == Opening(v, oldest);
  }

  lemma SubscribeValid(h: Hub, id: nat, since: Option<nat>, lim: Limits)
    requires Valid(h, lim)
    ensures Valid(Step(h, Subscribe(id, since), lim), lim)
  {
    if id !in h.visits {
      SubscribeInbox(h, id, since, lim);
      var after := Step(h, Subscribe(id, since), lim);
      forall other | other in h.visits ensures InboxIs(after, other) {
        InboxFrame(h, after, other);
      }
    }
  }

  lemma CloseValid(h: Hub, id: nat, lim: Limits)
    requires Valid(h, lim)
    ensures Valid(Step(h, Close(id), lim), lim)
  {
    var after := Step(h, Close(id), lim);
    forall other | other in h.visits ensures InboxIs(after, other) {
      InboxFrame(h, after, other);
    }
  }

  lemma StepValid(h: Hub, op: Op, lim: Limits)
    requires Valid(h, lim)
    requires op.Publish? ==> |h.log| + |op.payloads| < Power10(lim.padWidth)
    ensures Valid(Step(h, op, lim), lim)
    ensures |Step(h, op, lim).log| == |h.log| + Published([op])
  {
    match op {
      case Publish(payloads) => PublishValid(h, payloads, lim);
      case Subscribe(id, since) => SubscribeValid(h, id, since, lim);
      case Close(id) => CloseValid(h, id, lim);
    }
  }

  // Every interleaving of publishes, connects and disconnects.
  lemma {:induction false} RunValid(h: Hub, ops: seq<Op>, lim: Limits)
    requires Valid(h, lim) && |h.log| + Published(ops) < Power10(lim.padWidth)
    ensures Valid(Run(h, ops, lim), lim)
    decreases |ops|
  {
    if ops != [] {
      StepValid(h, ops[0], lim);
      RunValid(Step(h, ops[0], lim), ops[1..], lim);
    }
  }

  function Received(inbox: seq<Message>): seq<Event> {
    if inbox == [] then []
    else (if inbox[0].Deliver? then [inbox[0].event] else []) + Received(inbox[1..])
  }

  lemma {:induction false} ReceivedDeliveries(events: seq<Event>)
    ensures Received(Deliveries(events)) == events
    decreases |events|
  {
    if events != [] {
      assert Deliveries(events)[1..] == Deliveries(events[1..]);
      ReceivedDeliveries(events[1..]);
    }
  }

  lemma ReceivedOf(h: Hub, id: nat)
    requires id in h.visits && InboxIs(h, id)
    ensures Received(h.inboxes[id]) == Events(h.log, StartOf(h.visits[id]), EndOf(h, h.visits[id]))
    ensures (exists m :: m in h.inboxes[id] && m.SnapshotGap?) <==> h.visits[id].gap
  {
    var v := h.visits[id];
    var events := Events(h.log, StartOf(v), EndOf(h, v));
    var oldest :| h.inboxes[id] == Opening(v, oldest) + Deliveries(events);
    ReceivedDeliveries(events);
    var inbox := h.inboxes[id];
    assert inbox[0] == Ready(v.joinedAt);
    if v.gap {
      assert inbox[1] == SnapshotGap(v.since.value, oldest);
      assert inbox[1..][1..] == Deliveries(events);
    } else {
      assert inbox[1..] == Deliveries(events);
    }
  }

  // Resume is lossless or says so. For a cursor at most the head: without a gap notice the connection has been
  // sent every later event exactly once and in order, replayed and live together; the notice comes exactly when
  // one of those events was already evicted at the time of joining.
  lemma ResumeIsLossless(h: Hub, id: nat, since: nat, lim: Limits)
    requires Valid(h, lim) && id in h.visits && h.visits[id].since == Some(since)
    requires since <= h.visits[id].joinedAt
    ensures var v := h.visits[id];
            ((exists m :: m in h.inboxes[id] && m.SnapshotGap?) <==> v.gap)
            && (!v.gap ==> Received(h.inboxes[id]) == Events(h.log, since, EndOf(h, v)))
  {
    assert InboxIs(h, id);
    ReceivedOf(h, id);
  }

  lemma GapAtJoin(h: Hub, id: nat, since: nat, lim: Limits)
    requires Valid(h, lim) && id !in h.visits
    ensures var after := Step(h, Subscribe(id, Some(since)), lim);
            after.visits[id].gap
            <==> exists i :: since < i <= |h.log| && EventKey(i, lim.padWidth) !in h.store.events
  {
    GapIffEvicted(h.store, h.log, since, lim);
  }

  // `since at most the head` is the exact condition: past the head, the connection is sent events the cursor
  // claims to have seen as soon as anything is published.
  lemma CursorPastHead(h: Hub, id: nat, since: nat, lim: Limits)
    requires Valid(h, lim) && id in h.visits && h.visits[id].since == Some(since) && !h.visits[id].gap
    ensures (forall e :: e in Received(h.inboxes[id]) ==> e.seqNo > since)
            <==> since <= h.visits[id].joinedAt || EndOf(h, h.visits[id]) == h.visits[id].joinedAt
  {
    assert InboxIs(h, id);
    ReceivedOf(h, id);
    var v := h.visits[id];
    var events := Events(h.log, StartOf(v), EndOf(h, v));
    if since > v.joinedAt && EndOf(h, v) > v.joinedAt {
      assert events[0] in events && events[0].seqNo == v.joinedAt + 1;
    }
  }

  lemma {:induction false} VisitKept(h: Hub, ops: seq<Op>, id: nat, lim: Limits)
    requires id in h.visits
    ensures id in Run(h, ops, lim).visits
    ensures Run(h, ops, lim).visits[id].(closedAt := None) == h.visits[id].(closedAt := None)
    decreases |ops|
  {
    if ops != [] {
      VisitKept(Step(h, ops[0], lim), ops[1..], id, lim);
    }
  }

  predicate OnlyLater(h: Hub, id: nat, since: nat) {
    id in h.inboxes && forall e :: e in Received(h.inboxes[id]) ==> e.seqNo > since
  }

  lemma NoGapAhead(s: Store, log: seq<Payload>, since: nat, lim: Limits)
    requires Keeps(s, log, lim) && since >= |log|
    ensures !Gap(s, since)
  {
  }

  lemma SubscriberSees(h: Hub, id: nat, since: nat, ops: seq<Op>, lim: Limits)
    requires Valid(h, lim) && id !in h.visits && |h.log| + Published(ops) < Power10(lim.padWidth)
    ensures var after := Run(Step(h, Subscribe(id, Some(since)), lim), ops, lim);
            id in after.visits && id in after.inboxes && InboxIs(after, id)
            && after.visits[id].since == Some(since) && after.visits[id].joinedAt == |h.log|
            && after.visits[id].gap == Gap(h.store, since)
  {
    var joined := Step(h, Subscribe(id, Some(since)), lim);
    SubscribeValid(h, id, Some(since), lim);
    RunValid(joined, ops, lim);
    VisitKept(joined, ops, id, lim);
  }

  lemma RunOne(h: Hub, op: Op, lim: Limits)
    ensures Run(h, [op], lim) == Step(h, op, lim) && Published([op]) == if op.Publish? then |op.payloads| else 0
  {
    var ops := [op];
    assert ops[1..] == [];
    assert Run(Step(h, op, lim), ops[1..], lim) == Step(h, op, lim);
    assert Published(ops[1..]) == 0;
  }

  // Past the head, the next event published goes out although the cursor claims it.
  lemma PastHeadSeesOld(h: Hub, id: nat, since: nat, payload: Payload, lim: Limits)
    requires Valid(h, lim) && id !in h.visits && |h.log| + 1 < Power10(lim.padWidth) && since > |h.log|
    ensures var after := Run(Step(h, Subscribe(id, Some(since)), lim), [Publish([payload])], lim);
            id in after.inboxes && Received(after.inboxes[id]) == [Event(|h.log| + 1, payload)]
  {
    var ops := [Publish([payload])];
    var joined := Step(h, Subscribe(id, Some(since)), lim);
    var after := Run(joined, ops, lim);
    RunOne(joined, ops[0], lim);
    SubscriberSees(h, id, since, ops, lim);
    NoGapAhead(h.store, h.log, since, lim);
    ReceivedOf(after, id);
    assert after.log == h.log + [payload] && after.visits[id].closedAt.None?;
  }

  // A cursor at most the head is exactly what a subscriber needs: if and only if it is, every event it is ever sent,
  // whatever is published afterwards, comes after its cursor.
  lemma LaterOnlyIff(h: Hub, id: nat, since: nat, lim: Limits)
    requires Valid(h, lim) && id !in h.visits && |h.log| + 1 < Power10(lim.padWidth)
    ensures (forall ops :: |h.log| + Published(ops) < Power10(lim.padWidth) ==>
               OnlyLater(Run(Step(h, Subscribe(id, Some(since)), lim), ops, lim), id, since))
            <==> since <= |h.log|
  {
    var joined := Step(h, Subscribe(id, Some(since)), lim);
    if since <= |h.log| {
      forall ops | |h.log| + Published(ops) < Power10(lim.padWidth)
        ensures OnlyLater(Run(joined, ops, lim), id, since)
      {
        SubscriberSees(h, id, since, ops, lim);
        ReceivedOf(Run(joined, ops, lim), id);
      }
    } else {
      var ops := [Publish([""])];
      RunOne(joined, ops[0], lim);
      PastHeadSeesOld(h, id, since, "", lim);
      var got := Received(Run(joined, ops, lim).inboxes[id]);
      assert got[0] in got && got[0].seqNo <= since;
      assert !OnlyLater(Run(joined, ops, lim), id, since);
    }
  }

  // For instance on a fresh hub with cursor 7: event 1 is sent.
  lemma FreshHubSeesOld(payload: Payload, lim: Limits)
    requires lim.maxSize >= 1 && lim.padWidth >= 1
    ensures var h := Hub(Store(map[], None, None), [], map[], map[]);
            var after := Run(Step(h, Subscribe(0, Some(7)), lim), [Publish([payload])], lim);
            0 in after.inboxes && Received(after.inboxes[0]) == [Event(1, payload)]
  {
    EmptyKeeps(lim);
    assert Power10(lim.padWidth) == 10 * Power10(lim.padWidth - 1);
    PastHeadSeesOld(Hub(Store(map[], None, None), [], map[], map[]), 0, 7, payload, lim);
  }

  // ---------- A client that keeps reconnecting ----------

  function CursorAfter(since: nat, received: seq<Event>): nat {
    if received == [] then since else received[|received| - 1].seqNo
  }

  // Each connection resumes at the last sequence number the one before received.
  ghost predicate Reconnects(h: Hub, ids: seq<nat>, since: nat)
    decreases |ids|
  {
    ids != [] ==>
      ids[0] in h.visits && h.visits[ids[0]].since == Some(since)
      && since <= h.visits[ids[0]].joinedAt && !h.visits[ids[0]].gap
      && ids[0] in h.inboxes
      && Reconnects(h, ids[1..], CursorAfter(since, Received(h.inboxes[ids[0]])))
  }

  function Collected(h: Hub, ids: seq<nat>): seq<Event>
    decreases |ids|
  {
    if ids == [] then []
    else (if ids[0] in h.inboxes then Received(h.inboxes[ids[0]]) else []) + Collected(h, ids[1..])
  }

  // The head the last of the connections has been served up to.
  function LastEnd(h: Hub, ids: seq<nat>, since: nat): nat
    decreases |ids|
  {
    if ids == [] then since
    else LastEnd(h, ids[1..], if ids[0] in h.visits then EndOf(h, h.visits[ids[0]]) else since)
  }

  lemma OneConnection(h: Hub, id: nat, since: nat, lim: Limits)
    requires Valid(h, lim) && id in h.visits && h.visits[id].since == Some(since)
    requires since <= h.visits[id].joinedAt && !h.visits[id].gap
    ensures var end := EndOf(h, h.visits[id]);
            since <= end <= |h.log| && Received(h.inboxes[id]) == Events(h.log, since, end)
            && CursorAfter(since, Received(h.inboxes[id])) == end
  {
    assert InboxIs(h, id);
    ResumeIsLossless(h, id, since, lim);
  }

  // Over any number of disconnects without a gap notice the client sees the log itself, each event once.
  lemma {:induction false} ReconnectingSeesTheLog(h: Hub, ids: seq<nat>, since: nat, lim: Limits)
    requires Valid(h, lim) && since <= |h.log| && Reconnects(h, ids, since)
    ensures since <= LastEnd(h, ids, since) <= |h.log|
    ensures Collected(h, ids) == Events(h.log, since, LastEnd(h, ids, since))
    decreases |ids|
  {
    if ids != [] {
      OneConnection(h, ids[0], since, lim);
      var mid := EndOf(h, h.visits[ids[0]]);
      ReconnectingSeesTheLog(h, ids[1..], mid, lim);
      EventsConcat(h.log, since, mid, LastEnd(h, ids[1..], mid));
    }
  }

  // ---------- /replay ----------

  datatype Page = Page(events: seq<Event>, head: nat, gap: Option<nat>)

  function PageLimit(raw: Option<int>): nat {
    if raw.None? then 500 else if raw.value < 1 then 1 else if raw.value > 500 then 500 else raw.value
  }

  function ReplayPage(s: Store, since: nat, raw: Option<int>, lim: Limits): Page {
    var head := CurrentSeq(s);
    var events := if since < head then ReplayEvents(s, since, lim) else [];
    Page(if |events| > PageLimit(raw) then events[..PageLimit(raw)] else events,
         head, if Gap(s, since) then Some(OldestSeq(s)) else None)
  }

  lemma PageIsSlice(s: Store, log: seq<Payload>, since: nat, raw: Option<int>, lim: Limits)
    requires Keeps(s, log, lim) && since <= |log| && !Gap(s, since)
    ensures ReplayPage(s, since, raw, lim)
         == Page(Events(log, since, Min(since + PageLimit(raw), |log|)), |log|, None)
  {
    if since < |log| {
      ReplayIsTail(s, log, since, lim);
    }
  }

  // The smallest sequence number still in the store.
  ghost predicate IsOldestKept(s: Store, head: nat, oldest: nat, lim: Limits) {
    1 <= oldest <= head && forall i :: 1 <= i <= head ==> (EventKey(i, lim.padWidth) in s.events <==> i >= oldest)
  }

  lemma OldestIsKept(s: Store, log: seq<Payload>, lim: Limits)
    requires Keeps(s, log, lim) && log != []
    ensures IsOldestKept(s, |log|, OldestSeq(s), lim)
  {
    forall i | 1 <= i <= |log| ensures EventKey(i, lim.padWidth) in s.events <==> i >= OldestSeq(s) {
      assert KeepsOne(s, log, i, lim);
    }
  }

  lemma PageGapIs(s: Store, log: seq<Payload>, since: nat, raw: Option<int>, lim: Limits)
    requires Keeps(s, log, lim)
    ensures var gap := ReplayPage(s, since, raw, lim).gap;
            (gap.Some? <==> exists i :: since < i <= |log| && EventKey(i, lim.padWidth) !in s.events)
            && (gap.Some? ==> log != [] && since + 1 < gap.value == OldestKept(|log|, lim.maxSize)
                              && IsOldestKept(s, |log|, gap.value, lim))
            && (gap.None? ==> OldestKept(|log|, lim.maxSize) <= since + 1)
  {
    GapIffEvicted(s, log, since, lim);
    if log != [] {
      OldestIsKept(s, log, lim);
    }
  }

  // How many events a request asks for.
  function Asked(raw: Option<int>): nat {
    if raw.None? || raw.value > 500 then 500 else if raw.value < 1 then 1 else raw.value
  }

  lemma PageEventsAre(s: Store, log: seq<Payload>, since: nat, raw: Option<int>, lim: Limits)
    requires Keeps(s, log, lim) && since < |log|
    ensures var from := Max(since, OldestKept(|log|, lim.maxSize) - 1);
            from < |log|
            && ReplayPage(s, since, raw, lim).events
               == Events(log, from, if from + Asked(raw) < |log| then from + Asked(raw) else |log|)
  {
    ReplayIsTail(s, log, since, lim);
  }

  // Any page, with or without a gap: it names the head; it reports a gap exactly when an event after the cursor is gone
  // and then the oldest one that is not; its events are the next kept ones after the cursor, as many as asked for but
  // at least one and at most 500.
  lemma PageIs(s: Store, log: seq<Payload>, since: nat, raw: Option<int>, lim: Limits)
    requires Keeps(s, log, lim)
    ensures var page := ReplayPage(s, since, raw, lim);
            page.head == |log|
            && (page.gap.Some? <==> exists i :: since < i <= |log| && EventKey(i, lim.padWidth) !in s.events)
            && (page.gap.Some? ==> IsOldestKept(s, |log|, page.gap.value, lim))
            && (since >= |log| ==> page.events == [])
            && (since < |log| ==>
                  var from := if page.gap.Some? then page.gap.value - 1 else since;
                  var to := if from + Asked(raw) < |log| then from + Asked(raw) else |log|;
                  from < |log| && page.events == Events(log, from, to))
  {
    PageGapIs(s, log, since, raw, lim);
    if since < |log| {
      PageEventsAre(s, log, since, raw, lim);
    }
  }

  // What a new connection is sent first: the head; then, only if it gave a cursor, either the gap, when an event after
  // the cursor is gone, with the oldest that is not, or every event after the cursor.
  lemma HandshakeIs(h: Hub, id: nat, since: nat, lim: Limits)
    requires Valid(h, lim) && id !in h.visits
    ensures var inbox := Step(h, Subscribe(id, Some(since)), lim).inboxes[id];
            if exists i :: since < i <= |h.log| && EventKey(i, lim.padWidth) !in h.store.events
            then |inbox| == 2 && inbox[0] == Ready(|h.log|) && inbox[1].SnapshotGap? && inbox[1].since == since
                 && IsOldestKept(h.store, |h.log|, inbox[1].oldest, lim)
            else inbox == [Ready(|h.log|)] + if since < |h.log| then Deliveries(Events(h.log, since, |h.log|)) else []
    ensures Step(h, Subscribe(id, None), lim).inboxes[id] == [Ready(|h.log|)]
  {
    GapIffEvicted(h.store, h.log, since, lim);
    if h.log != [] {
      OldestIsKept(h.store, h.log, lim);
    }
    if since < |h.log| {
      ReplayIsTail(h.store, h.log, since, lim);
    }
  }

  // A client paging /replay; events may be published and evicted between requests.
  ghost predicate Pages(since: nat, stores: seq<Store>, logs: seq<seq<Payload>>, raw: Option<int>, pages: seq<Page>,
                        final: seq<Payload>, lim: Limits)
    decreases |pages|
  {
    |stores| == |logs| == |pages|
    && (pages != [] ==>
          logs[0] <= final && Keeps(stores[0], logs[0], lim) && since <= |logs[0]|
          && pages[0] == ReplayPage(stores[0], since, raw, lim) && pages[0].gap.None?
          && Pages(CursorAfter(since, pages[0].events), stores[1..], logs[1..], raw, pages[1..], final, lim))
  }

  function AllEvents(pages: seq<Page>): seq<Event> {
    if pages == [] then [] else pages[0].events + AllEvents(pages[1..])
  }

  function LastCursor(since: nat, pages: seq<Page>): nat
    decreases |pages|
  {
    if pages == [] then since else LastCursor(CursorAfter(since, pages[0].events), pages[1..])
  }

  lemma OnePage(s: Store, log: seq<Payload>, since: nat, raw: Option<int>, final: seq<Payload>, lim: Limits)
    requires Keeps(s, log, lim) && since <= |log| && log <= final && !Gap(s, since)
    ensures var page := ReplayPage(s, since, raw, lim);
            var mid := CursorAfter(since, page.events);
            since <= mid <= |log| && page.events == Events(final, since, mid)
            && (page.events == [] ==> mid == page.head) && page.head == |log|
  {
    PageIsSlice(s, log, since, raw, lim);
    var mid := Min(since + PageLimit(raw), |log|);
    assert Events(log, since, mid) == Events(final, since, mid);
  }

  // Without a gap the pages join to the same sequence as resuming, and an empty page means the client is at the head.
  lemma {:induction false} PagingSeesTheLog(since: nat, stores: seq<Store>, logs: seq<seq<Payload>>, raw: Option<int>,
                                            pages: seq<Page>, final: seq<Payload>, lim: Limits)
    requires Pages(since, stores, logs, raw, pages, final, lim) && since <= |final|
    ensures since <= LastCursor(since, pages) <= |final|
    ensures AllEvents(pages) == Events(final, since, LastCursor(since, pages))
    decreases |pages|
  {
    if pages != [] {
      OnePage(stores[0], logs[0], since, raw, final, lim);
      var mid := CursorAfter(since, pages[0].events);
      PagingSeesTheLog(mid, stores[1..], logs[1..], raw, pages[1..], final, lim);
      EventsConcat(final, since, mid, LastCursor(mid, pages[1..]));
    }
  }

  lemma {:induction false} EmptyPageIsHead(since: nat, stores: seq<Store>, logs: seq<seq<Payload>>, raw: Option<int>,
                                           pages: seq<Page>, final: seq<Payload>, lim: Limits)
    requires Pages(since, stores, logs, raw, pages, final, lim) && since <= |final|
    requires pages != [] && pages[|pages| - 1].events == []
    ensures LastCursor(since, pages) == pages[|pages| - 1].head
    decreases |pages|
  {
    OnePage(stores[0], logs[0], since, raw, final, lim);
    if |pages| > 1 {
      EmptyPageIsHead(CursorAfter(since, pages[0].events), stores[1..], logs[1..], raw, pages[1..], final, lim);
    }
  }

  // ---------- The Durable Object ----------

  class ReleaseHub {
    const lim: Limits
    var store: Store
    var inboxes: map<nat, seq<Message>> // what the platform's sockets were sent
    ghost var log: seq<Payload>
    var visits: map<nat, Visit>

    ghost function View(): Hub
      reads this
    {
      Hub(store, log, inboxes, visits)
    }

    constructor ()
      ensures lim == Limits(7000, 16) && View() == Hub(Store(map[], None, None), [], map[], map[])
    {
      lim := RELEASE_LIMITS;
      store, inboxes, log, visits := Store(map[], None, None), map[], [], map[];
    }

    method AppendEvent(payload: Payload) returns (event: Event)
      modifies this`store
      ensures (store, event) == Append(old(store), payload, lim)
    {
      var current := if store.seqNo.Some? then store.seqNo.value else 0;
      var seqNo := current + 1;
      event := Event(seqNo, payload);
      store := store.(events := store.events[EventKey(seqNo, lim.padWidth) := event]);
      store := store.(seqNo := Some(seqNo));
      if current == 0 {
        store := store.(oldest := Some(1));
      }
      if seqNo > lim.maxSize {
        var oldSeq := seqNo - lim.maxSize;
        store := store.(events := store.events - {EventKey(oldSeq, lim.padWidth)});
        store := store.(oldest := Some(oldSeq + 1));
      }
    }

    method Send(event: Event)
      modifies this`inboxes
      ensures inboxes == Broadcast(old(inboxes), visits, [Deliver(event)])
    {
      inboxes := map id | id in inboxes ::
        if id in visits && visits[id].closedAt.None? then inboxes[id] + [Deliver(event)] else inboxes[id];
    }

    method AppendEvents(payloads: seq<Payload>) returns (stored: seq<Event>)
      modifies this`store
      ensures (store, stored) == AppendAll(old(store), payloads, lim)
    {
      stored := [];
      for i := 0 to |payloads|
        invariant (store, stored) == AppendAll(old(store), payloads[..i], lim)
      {
        var event := AppendEvent(payloads[i]);
        stored := stored + [event];
        AppendLast(old(store), payloads[..i], payloads[i], lim);
        assert payloads[..i + 1] == payloads[..i] + [payloads[i]];
      }
      assert payloads[..|payloads|] == payloads;
    }

    method FanOut(stored: seq<Event>)
      modifies this`inboxes
      ensures inboxes == Broadcast(old(inboxes), visits, Deliveries(stored))
    {
      BroadcastNothing(inboxes, visits);
      for i := 0 to |stored|
        invariant inboxes == Broadcast(old(inboxes), visits, Deliveries(stored[..i]))
      {
        Send(stored[i]);
        BroadcastConcat(old(inboxes), visits, Deliveries(stored[..i]), [Deliver(stored[i])]);
        assert Deliveries(stored[..i + 1]) == Deliveries(stored[..i]) + [Deliver(stored[i])];
      }
      assert stored[..|stored|] == stored;
    }

    // Appends all payloads first, then fans every stored event out in order.
    method Publish(payloads: seq<Payload>) returns (published: nat)
      modifies this`store, this`inboxes, this`log
      ensures View() == Step(old(View()), Op.Publish(payloads), lim)
      ensures published == |payloads|
    {
      var stored := AppendEvents(payloads);
      FanOut(stored);
      log := log + payloads;
      published := |stored|;
      AppendLast(old(store), payloads, "", lim);
    }

    // Accepts the socket, sends `ready`, then a gap notice or the missed events.
    method Subscribe(id: nat, since: Option<nat>)
      requires id !in visits && id !in inboxes
      modifies this`inboxes, this`visits
      ensures View() == Step(old(View()), Op.Subscribe(id, since), lim)
    {
      var head := CurrentSeq(store);
      var sent := [Ready(head)];
      var gap := false;
      if since.Some? {
        var oldest := OldestSeq(store);
        if oldest > 0 && since.value < oldest - 1 {
          gap := true;
          sent := sent + [SnapshotGap(since.value, oldest)];
        } else if since.value < head {
          var replay := ReplayEvents(store, since.value, lim);
          for i := 0 to |replay|
            invariant sent == [Ready(head)] + Deliveries(replay[..i])
            invariant inboxes == old(inboxes) && visits == old(visits)
          {
            sent := sent + [Deliver(replay[i])];
            DeliveriesConcat(replay[..i], [replay[i]]);
            assert replay[..i + 1] == replay[..i] + [replay[i]];
          }
          assert replay[..|replay|] == replay;
        }
      }
      assert sent == Handshake(store, since, lim);
      inboxes := inboxes[id := sent];
      visits := visits[id := Visit(since, head, gap, None)];
    }

    method Replay(since: nat, limitRaw: Option<int>) returns (page: Page)
      ensures page == ReplayPage(store, since, limitRaw, lim)
    {
      var limit := if limitRaw.Some? then limitRaw.value else 500;
      limit := if limit > 500 then 500 else limit;
      limit := if limit < 1 then 1 else limit;
      var head, oldest := CurrentSeq(store), OldestSeq(store);
      page := Page([], head, None);
      if oldest > 0 && since < oldest - 1 {
        page := page.(gap := Some(oldest));
      }
      if since < head {
        var events := ReplayEvents(store, since, lim);
        page := page.(events := if |events| > limit then events[..limit] else events);
      }
    }
  }

  lemma {:induction false} AppendLast(s: Store, payloads: seq<Payload>, payload: Payload, lim: Limits)
    ensures var (mid, events) := AppendAll(s, payloads, lim);
            AppendAll(s, payloads + [payload], lim)
            == (Append(mid, payload, lim).0, events + [Append(mid, payload, lim).1])
    ensures |AppendAll(s, payloads, lim).1| == |payloads|
    decreases |payloads|
  {
    var more := payloads + [payload];
    if payloads == [] {
      assert more[1..] == [] && AppendAll(s, payloads, lim) == (s, []);
      assert [] + [Append(s, payload, lim).1] == [Append(s, payload, lim).1] + [];
    } else {
      var (next, event) := Append(s, payloads[0], lim);
      assert more[1..] == payloads[1..] + [payload];
      AppendLast(next, payloads[1..], payload, lim);
      var (mid, rest) := AppendAll(next, payloads[1..], lim);
      var last := [Append(mid, payload, lim).1];
      assert [event] + (rest + last) == [event] + rest + last;
    }
  }

  lemma BroadcastNothing(inboxes: map<nat, seq<Message>>, visits: map<nat, Visit>)
    ensures Broadcast(inboxes, visits, Deliveries([])) == inboxes
  {
    assert forall id :: id in inboxes ==> inboxes[id] + Deliveries([]) == inboxes[id];
  }

  lemma BroadcastConcat(inboxes: map<nat, seq<Message>>, visits: map<nat, Visit>, a: seq<Message>, b: seq<Message>)
    ensures Broadcast(Broadcast(inboxes, visits, a), visits, b) == Broadcast(inboxes, visits, a + b)
  {
    assert forall id :: id in inboxes ==> inboxes[id] + a + b == inboxes[id] + (a + b);
  }
}
