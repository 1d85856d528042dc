// The bounded release-event log in Durable Object storage: one key per event, the oldest trimmed.
module EventBuffer {
  import opened Strings

  // How many events are kept and how wide a sequence number is printed: 7000 and 16 in production.
  datatype Limits = Limits(maxSize: nat, padWidth: nat)

  const RELEASE_LIMITS := Limits(7000, 16)

  type Payload = string
  datatype Event = Event(seqNo: nat, release: Payload)

  function EventKey(seqNo: nat, padWidth: nat): string { "evt:" + Pad(seqNo, padWidth) }

  // Zero padding makes the key order of storage the publication order.
  lemma KeyOrder(a: nat, b: nat, w: nat)
    requires a < Power10(w) && b < Power10(w)
    ensures Less(EventKey(a, w), EventKey(b, w)) <==> a < b
    ensures EventKey(a, w) == EventKey(b, w) <==> a == b
  {
    PadOrder(a, b, w);
    var prefix := "evt:";
    LessByField(prefix, prefix, Pad(a, w), Pad(b, w));
    LessIrreflexive(prefix);
    assert EventKey(a, w)[4..] == Pad(a, w) && EventKey(b, w)[4..] == Pad(b, w);
  }

  datatype Store = Store(events: map<string, Event>, seqNo: Option<nat>, oldest: Option<nat>)

  function CurrentSeq(s: Store): nat { if s.seqNo.Some? then s.seqNo.value else 0 }
  function OldestSeq(s: Store): nat { if s.oldest.Some? then s.oldest.value else 0 }

  function Append(s: Store, payload: Payload, lim: Limits): (Store, Event) {
    var current := CurrentSeq(s);
    var seqNo := current + 1;
    var event := Event(seqNo, payload);
    var oldest := if current == 0 then Some(1) else s.oldest;
    var put := Store(s.events[EventKey(seqNo, lim.padWidth) := event], Some(seqNo), oldest);
    if seqNo > lim.maxSize then
      var dropped := seqNo - lim.maxSize;
      (put.(events := put.events - {EventKey(dropped, lim.padWidth)}, oldest := Some(dropped + 1)), event)
    else (put, event)
  }

  // ---------- storage.list ----------

  predicate IsLeast(k: string, keys: set<string>) { k in keys && forall j :: j in keys && j != k ==> Less(k, j) }

  lemma {:induction false} LeastExists(keys: set<string>)
    requires keys != {}
    ensures exists k :: IsLeast(k, keys)
    decreases |keys|
  {
    var some :| some in keys;
    var rest := keys - {some};
    if rest == {} {
      assert keys == {some};
      assert IsLeast(some, keys);
    } else {
      LeastExists(rest);
      var k :| IsLeast(k, rest);
      LessTotal(some, k);
      if Less(some, k) {
        forall j | j in keys && j != some ensures Less(some, j) {
          if j != k {
            LessTransitive(some, k, j);
          }
        }
        assert IsLeast(some, keys);
      } else {
        assert IsLeast(k, keys);
      }
    }
  }

  lemma LeastUnique(keys: set<string>)
    ensures forall a, b :: IsLeast(a, keys) && IsLeast(b, keys) ==> a == b
  {
    forall a, b | IsLeast(a, keys) && IsLeast(b, keys) ensures a == b {
      if a != b {
        LessAsymmetric(a, b);
      }
    }
  }

  // The keys in storage order.
  function InOrder(keys: set<string>): seq<string>
    decreases |keys|
  {
    if keys == {} then []
    else
      LeastExists(keys);
      LeastUnique(keys);
      var k :| k in keys && IsLeast(k, keys);
      [k] + InOrder(keys - {k})
  }

  function ListAfter(s: Store, startAfter: Option<string>): (events: seq<Event>)
  {
    var keys := InOrder(KeysAfter(s, startAfter));
    KeysAreListed(KeysAfter(s, startAfter));
    seq(|keys|, i requires 0 <= i < |keys| => assert keys[i] in keys; s.events[keys[i]])
  }

  lemma {:induction false} KeysAreListed(keys: set<string>)
    ensures forall k :: k in InOrder(keys) ==> k in keys
    decreases |keys|
  {
    if keys != {} {
      var list := InOrder(keys);
      assert list[0] in keys && list[1..] == InOrder(keys - {list[0]});
      KeysAreListed(keys - {list[0]});
      assert list == [list[0]] + list[1..];
    }
  }

  // Any strictly increasing enumeration of the keys is the storage order.
  lemma {:induction false} OrderIsUnique(keys: set<string>, list: seq<string>)
    requires forall k :: k in list <==> k in keys
    requires forall i, j :: 0 <= i < j < |list| ==> Less(list[i], list[j])
    ensures InOrder(keys) == list
    decreases |list|
  {
    if list == [] {
      assert keys == {};
    } else {
      assert list[0] in keys;
      forall j | j in keys && j != list[0] ensures Less(list[0], j) {
        var i :| 0 <= i < |list| && list[i] == j;
      }
      assert IsLeast(list[0], keys);
      LeastUnique(keys);
      forall k ensures k in list[1..] <==> k in keys - {list[0]} {
        if k in list[1..] {
          var i :| 1 <= i < |list| && list[i] == k;
          LessIrreflexive(k);
        }
        assert list == [list[0]] + list[1..];
      }
      OrderIsUnique(keys - {list[0]}, list[1..]);
      assert list == [list[0]] + list[1..];
    }
  }

  function ReplayEvents(s: Store, since: nat, lim: Limits): seq<Event> {
    ListAfter(s, Cursor(since, lim))
  }

  // ---------- What the buffer stands for ----------

  function OldestKept(head: nat, maxSize: nat): nat {
    if head == 0 then 0 else if head > maxSize then head - maxSize + 1 else 1
  }

  // Events after `from` up to `to` of everything ever published.
  function Events(log: seq<Payload>, from: nat, to: nat): seq<Event>
    requires from <= to <= |log|
  {
    seq(to - from, i requires 0 <= i < to - from => Event(from + 1 + i, log[from + i]))
  }

  // Event i is in the store exactly from the oldest kept one on, unaltered.
  ghost predicate KeepsOne(s: Store, log: seq<Payload>, i: nat, lim: Limits)
    requires 1 <= i <= |log|
  {
    if i < OldestKept(|log|, lim.maxSize) then EventKey(i, lim.padWidth) !in s.events
    else EventKey(i, lim.padWidth) in s.events && s.events[EventKey(i, lim.padWidth)] == Event(i, log[i - 1])
  }

  ghost predicate OnlyEvents(s: Store, head: nat, lim: Limits) {
    forall k :: k in s.events ==> exists i :: 1 <= i <= head && k == EventKey(i, lim.padWidth)
  }

  // The store keeps exactly the newest `maxSize` events of the log.
  ghost predicate Keeps(s: Store, log: seq<Payload>, lim: Limits) {
    lim.maxSize >= 1 && |log| < Power10(lim.padWidth)
    && CurrentSeq(s) == |log| && OldestSeq(s) == OldestKept(|log|, lim.maxSize)
    && OnlyEvents(s, |log|, lim)
    && forall i :: 1 <= i <= |log| ==> KeepsOne(s, log, i, lim)
  }

  // Where an append leaves one key: the new one is there, the one that fell out is not, the rest are as before.
  lemma AppendAt(s: Store, payload: Payload, lim: Limits, k: string)
    ensures var n := CurrentSeq(s) + 1;
            var after := Append(s, payload, lim).0.events;
            if n > lim.maxSize && k == EventKey(n - lim.maxSize, lim.padWidth) then k !in after
            else if k == EventKey(n, lim.padWidth) then k in after && after[k] == Event(n, payload)
            else (k in after <==> k in s.events) && (k in after ==> after[k] == s.events[k])
  {
  }

  lemma AppendKeepsOne(s: Store, log: seq<Payload>, payload: Payload, lim: Limits, i: nat)
    requires Keeps(s, log, lim) && |log| + 1 < Power10(lim.padWidth) && 1 <= i <= |log| + 1
    ensures KeepsOne(Append(s, payload, lim).0, log + [payload], i, lim)
  {
    var n := |log| + 1;
    AppendAt(s, payload, lim, EventKey(i, lim.padWidth));
    KeyOrder(i, n, lim.padWidth);
    if n > lim.maxSize {
      KeyOrder(i, n - lim.maxSize, lim.padWidth);
    }
    if i < n {
      assert KeepsOne(s, log, i, lim);
    }
  }

  lemma AppendOnlyEvents(s: Store, payload: Payload, lim: Limits)
    requires OnlyEvents(s, CurrentSeq(s), lim)
    ensures OnlyEvents(Append(s, payload, lim).0, CurrentSeq(s) + 1, lim)
  {
    var head := CurrentSeq(s);
    forall k | k in Append(s, payload, lim).0.events
      ensures exists i :: 1 <= i <= head + 1 && k == EventKey(i, lim.padWidth)
    {
      if k in s.events {
        var i :| 1 <= i <= head && k == EventKey(i, lim.padWidth);
      } else {
        assert k == EventKey(head + 1, lim.padWidth);
      }
    }
  }

  lemma AppendKeeps(s: Store, log: seq<Payload>, payload: Payload, lim: Limits)
    requires Keeps(s, log, lim) && |log| + 1 < Power10(lim.padWidth)
    ensures Keeps(Append(s, payload, lim).0, log + [payload], lim)
    ensures Append(s, payload, lim).1 == Event(|log| + 1, payload)
  {
    AppendOnlyEvents(s, payload, lim);
    var n := |log| + 1;
    forall i | 1 <= i <= n
      ensures KeepsOne(Append(s, payload, lim).0, log + [payload], i, lim)
    {
      AppendKeepsOne(s, log, payload, lim, i);
    }
  }

  function Max(a: nat, b: nat): nat { if a < b then b else a }
  function Min(a: nat, b: nat): nat { if a < b then a else b }

  // The keys of events from+1 .. to, in order.
  function KeysBetween(from: nat, to: nat, lim: Limits): seq<string>
    requires from <= to
  {
    seq(to - from, i requires 0 <= i < to - from => EventKey(from + 1 + i, lim.padWidth))
  }

  function KeysAfter(s: Store, startAfter: Option<string>): set<string> {
    set k | k in s.events && (startAfter.None? || Less(startAfter.value, k))
  }

  function Cursor(since: nat, lim: Limits): Option<string> {
    if since > 0 then Some(EventKey(since, lim.padWidth)) else None
  }

  lemma KeptIsListed(s: Store, log: seq<Payload>, since: nat, lim: Limits, k: string) returns (i: nat)
    requires Keeps(s, log, lim) && since < |log| && k in KeysAfter(s, Cursor(since, lim))
    ensures Max(since, OldestKept(|log|, lim.maxSize) - 1) < i <= |log| && k == EventKey(i, lim.padWidth)
  {
    i :| 1 <= i <= |log| && k == EventKey(i, lim.padWidth);
    assert KeepsOne(s, log, i, lim);
    KeyOrder(since, i, lim.padWidth);
  }

  lemma ListedIsKept(s: Store, log: seq<Payload>, since: nat, lim: Limits, i: nat)
    requires Keeps(s, log, lim) && since < |log|
    requires Max(since, OldestKept(|log|, lim.maxSize) - 1) < i <= |log|
    ensures EventKey(i, lim.padWidth) in KeysAfter(s, Cursor(since, lim))
    ensures s.events[EventKey(i, lim.padWidth)] == Event(i, log[i - 1])
  {
    assert KeepsOne(s, log, i, lim);
    KeyOrder(since, i, lim.padWidth);
  }

  lemma KeysIncrease(from: nat, to: nat, lim: Limits)
    requires from <= to < Power10(lim.padWidth)
    ensures var list := KeysBetween(from, to, lim);
            forall i, j :: 0 <= i < j < |list| ==> Less(list[i], list[j])
  {
    var list := KeysBetween(from, to, lim);
    forall i, j | 0 <= i < j < |list| ensures Less(list[i], list[j]) {
      KeyOrder(from + 1 + i, from + 1 + j, lim.padWidth);
    }
  }

  lemma KeyBetween(from: nat, to: nat, lim: Limits, i: nat)
    requires from < i <= to
    ensures EventKey(i, lim.padWidth) in KeysBetween(from, to, lim)
  {
    assert KeysBetween(from, to, lim)[i - from - 1] == EventKey(i, lim.padWidth);
  }

  lemma KeysListed(s: Store, log: seq<Payload>, since: nat, lim: Limits)
    requires Keeps(s, log, lim) && since < |log|
    ensures InOrder(KeysAfter(s, Cursor(since, lim)))
         == KeysBetween(Max(since, OldestKept(|log|, lim.maxSize) - 1), |log|, lim)
  {
    var from := Max(since, OldestKept(|log|, lim.maxSize) - 1);
    var keys := KeysAfter(s, Cursor(since, lim));
    var list := KeysBetween(from, |log|, lim);
    KeysIncrease(from, |log|, lim);
    forall k | k in keys ensures k in list {
      var i := KeptIsListed(s, log, since, lim, k);
      KeyBetween(from, |log|, lim, i);
    }
    forall k | k in list ensures k in keys {
      var i :| 0 <= i < |list| && list[i] == k;
      ListedIsKept(s, log, since, lim, from + 1 + i);
    }
    OrderIsUnique(keys, list);
  }

  // Replay lists the kept events after the cursor, oldest first.
  lemma ReplayIsTail(s: Store, log: seq<Payload>, since: nat, lim: Limits)
    requires Keeps(s, log, lim) && since < |log|
    ensures ReplayEvents(s, since, lim) == Events(log, Max(since, OldestKept(|log|, lim.maxSize) - 1), |log|)
  {
    var from := Max(since, OldestKept(|log|, lim.maxSize) - 1);
    KeysListed(s, log, since, lim);
    var list, tail := KeysBetween(from, |log|, lim), Events(log, from, |log|);
    ListOfKeys(s, Cursor(since, lim), list);
    forall i | 0 <= i < |list| ensures s.events[list[i]] == tail[i] {
      ListedIsKept(s, log, since, lim, from + 1 + i);
    }
  }

  lemma ListOfKeys(s: Store, startAfter: Option<string>, keys: seq<string>)
    requires InOrder(KeysAfter(s, startAfter)) == keys
    ensures forall i :: 0 <= i < |keys| ==> keys[i] in s.events
    ensures ListAfter(s, startAfter) == seq(|keys|, i requires 0 <= i < |keys| => s.events[keys[i]])
  {
    KeysAreListed(KeysAfter(s, startAfter));
    forall i | 0 <= i < |keys| ensures keys[i] in s.events {
      assert keys[i] in InOrder(KeysAfter(s, startAfter));
    }
  }

  lemma EmptyKeeps(lim: Limits)
    requires lim.maxSize >= 1
    ensures Keeps(Store(map[], None, None), [], lim)
  {
  }

  // The gap test of /subscribe and /replay.
  predicate Gap(s: Store, since: nat) { OldestSeq(s) > 0 && since < OldestSeq(s) - 1 }

  // It is exact: a gap is reported if and only if an event after the cursor was evicted.
  lemma GapIffEvicted(s: Store, log: seq<Payload>, since: nat, lim: Limits)
    requires Keeps(s, log, lim)
    ensures Gap(s, since) <==> exists i :: since < i <= |log| && EventKey(i, lim.padWidth) !in s.events
  {
    forall i | 1 <= i <= |log| ensures EventKey(i, lim.padWidth) !in s.events <==> i < OldestSeq(s) {
      assert KeepsOne(s, log, i, lim);
    }
    if Gap(s, since) {
      assert EventKey(since + 1, lim.padWidth) !in s.events;
    }
  }

  lemma EventsConcat(log: seq<Payload>, a: nat, b: nat, c: nat)
    requires a <= b <= c <= |log|
    ensures Events(log, a, b) + Events(log, b, c) == Events(log, a, c)
  {
  }
}
