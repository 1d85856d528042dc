// Batched session output: lines wait in memory and reach storage at a flush.
module Stdout {
  import opened Strings

  const FLUSH_INTERVAL_MS: nat := 2_000
  const MAX_LINES: nat := 1000

  // One output line: the clock stamp and stream tag of its prefix, and the text.
  datatype Line = Line(at: int, stderr: bool, text: string)

  type Lines = map<string, seq<Line>>

  function Get(m: Lines, sid: string): seq<Line> { if sid in m then m[sid] else [] }

  function Last(lines: seq<Line>): seq<Line> { LastN(lines, MAX_LINES) }

  function LastN(lines: seq<Line>, n: nat): seq<Line> { if |lines| > n then lines[|lines| - n..] else lines }

  lemma DropPrefix(a: seq<Line>, b: seq<Line>, n: nat)
    requires n <= |a|
    ensures (a + b)[n..] == a[n..] + b
  {
  }

  lemma DropTwice(s: seq<Line>, m: nat, n: nat)
    requires m + n <= |s|
    ensures s[m..][n..] == s[m + n..]
  {
  }

  lemma LastNDrops(s: seq<Line>, n: nat, k: nat)
    requires |s| == n + k
    ensures LastN(s, n) == s[k..]
  {
  }

  lemma LastNOfLastN(a: seq<Line>, b: seq<Line>, n: nat)
    ensures LastN(LastN(a, n) + b, n) == LastN(a + b, n)
  {
    if |a| > n {
      var cut, whole := |a| - n, a + b;
      LastNDrops(a, n, cut);
      DropPrefix(a, b, cut);
      LastNDrops(whole[cut..], n, |b|);
      DropTwice(whole, cut, |b|);
      LastNDrops(whole, n, cut + |b|);
    }
  }

  // Trimming what is already trimmed loses nothing the final trim would keep.
  lemma LastOfLast(a: seq<Line>, b: seq<Line>)
    ensures Last(Last(a) + b) == Last(a + b)
  {
    LastNOfLastN(a, b, MAX_LINES);
  }

  // `emitted` is the simple log: everything ever emitted. `timer` is the hub's own handle (its deadline),
  // `live` every timer still to fire: a flush forgets its handle without cancelling the timer.
  datatype State = State(
    now: int,
    stored: Lines,
    buffer: Lines,
    timer: Option<int>,
    live: multiset<int>,
    emitted: Lines)

  function Append(m: Lines, sid: string, line: Line): Lines { m[sid := Get(m, sid) + [line]] }

  function Emit(s: State, sid: string, stderr: bool, text: string): State {
    var line := Line(s.now, stderr, text);
    var deadline := s.now + FLUSH_INTERVAL_MS;
    s.(buffer := Append(s.buffer, sid, line),
       emitted := Append(s.emitted, sid, line),
       timer := if s.timer.Some? then s.timer else Some(deadline),
       live := if s.timer.Some? then s.live else s.live + multiset{deadline})
  }

  function Merged(stored: Lines, buffer: Lines, sid: string): seq<Line> {
    Last(Get(stored, sid) + Get(buffer, sid))
  }

  function FlushedStore(stored: Lines, buffer: Lines): Lines {
    map sid | sid in stored.Keys + buffer.Keys ::
      if sid in buffer then Merged(stored, buffer, sid) else stored[sid]
  }

  function Flush(s: State): State {
    s.(stored := FlushedStore(s.stored, s.buffer),
       buffer := map[],
       timer := None)
  }

  function Read(s: State, sid: string): State { if sid in s.buffer then Flush(s) else s }

  datatype Op =
    | EmitOp(sid: string, stderr: bool, text: string)
    | ReadOp(sid: string)
    | TimerOp(deadline: int)
    | ClockOp(now: int)

  // Timers fire at their deadline: the clock does not pass a live one.
  predicate Enabled(s: State, op: Op) {
    match op
    case EmitOp(_, _, _) => true
    case ReadOp(_) => true
    case TimerOp(d) => d in s.live && s.now >= d
    case ClockOp(now) => s.now <= now && forall d :: d in s.live ==> now <= d
  }

  function Step(s: State, op: Op): State {
    match op
    case EmitOp(sid, stderr, text) => Emit(s, sid, stderr, text)
    case ReadOp(sid) => Read(s, sid)
    case TimerOp(d) => Flush(s.(live := s.live - multiset{d}))
    case ClockOp(now) => s.(now := now)
  }

  function Run(s: State, ops: seq<Op>): State
    decreases |ops|
  {
    if ops == [] then s else Run(Step(s, ops[0]), ops[1..])
  }

  predicate Legal(s: State, ops: seq<Op>)
    decreases |ops|
  {
    ops == [] || (Enabled(s, ops[0]) && Legal(Step(s, ops[0]), ops[1..]))
  }

  // What is stored is the trimmed log without the part still in the buffer.
  ghost predicate Splits(emitted: seq<Line>, buffered: seq<Line>, stored: seq<Line>) {
    |buffered| <= |emitted|
    && emitted[|emitted| - |buffered|..] == buffered
    && stored == Last(emitted[..|emitted| - |buffered|])
  }

  ghost predicate Accounted(s: State, sid: string) {
    Splits(Get(s.emitted, sid), Get(s.buffer, sid), Get(s.stored, sid))
  }

  // A line in the buffer has a live timer due within the interval of its emission.
  ghost predicate Timed(s: State) {
    (s.timer.Some? <==> s.buffer != map[])
    && (s.timer.Some? ==> s.timer.value in s.live && s.timer.value <= s.now + FLUSH_INTERVAL_MS)
    && (forall d :: d in s.live ==> s.now <= d)
    && (forall sid, line :: sid in s.buffer && line in s.buffer[sid] ==> s.timer.value <= line.at + FLUSH_INTERVAL_MS)
  }

  ghost predicate AllAccounted(s: State) { forall sid :: Accounted(s, sid) }

  ghost predicate Valid(s: State) { Timed(s) && AllAccounted(s) }

  lemma SplitsEmit(e: seq<Line>, b: seq<Line>, st: seq<Line>, line: Line)
    requires Splits(e, b, st)
    ensures Splits(e + [line], b + [line], st)
  {
    assert (e + [line])[..|e| - |b|] == e[..|e| - |b|];
    assert (e + [line])[|e| - |b|..] == e[|e| - |b|..] + [line];
  }

  lemma SplitsFlush(e: seq<Line>, b: seq<Line>, st: seq<Line>)
    requires Splits(e, b, st)
    ensures Last(st + b) == Last(e) && Splits(e, [], Last(st + b))
  {
    LastOfLast(e[..|e| - |b|], b);
    assert e[..|e| - |b|] + b == e;
    assert e[..|e|] == e;
  }

  lemma EmitAccounted(s: State, sid: string, stderr: bool, text: string)
    requires AllAccounted(s)
    ensures AllAccounted(Emit(s, sid, stderr, text))
  {
    var line := Line(s.now, stderr, text);
    forall id ensures Accounted(Emit(s, sid, stderr, text), id) {
      assert Accounted(s, id);
      AppendOne(s.emitted, sid, line, id);
      AppendOne(s.buffer, sid, line, id);
      if id == sid {
        SplitsEmit(Get(s.emitted, id), Get(s.buffer, id), Get(s.stored, id), line);
      }
    }
  }

  lemma AppendOne(m: Lines, sid: string, line: Line, id: string)
    ensures Get(Append(m, sid, line), id) == if id == sid then Get(m, id) + [line] else Get(m, id)
  {
  }

  lemma FlushOne(s: State, id: string)
    ensures var after := Flush(s);
            after.emitted == s.emitted && Get(after.buffer, id) == []
            && Get(after.stored, id)
               == if id in s.buffer then Last(Get(s.stored, id) + Get(s.buffer, id)) else Get(s.stored, id)
  {
  }

  lemma FlushAccounted(s: State)
    requires AllAccounted(s)
    ensures AllAccounted(Flush(s))
  {
    forall id ensures Accounted(Flush(s), id) {
      assert Accounted(s, id);
      FlushOne(s, id);
      if id in s.buffer {
        SplitsFlush(Get(s.emitted, id), Get(s.buffer, id), Get(s.stored, id));
      }
    }
  }

  lemma StepAccounted(s: State, op: Op)
    requires AllAccounted(s)
    ensures AllAccounted(Step(s, op))
  {
    match op {
      case EmitOp(sid, stderr, text) => EmitAccounted(s, sid, stderr, text);
      case ReadOp(sid) => FlushAccounted(s);
      case TimerOp(d) =>
        var fired := s.(live := s.live - multiset{d});
        assert forall id :: Accounted(s, id) ==> Accounted(fired, id);
        FlushAccounted(fired);
      case ClockOp(now) =>
        assert forall id :: Accounted(s, id) ==> Accounted(s.(now := now), id);
    }
  }

  lemma EmitTimed(s: State, sid: string, stderr: bool, text: string)
    requires Timed(s)
    ensures Timed(Emit(s, sid, stderr, text))
  {
    var after := Emit(s, sid, stderr, text);
    assert sid in after.buffer;
    forall id, line | id in after.buffer && line in after.buffer[id]
      ensures after.timer.value <= line.at + FLUSH_INTERVAL_MS
    {
      if id == sid {
        assert line in Get(s.buffer, sid) || line == Line(s.now, stderr, text);
      }
    }
  }

  lemma StepValid(s: State, op: Op)
    requires Valid(s) && Enabled(s, op)
    ensures Valid(Step(s, op))
  {
    StepAccounted(s, op);
    match op {
      case EmitOp(sid, stderr, text) => EmitTimed(s, sid, stderr, text);
      case ReadOp(sid) =>
      case TimerOp(d) =>
      case ClockOp(now) =>
    }
  }

  lemma {:induction false} RunValid(s: State, ops: seq<Op>)
    requires Valid(s) && Legal(s, ops)
    ensures Valid(Run(s, ops))
    decreases |ops|
  {
    if ops != [] {
      StepValid(s, ops[0]);
      RunValid(Step(s, ops[0]), ops[1..]);
    }
  }

  const EMPTY := State(0, map[], map[], None, multiset{}, map[])

  lemma LastIs(all: seq<Line>)
    ensures var last := Last(all);
            |last| == (if |all| < 1000 then |all| else 1000) && last == all[|all| - |last|..]
  {
  }

  // Whatever was emitted, read and flushed before, in any interleaving: a read returns exactly the last 1000
  // lines emitted for that session.
  lemma ReadIsLastLines(ops: seq<Op>, sid: string)
    requires Legal(EMPTY, ops)
    ensures var s := Run(EMPTY, ops);
            var all, read := Get(s.emitted, sid), Get(Read(s, sid).stored, sid);
            |read| == (if |all| < 1000 then |all| else 1000) && read == all[|all| - |read|..]
  {
    RunValid(EMPTY, ops);
    var s := Run(EMPTY, ops);
    assert Accounted(s, sid);
    ReadIsLast(s, sid);
    LastIs(Get(s.emitted, sid));
  }

  lemma ReadIsLast(s: State, sid: string)
    requires Accounted(s, sid)
    ensures Get(Read(s, sid).stored, sid) == Last(Get(s.emitted, sid))
  {
    SplitsFlush(Get(s.emitted, sid), Get(s.buffer, sid), Get(s.stored, sid));
    var e := Get(s.emitted, sid);
    assert e[..|e|] == e;
  }

  // A waiting line is never older than the flush interval, and a timer that will store it is still live.
  lemma StoredWithinInterval(ops: seq<Op>, sid: string, line: Line)
    requires Legal(EMPTY, ops) && line in Get(Run(EMPTY, ops).buffer, sid)
    ensures var s := Run(EMPTY, ops);
            s.now <= line.at + 2_000 && exists d :: d in s.live && d <= line.at + 2_000
  {
    RunValid(EMPTY, ops);
    var s := Run(EMPTY, ops);
    assert s.timer.value in s.live;
  }

  lemma EmptyOrNot(live: multiset<int>)
    ensures live == multiset{} || exists d :: d in live
  {
    if forall d :: d !in live {
      assert live == multiset{};
    }
  }

  lemma {:induction false} LeastDeadline(live: multiset<int>) returns (least: int)
    requires live != multiset{}
    ensures least in live && forall d :: d in live ==> least <= d
    decreases |live|
  {
    EmptyOrNot(live);
    var first :| first in live;
    least := first;
    var rest := live - multiset{first};
    if rest != multiset{} {
      var other := LeastDeadline(rest);
      least := if other < first then other else first;
    }
    assert forall d :: d in live ==> d == first || d in rest;
  }

  // Nothing stops a run: lines and reads may come at any time, and time goes on to any later moment, or first to the
  // next deadline, whose timer then fires.
  lemma TimeGoesOn(ops: seq<Op>, later: int, sid: string, stderr: bool, text: string)
    requires Legal(EMPTY, ops) && Run(EMPTY, ops).now <= later
    ensures var s := Run(EMPTY, ops);
            Enabled(s, EmitOp(sid, stderr, text)) && Enabled(s, ReadOp(sid))
            && (Enabled(s, ClockOp(later))
                || exists d :: d in s.live && d <= later && Enabled(s, ClockOp(d))
                               && Enabled(Step(s, ClockOp(d)), TimerOp(d)))
  {
    RunValid(EMPTY, ops);
    var s := Run(EMPTY, ops);
    if s.live != multiset{} {
      var d := LeastDeadline(s.live);
      assert d <= later ==> Enabled(s, ClockOp(d)) && Enabled(Step(s, ClockOp(d)), TimerOp(d));
    }
  }
}
