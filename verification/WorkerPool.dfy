// A shared cursor claimed by interleaved workers: code between two awaits runs without interruption.
module WorkerPool {
  import opened Strings

  // The two claim loops: `while (next < n) { i = next++ … }`, and `idx = cursor++; if (idx >= n) return`.
  datatype Style = CheckFirst | ClaimFirst

  // Ready: not yet started. Busy: awaiting the worker function on one item.
  datatype Phase = Ready | Busy(index: nat) | Done

  // `calls` lists the indices the worker function was called with, in order.
  datatype State<R> = State(next: nat, results: seq<Option<R>>, workers: seq<Phase>, calls: seq<nat>)

  function Min(a: nat, b: nat): nat { if a < b then a else b }

  function Workers(style: Style, limit: nat, n: nat): nat { if style == CheckFirst then Min(limit, n) else limit }

  function Start<R>(style: Style, limit: nat, n: nat): State<R> {
    State(0, seq(n, _ => None), seq(Workers(style, limit, n), _ => Ready), [])
  }

  function Finish<R>(s: State<R>, w: nat): State<R>
    requires w < |s.workers|
  {
    s.(workers := s.workers[w := Done])
  }

  function Call<R>(s: State<R>, w: nat, i: nat): State<R>
    requires w < |s.workers|
  {
    s.(next := i + 1, workers := s.workers[w := Busy(i)], calls := s.calls + [i])
  }

  // The loop head of worker w: claim an index or leave.
  function Claim<R>(s: State<R>, style: Style, w: nat): State<R>
    requires w < |s.workers|
  {
    match style
    case CheckFirst => if s.next < |s.results| then Call(s, w, s.next) else Finish(s, w)
    case ClaimFirst =>
      if s.next >= |s.results| then Finish(s.(next := s.next + 1), w) else Call(s, w, s.next)
  }

  // Worker w runs until its next await: it starts, or its call returns the answer for its index.
  function Step<R>(s: State<R>, answers: seq<R>, style: Style, w: nat): State<R>
    requires |answers| == |s.results|
  {
    if w >= |s.workers| then s
    else
      match s.workers[w]
      case Ready => Claim(s, style, w)
      case Busy(i) =>
        if i < |answers| then Claim(s.(results := s.results[i := Some(answers[i])]), style, w) else s
      case Done => s
  }

  function Run<R>(s: State<R>, answers: seq<R>, style: Style, schedule: seq<nat>): (s': State<R>)
    requires |answers| == |s.results|
    ensures |s'.results| == |s.results|
  {
    if schedule == [] then s
    else Step(Run(s, answers, style, schedule[..|schedule| - 1]), answers, style, schedule[|schedule| - 1])
  }

  // ---------- What every interleaving keeps ----------

  ghost predicate Valid<R>(s: State<R>, answers: seq<R>, style: Style) {
    var n, claimed := |s.results|, |s.calls|;
    |answers| == n && claimed == Min(s.next, n) && (style == CheckFirst ==> s.next <= n)
    && (forall k :: 0 <= k < claimed ==> s.calls[k] == k)
    && (forall w :: 0 <= w < |s.workers| && s.workers[w].Busy? ==>
          s.workers[w].index < claimed && s.results[s.workers[w].index].None?)
    && (forall v, w :: 0 <= v < w < |s.workers| && s.workers[v].Busy? ==> s.workers[v] != s.workers[w])
    && (forall w :: 0 <= w < |s.workers| && s.workers[w].Done? ==> s.next >= n)
    && (forall i :: 0 <= i < n && s.results[i].Some? ==> i < claimed && s.results[i].value == answers[i])
    && (forall i :: 0 <= i < claimed && s.results[i].None? ==> Busy(i) in s.workers)
  }

  lemma CallValid<R>(s: State<R>, answers: seq<R>, style: Style, w: nat)
    requires Valid(s, answers, style) && w < |s.workers| && s.workers[w].Ready? && s.next < |s.results|
    ensures Valid(Call(s, w, s.next), answers, style)
  {
    var after := Call(s, w, s.next);
    assert after.workers[w] == Busy(s.next);
    forall i | 0 <= i < |s.calls| && after.results[i].None? ensures Busy(i) in after.workers {
      KeepsOthers(s.workers, w, Busy(s.next), i);
    }
  }

  lemma KeepsOthers(workers: seq<Phase>, w: nat, p: Phase, i: nat)
    requires w < |workers| && Busy(i) in workers && workers[w] != Busy(i)
    ensures Busy(i) in workers[w := p]
  {
    var v :| 0 <= v < |workers| && workers[v] == Busy(i);
    assert workers[w := p][v] == Busy(i);
  }

  lemma FinishValid<R>(s: State<R>, answers: seq<R>, style: Style, w: nat)
    requires Valid(s, answers, style) && w < |s.workers| && s.workers[w].Ready? && s.next >= |s.results|
    ensures Valid(Claim(s, style, w), answers, style)
  {
    var after := Claim(s, style, w);
    forall i | 0 <= i < |after.calls| && after.results[i].None? ensures Busy(i) in after.workers {
      KeepsOthers(s.workers, w, Done, i);
    }
  }

  // The same worker between its call and its next claim.
  function Returned<R>(s: State<R>, answers: seq<R>, w: nat, i: nat): State<R>
    requires w < |s.workers| && i < |s.results| == |answers|
  {
    s.(results := s.results[i := Some(answers[i])], workers := s.workers[w := Ready])
  }

  lemma ReturnValid<R>(s: State<R>, answers: seq<R>, style: Style, w: nat, i: nat)
    requires Valid(s, answers, style) && w < |s.workers| && s.workers[w] == Busy(i)
    ensures Valid(Returned(s, answers, w, i), answers, style)
  {
    var after := Returned(s, answers, w, i);
    forall k | 0 <= k < |after.calls| && after.results[k].None? ensures Busy(k) in after.workers {
      KeepsOthers(s.workers, w, Ready, k);
    }
  }

  lemma StepValid<R>(s: State<R>, answers: seq<R>, style: Style, w: nat)
    requires Valid(s, answers, style)
    ensures Valid(Step(s, answers, style, w), answers, style)
  {
    if w < |s.workers| && !s.workers[w].Done? {
      var ready := s;
      if s.workers[w].Busy? {
        var i := s.workers[w].index;
        ReturnValid(s, answers, style, w, i);
        ready := Returned(s, answers, w, i);
        assert ready.workers[w := Done] == s.workers[w := Done];
        assert ready.workers[w := Busy(s.next)] == s.workers[w := Busy(s.next)];
      }
      if s.next < |s.results| {
        CallValid(ready, answers, style, w);
      } else {
        FinishValid(ready, answers, style, w);
      }
    }
  }

  lemma {:induction false} RunValid<R>(answers: seq<R>, style: Style, limit: nat, schedule: seq<nat>)
    ensures Valid(Run(Start(style, limit, |answers|), answers, style, schedule), answers, style)
  {
    if schedule != [] {
      var before := schedule[..|schedule| - 1];
      RunValid(answers, style, limit, before);
      StepValid(Run(Start(style, limit, |answers|), answers, style, before), answers, style, schedule[|schedule| - 1]);
    }
  }

  // ---------- Counting ----------

  function LiveCount(workers: seq<Phase>): nat {
    if workers == [] then 0 else (if workers[0].Done? then 0 else 1) + LiveCount(workers[1..])
  }

  lemma {:induction false} CountsOfUpdate(workers: seq<Phase>, w: nat, p: Phase)
    requires w < |workers|
    ensures LiveCount(workers[w := p]) + (if workers[w].Done? then 0 else 1)
            == LiveCount(workers) + if p.Done? then 0 else 1
  {
    var after := workers[w := p];
    if w > 0 {
      CountsOfUpdate(workers[1..], w - 1, p);
      assert after[1..] == workers[1..][w - 1 := p];
    } else {
      assert after[1..] == workers[1..];
    }
  }

  lemma {:induction false} CountsBounded(workers: seq<Phase>)
    ensures LiveCount(workers) <= |workers|
    ensures LiveCount(workers) == 0 <==> forall w :: 0 <= w < |workers| ==> workers[w].Done?
  {
    if workers != [] {
      CountsBounded(workers[1..]);
      assert forall w :: 1 <= w < |workers| ==> workers[w] == workers[1..][w - 1];
      assert LiveCount(workers[1..]) == 0 ==>
          forall w :: 1 <= w < |workers| ==> workers[w].Done?;
    }
  }

  // Segments still to run: one per live worker and one per unclaimed index.
  function Left<R>(s: State<R>): int { LiveCount(s.workers) + |s.results| - |s.calls| }

  function Effective<R>(s: State<R>, answers: seq<R>, style: Style, schedule: seq<nat>): nat
    requires |answers| == |s.results|
  {
    if schedule == [] then 0
    else
      var before, w := Run(s, answers, style, schedule[..|schedule| - 1]), schedule[|schedule| - 1];
      Effective(s, answers, style, schedule[..|schedule| - 1])
      + if w < |before.workers| && !before.workers[w].Done? then 1 else 0
  }

  lemma StepLeft<R>(s: State<R>, answers: seq<R>, style: Style, w: nat)
    requires Valid(s, answers, style)
    ensures Left(Step(s, answers, style, w)) == Left(s) - if w < |s.workers| && !s.workers[w].Done? then 1 else 0
    ensures |Step(s, answers, style, w).workers| == |s.workers|
  {
    if w < |s.workers| && !s.workers[w].Done? {
      CountsOfUpdate(s.workers, w, Done);
      CountsOfUpdate(s.workers, w, Busy(s.next));
    }
  }

  lemma {:induction false} AllReady(n: nat)
    ensures LiveCount(seq(n, _ => Ready)) == n
  {
    if n > 0 {
      AllReady(n - 1);
      assert seq(n, _ => Ready)[1..] == seq(n - 1, _ => Ready);
    }
  }

  // Every interleaving takes one segment per worker and one per item, and no more.
  lemma {:induction false} RunLeft<R>(answers: seq<R>, style: Style, limit: nat, schedule: seq<nat>)
    ensures var start := Start(style, limit, |answers|);
            var s := Run(start, answers, style, schedule);
            Left(s) + Effective(start, answers, style, schedule) == Workers(style, limit, |answers|) + |answers|
            && |s.workers| == (if style == CheckFirst && limit > |answers| then |answers| else limit)
  {
    var start := Start<R>(style, limit, |answers|);
    if schedule == [] {
      AllReady(Workers(style, limit, |answers|));
    } else {
      var before := schedule[..|schedule| - 1];
      RunLeft(answers, style, limit, before);
      RunValid(answers, style, limit, before);
      StepLeft(Run(start, answers, style, before), answers, style, schedule[|schedule| - 1]);
    }
  }

  // The cursor stands after the last claimed index, and where it is moved before the test, once more for each worker
  // that has left.
  lemma {:induction false} RunNext<R>(answers: seq<R>, style: Style, limit: nat, schedule: seq<nat>)
    ensures var s := Run(Start(style, limit, |answers|), answers, style, schedule);
            s.next == |s.calls| + if style == ClaimFirst then |s.workers| - LiveCount(s.workers) else 0
  {
    if schedule == [] {
      AllReady(Workers(style, limit, |answers|));
    } else {
      var before, w := schedule[..|schedule| - 1], schedule[|schedule| - 1];
      RunNext(answers, style, limit, before);
      RunValid(answers, style, limit, before);
      StepNext(Run(Start(style, limit, |answers|), answers, style, before), answers, style, w);
    }
  }

  lemma StepNext<R>(s: State<R>, answers: seq<R>, style: Style, w: nat)
    requires Valid(s, answers, style)
    requires s.next == |s.calls| + if style == ClaimFirst then |s.workers| - LiveCount(s.workers) else 0
    ensures var after := Step(s, answers, style, w);
            after.next == |after.calls| + if style == ClaimFirst then |after.workers| - LiveCount(after.workers) else 0
  {
    if w < |s.workers| && !s.workers[w].Done? {
      CountsOfUpdate(s.workers, w, Done);
      CountsOfUpdate(s.workers, w, Busy(s.next));
    }
  }

  predicate AllDone<R>(s: State<R>) { forall w :: 0 <= w < |s.workers| ==> s.workers[w].Done? }

  // The pool under every interleaving: at most `limit` calls are in flight; the calls are on 0, 1, 2, …, each index
  // at most once; and when every worker has returned, the results are the answers, item by item.
  lemma PoolIsMap<R>(answers: seq<R>, style: Style, limit: nat, schedule: seq<nat>)
    ensures var s := Run(Start(style, limit, |answers|), answers, style, schedule);
            |set w | 0 <= w < |s.workers| && s.workers[w].Busy?| <= limit && |s.calls| <= |answers|
            && (forall k :: 0 <= k < |s.calls| ==> s.calls[k] == k)
            && (AllDone(s) && limit >= 1 ==>
                  |s.calls| == |answers|
                  && forall i :: 0 <= i < |answers| ==> s.results[i] == Some(answers[i]))
  {
    var s := Run(Start(style, limit, |answers|), answers, style, schedule);
    RunValid(answers, style, limit, schedule);
    RunLeft(answers, style, limit, schedule);
    CountsBounded(s.workers);
    BusyIs(s.workers);
    if AllDone(s) && limit >= 1 && answers != [] {
      assert s.workers[0].Done?;
    }
  }

  lemma {:induction false} BusyIs(workers: seq<Phase>)
    ensures |set w | 0 <= w < |workers| && workers[w].Busy?| <= |workers|
    decreases |workers|
  {
    var busy := set w | 0 <= w < |workers| && workers[w].Busy?;
    if workers == [] {
      assert busy == {};
    } else {
      var n := |workers| - 1;
      BusyIs(workers[..n]);
      var before := set w | 0 <= w < n && workers[..n][w].Busy?;
      assert before == set w | 0 <= w < n && workers[w].Busy?;
      assert busy == before + if workers[n].Busy? then {n} else {};
    }
  }

  // No deadlock and no idling: the run is over exactly when it has taken one segment per worker and per item, and
  // until then some worker can run; a worker leaves only when every item is claimed.
  lemma PoolEnds<R>(answers: seq<R>, style: Style, limit: nat, schedule: seq<nat>)
    requires limit >= 1
    ensures var start := Start(style, limit, |answers|);
            var s := Run(start, answers, style, schedule);
            var all := Workers(style, limit, |answers|) + |answers|;
            (AllDone(s) <==> Effective(start, answers, style, schedule) == all)
            && (forall w :: 0 <= w < |s.workers| && s.workers[w].Done? ==> |s.calls| == |answers|)
  {
    var s := Run(Start(style, limit, |answers|), answers, style, schedule);
    RunValid(answers, style, limit, schedule);
    RunLeft(answers, style, limit, schedule);
    CountsBounded(s.workers);
    if AllDone(s) && answers != [] {
      assert s.workers[0].Done?;
    }
  }

  // With a limit of 0 no worker starts and no item is ever processed.
  lemma {:induction false} NoWorkers<R>(answers: seq<R>, style: Style, schedule: seq<nat>)
    ensures var s := Run(Start(style, 0, |answers|), answers, style, schedule);
            AllDone(s) && s.calls == [] && forall i :: 0 <= i < |answers| ==> s.results[i].None?
  {
    if schedule != [] {
      NoWorkers(answers, style, schedule[..|schedule| - 1]);
      RunLeft(answers, style, 0, schedule[..|schedule| - 1]);
    }
  }

  // ---------- The pool itself ----------

  class Pool<R> {
    const style: Style
    const results: array<Option<R>>
    var next: nat
    var workers: seq<Phase>
    var calls: seq<nat>

    function View(): State<R>
      reads this, results
    {
      State(next, results[..], workers, calls)
    }

    constructor (style: Style, limit: nat, n: nat)
      ensures View() == Start(style, limit, n) && this.style == style && fresh(results)
    {
      this.style := style;
      results := new Option<R>[n](_ => None);
      next := 0;
      workers := seq(Workers(style, limit, n), _ => Ready);
      calls := [];
      new;
      assert results[..] == seq(n, _ => None);
    }

    // Worker w goes on from its await with the value of its call, stores it, and claims the next index.
    method Resume(w: nat, ghost answers: seq<R>, value: R)
      requires w < |workers| && Valid(View(), answers, style)
      requires workers[w].Busy? ==> value == answers[workers[w].index]
      modifies this, results
      ensures View() == Step(old(View()), answers, style, w)
      ensures Valid(View(), answers, style)
    {
      StepValid(View(), answers, style, w);
      if workers[w].Done? {
        return;
      }
      if workers[w].Busy? {
        results[workers[w].index] := Some(value);
      }
      if style == CheckFirst {
        if next < results.Length {
          StartCall(w, next);
        } else {
          workers := workers[w := Done];
        }
      } else {
        var idx := next;
        if idx >= results.Length {
          next := next + 1;
          workers := workers[w := Done];
        } else {
          StartCall(w, idx);
        }
      }
    }

    method StartCall(w: nat, i: nat)
      requires w < |workers|
      modifies this
      ensures View() == Call(old(View()), w, i)
    {
      next := i + 1;
      workers := workers[w := Busy(i)];
      calls := calls + [i];
    }
  }
}
