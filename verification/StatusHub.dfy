// The status hub Durable Object: session records in storage, output lines batched in memory.
module StatusHub {
  import opened Strings
  import opened Sessions
  import Stdout

  datatype CancelAnswer = NotFound | NotRunning(status: Status) | Accepted

  // The records while the sweep still has to visit `remaining`.
  function PartlySwept(sessions: map<string, Session>, remaining: set<string>, now: int): map<string, Session> {
    map sid | sid in sessions :: if sid in remaining then sessions[sid] else Swept(sessions[sid], now)
  }

  function Shown(sessions: map<string, Session>, remaining: set<string>): set<string> {
    set sid | sid in sessions && sid !in remaining && !sessions[sid].dismissed
  }

  lemma SweepOne(sessions: map<string, Session>, remaining: set<string>, sid: string, now: int)
    requires sid in sessions && sid in remaining
    ensures PartlySwept(sessions, remaining, now)[sid] == sessions[sid]
    ensures PartlySwept(sessions, remaining - {sid}, now)
         == PartlySwept(sessions, remaining, now)[sid := Swept(sessions[sid], now)]
    ensures Shown(sessions, remaining - {sid})
         == Shown(sessions, remaining) + if sessions[sid].dismissed then {} else {sid}
  {
  }

  lemma SweepEnds(sessions: map<string, Session>, now: int)
    ensures PartlySwept(sessions, sessions.Keys, now) == sessions && Shown(sessions, sessions.Keys) == {}
    ensures PartlySwept(sessions, {}, now) == SweepAll(sessions, now)
    ensures Shown(sessions, {}) == Shown(SweepAll(sessions, now), {})
  {
  }

  // Finished sessions past retention, outside `remaining`.
  function ToDelete(sessions: map<string, Session>, remaining: set<string>, now: int): set<string> {
    set sid | sid in sessions && sid !in remaining && Expired(sessions[sid], now)
  }

  lemma DeleteOne(sessions: map<string, Session>, remaining: set<string>, sid: string, now: int)
    requires sid in sessions && sid in remaining
    ensures ToDelete(sessions, remaining - {sid}, now)
         == ToDelete(sessions, remaining, now) + if Expired(sessions[sid], now) then {sid} else {}
  {
  }

  lemma DeleteEnds(sessions: map<string, Session>, now: int)
    ensures ToDelete(sessions, sessions.Keys, now) == {}
    ensures sessions - ToDelete(sessions, {}, now) == Unexpired(sessions, now)
    ensures sessions.Keys - Unexpired(sessions, now).Keys == ToDelete(sessions, {}, now)
  {
  }

  // Stored output while a flush still has to merge `remaining`.
  function PartlyMerged(stored: Stdout.Lines, buffer: Stdout.Lines, remaining: set<string>): Stdout.Lines {
    map sid | sid in stored.Keys + (buffer.Keys - remaining) ::
      if sid in buffer && sid !in remaining then Stdout.Merged(stored, buffer, sid) else stored[sid]
  }

  lemma MergeOne(stored: Stdout.Lines, buffer: Stdout.Lines, remaining: set<string>, sid: string)
    requires sid in remaining && sid in buffer
    ensures Stdout.Get(PartlyMerged(stored, buffer, remaining), sid) == Stdout.Get(stored, sid)
    ensures var partly := PartlyMerged(stored, buffer, remaining);
            PartlyMerged(stored, buffer, remaining - {sid})
            == partly[sid := Stdout.Last(Stdout.Get(partly, sid) + buffer[sid])]
  {
  }

  lemma MergeEnds(stored: Stdout.Lines, buffer: Stdout.Lines)
    ensures PartlyMerged(stored, buffer, buffer.Keys) == stored
    ensures PartlyMerged(stored, buffer, {}) == Stdout.FlushedStore(stored, buffer)
  {
  }

  class StatusHub {
    var sessions: map<string, Session>
    var cleanupAt: Option<int>
    var stdoutStored: Stdout.Lines
    var stdoutBuffer: Stdout.Lines
    var flushTimer: Option<int>
    ghost var liveTimers: multiset<int>
    ghost var emitted: Stdout.Lines

    ghost function View(): Hub
      reads this
    {
      Hub(sessions, cleanupAt)
    }

    ghost function Output(now: int): Stdout.State
      reads this
    {
      Stdout.State(now, stdoutStored, stdoutBuffer, flushTimer, liveTimers, emitted)
    }

    constructor ()
      ensures View() == Hub(map[], None) && Output(0) == Stdout.EMPTY
    {
      sessions, cleanupAt := map[], None;
      stdoutStored, stdoutBuffer, flushTimer := map[], map[], None;
      liveTimers, emitted := multiset{}, map[];
    }

    method EnsureCleanup(now: Time)
      modifies this`cleanupAt
      ensures View() == WithCleanup(old(View()), now)
    {
      if cleanupAt.None? {
        cleanupAt := Some(now + CLEANUP_INTERVAL_MS);
      }
    }

    method OnStart(sid: string, activeSources: seq<string>, now: Time)
      modifies this`sessions, this`cleanupAt
      ensures View() == Step(old(View()), Start(sid, activeSources, now))
    {
      sessions := sessions[sid := Session(Running, now, now, None, None, activeSources, false, false)];
      EnsureCleanup(now);
    }

    method OnProgress(sid: string, activeSources: Option<seq<string>>, now: Time)
      modifies this`sessions
      ensures View() == Step(old(View()), Progress(sid, activeSources, now))
    {
      if sid in sessions {
        var existing := sessions[sid];
        if activeSources.Some? {
          existing := existing.(activeSources := activeSources.value);
        }
        existing := existing.(lastUpdatedAt := now);
        sessions := sessions[sid := existing];
      }
    }

    method OnTerminal(sid: string, status: Status, now: Time)
      requires status in {Complete, Cancelled}
      modifies this`sessions
      ensures View() == Step(old(View()), if status == Complete then Completed(sid, now) else WasCancelled(sid, now))
    {
      if sid in sessions && !BlocksLateTerminal(sessions[sid]) {
        var existing := sessions[sid].(status := status);
        existing := existing.(error := None, errorSource := None, activeSources := []);
        existing := existing.(lastUpdatedAt := now);
        sessions := sessions[sid := existing];
      }
    }

    method OnError(sid: string, error: Option<string>, errorSource: Option<string>, now: Time)
      modifies this`sessions, this`cleanupAt
      ensures View() == Step(old(View()), Failed(sid, error, errorSource, now))
    {
      if sid in sessions {
        var existing := sessions[sid];
        if !IsTerminal(existing) {
          existing := existing.(status := Error, error := error);
          if errorSource.Some? {
            existing := existing.(errorSource := errorSource);
          }
          existing := existing.(lastUpdatedAt := now);
          sessions := sessions[sid := existing];
        }
      } else {
        sessions := sessions[sid := Session(Error, now, now, error, errorSource, [], false, false)];
        EnsureCleanup(now);
      }
    }

    method RequestCancel(sid: string) returns (answer: CancelAnswer)
      modifies this`sessions
      ensures View() == Step(old(View()), Sessions.RequestCancel(sid))
      ensures answer == if sid !in old(sessions) then NotFound
                        else if old(sessions)[sid].status != Running then NotRunning(old(sessions)[sid].status)
                        else Accepted
    {
      if sid !in sessions {
        return NotFound;
      }
      if sessions[sid].status != Running {
        return NotRunning(sessions[sid].status);
      }
      sessions := sessions[sid := sessions[sid].(cancelRequested := true)];
      answer := Accepted;
    }

    method DismissSession(sid: string)
      modifies this`sessions
      ensures View() == Step(old(View()), Dismiss(sid))
    {
      if sid in sessions {
        sessions := sessions[sid := sessions[sid].(dismissed := true)];
      }
    }

    method ExpireStale(sid: string, now: Time)
      requires sid in sessions
      modifies this`sessions
      ensures sessions == old(sessions)[sid := Swept(old(sessions)[sid], now)]
    {
      var session := sessions[sid];
      if session.status == Running && now - LastUpdate(session) > STALE_SESSION_MS {
        session := session.(status := Error, error := Some(STALE_TIMEOUT_ERROR));
        session := session.(errorSource := Some("us"), lastUpdatedAt := now);
      }
      sessions := sessions[sid := session];
    }

    // Reading the sessions sweeps the stale ones; dismissed sessions are swept but not shown.
    method GetSessions(now: Time) returns (shown: set<string>)
      modifies this`sessions
      ensures View() == Step(old(View()), Sweep(now))
      ensures shown == Shown(sessions, {})
    {
      var remaining := sessions.Keys;
      shown := {};
      ghost var before := sessions;
      SweepEnds(before, now);
      while remaining != {}
        invariant remaining <= before.Keys
        invariant sessions == PartlySwept(before, remaining, now)
        invariant shown == Shown(before, remaining)
        decreases |remaining|
      {
        var sid :| sid in remaining;
        SweepOne(before, remaining, sid, now);
        remaining := remaining - {sid};
        ExpireStale(sid, now);
        if !sessions[sid].dismissed {
          shown := shown + {sid};
        }
      }
    }

    // The daily alarm forgets finished sessions after the retention time, with their output, and nothing else.
    method OnCleanupAlarm(now: Time)
      modifies this`sessions, this`stdoutStored, this`cleanupAt
      ensures View() == Step(old(View()), Cleanup(now))
      ensures forall sid :: sid in sessions <==> sid in old(sessions) && Retained(old(sessions)[sid], now)
      ensures forall sid :: sid in sessions ==> sessions[sid] == old(sessions)[sid]
      ensures stdoutStored == old(stdoutStored) - (old(sessions).Keys - sessions.Keys)
    {
      CleanupKeepsRetained(View(), now);
      ForgetExpired(now);
    }

    method ForgetExpired(now: Time)
      modifies this`sessions, this`stdoutStored, this`cleanupAt
      ensures View() == Step(old(View()), Cleanup(now))
      ensures stdoutStored == old(stdoutStored) - (old(sessions).Keys - sessions.Keys)
    {
      var remaining := sessions.Keys;
      var toDelete: set<string> := {};
      DeleteEnds(sessions, now);
      while remaining != {}
        invariant remaining <= sessions.Keys && toDelete == ToDelete(sessions, remaining, now)
        invariant sessions == old(sessions) && stdoutStored == old(stdoutStored)
        decreases |remaining|
      {
        var sid :| sid in remaining;
        DeleteOne(sessions, remaining, sid, now);
        remaining := remaining - {sid};
        var age := now - LastUpdate(sessions[sid]);
        if age > RETENTION_MS && sessions[sid].status != Running {
          toDelete := toDelete + {sid};
        }
      }
      sessions := sessions - toDelete;
      stdoutStored := stdoutStored - toDelete;
      cleanupAt := Some(now + CLEANUP_INTERVAL_MS);
    }

    method BufferStdoutLine(sid: string, stderr: bool, text: string, now: int)
      modifies this`stdoutBuffer, this`flushTimer, this`liveTimers, this`emitted
      ensures Output(now) == Stdout.Step(old(Output(now)), Stdout.EmitOp(sid, stderr, text))
    {
      var line := Stdout.Line(now, stderr, text);
      var lines := if sid in stdoutBuffer then stdoutBuffer[sid] else [];
      stdoutBuffer := stdoutBuffer[sid := lines + [line]];
      emitted := Stdout.Append(emitted, sid, line);
      if flushTimer.None? {
        flushTimer := Some(now + Stdout.FLUSH_INTERVAL_MS);
        liveTimers := liveTimers + multiset{now + Stdout.FLUSH_INTERVAL_MS};
      }
    }

    method StoreLines(sid: string, newLines: seq<Stdout.Line>)
      modifies this`stdoutStored
      ensures stdoutStored == old(stdoutStored)[sid := Stdout.Last(Stdout.Get(old(stdoutStored), sid) + newLines)]
    {
      var existing := if sid in stdoutStored then stdoutStored[sid] else [];
      var merged := existing + newLines;
      var trimmed := if |merged| > Stdout.MAX_LINES then merged[|merged| - Stdout.MAX_LINES..] else merged;
      stdoutStored := stdoutStored[sid := trimmed];
    }

    // Forgets the timer handle, empties the buffer, then merges and trims session by session.
    method FlushStdout(now: int)
      modifies this`stdoutStored, this`stdoutBuffer, this`flushTimer
      ensures Output(now) == Stdout.Flush(old(Output(now)))
    {
      flushTimer := None;
      var entries := stdoutBuffer;
      stdoutBuffer := map[];
      var remaining := entries.Keys;
      MergeEnds(stdoutStored, entries);
      while remaining != {}
        invariant remaining <= entries.Keys && flushTimer == None && stdoutBuffer == map[]
        invariant stdoutStored == PartlyMerged(old(stdoutStored), entries, remaining)
        decreases |remaining|
      {
        var sid :| sid in remaining;
        MergeOne(old(stdoutStored), entries, remaining, sid);
        remaining := remaining - {sid};
        StoreLines(sid, entries[sid]);
      }
    }

    method OnFlushTimer(deadline: int, now: int)
      requires deadline in liveTimers
      modifies this`stdoutStored, this`stdoutBuffer, this`flushTimer, this`liveTimers
      ensures Output(now) == Stdout.Step(old(Output(now)), Stdout.TimerOp(deadline))
    {
      liveTimers := liveTimers - multiset{deadline};
      FlushStdout(now);
    }

    method ReadStdout(sid: string, now: int) returns (lines: seq<Stdout.Line>)
      modifies this`stdoutStored, this`stdoutBuffer, this`flushTimer
      ensures Output(now) == Stdout.Step(old(Output(now)), Stdout.ReadOp(sid))
      ensures lines == Stdout.Get(stdoutStored, sid)
    {
      if sid in stdoutBuffer {
        FlushStdout(now);
      }
      lines := if sid in stdoutStored then stdoutStored[sid] else [];
    }
  }
}
