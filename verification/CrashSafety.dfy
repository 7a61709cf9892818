// What a crash leaves on disk, what a restart makes of it, and where the log
// format stops being exact.
module CrashSafety {
  import opened Wrappers
  import opened Lamport
  import opened SnapshotText
  import opened Snapshot
  import NodeRuns

  // Whether a step replaces the log by a dump.
  predicate Compacts(s: Snap, t: Timed) {
    var (s1, line) := Record(s, t.op);
    || t.op.Recovery?
    || (line.Some? && var w := Write(s1, line.value, t.env.passed); w.offset > Threshold(w))
  }

  function Dumps(states: seq<Snap>, steps: seq<Timed>): seq<bool>
    requires |steps| < |states|
  {
    seq(|steps|, k requires 0 <= k < |steps| => Compacts(states[k], steps[k]))
  }

  // The moment of the last dump before moment n, or 0.
  function Base(dumps: seq<bool>, n: nat): (b: nat)
    requires n <= |dumps|
    ensures b <= n
  {
    if n == 0 then 0 else if dumps[n - 1] then n else Base(dumps, n - 1)
  }

  lemma AppendLog(s: Snap, l: string, env: Env)
    requires forall k :: k in env.order ==> k in s.alive
    ensures var w, s' := Write(s, l, env.passed), AppendLine(s, l, env);
      if w.offset > Threshold(w) then s'.disk == Log(s') else s.disk <= s'.disk && Log(s') == Log(s) + l
  {
    var w := Write(s, l, env.passed);
    WriteLog(s, l, env.passed);
    assert Dump(w, env.order) + "" == Dump(w, env.order);
  }

  // A step that does not compact extends the log by nothing or by one whole
  // line, and only adds to the disk; one that does leaves nothing in the buffer.
  lemma StepLog(s: Snap, t: Timed, s': Snap) returns (body: string, appended: bool)
    requires Follows(s, t, s')
    ensures Compacts(s, t) ==> s'.disk == Log(s')
    ensures !Compacts(s, t) ==> s.disk <= s'.disk
    ensures !Compacts(s, t) ==> '\n' !in body && Log(s') == if appended then Log(s) + (body + "\n") else Log(s)
    ensures t.op.FlushTick? || t.op.LeaveSignal? ==> s'.disk == Log(s')
  {
    body := RecordedLine(s, t.op, Live(s));
    var (s1, line) := Record(s, t.op);
    appended := line.Some?;
    if line.Some? {
      AppendLog(s1, line.value, t.env);
    } else {
      body := "";
    }
  }

  ghost predicate Extends(log: string, log': string) {
    log' == log || exists body: string :: '\n' !in body && log' == log + (body + "\n")
  }

  lemma StepLogAt(states: seq<Snap>, steps: seq<Timed>, k: nat)
    requires IsRun(states, steps) && k < |steps|
    ensures Dumps(states, steps)[k] ==> states[k + 1].disk == Log(states[k + 1])
    ensures !Dumps(states, steps)[k] ==>
              states[k].disk <= states[k + 1].disk && Extends(Log(states[k]), Log(states[k + 1]))
    ensures steps[k].op.FlushTick? || steps[k].op.LeaveSignal? ==> states[k + 1].disk == Log(states[k + 1])
  {
    assert StepAt(states, steps, k);
    var body, appended := StepLog(states[k], steps[k], states[k + 1]);
  }

  // The disk always holds at least the last dump, and at most the log.
  lemma {:induction false} DiskHoldsBase(states: seq<Snap>, steps: seq<Timed>, n: nat)
    requires IsRun(states, steps) && n <= |steps| && states[0].disk == Log(states[0])
    ensures states[n].disk <= Log(states[n])
    ensures |Log(states[Base(Dumps(states, steps), n)])| <= |states[n].disk|
  {
    if n > 0 {
      DiskHoldsBase(states, steps, n - 1);
      StepLogAt(states, steps, n - 1);
    }
  }

  // A proper prefix of a log and one more line is a prefix of the log, or the
  // log and an unterminated piece of the line.
  lemma PrefixOneStepBack(log: string, body: string, p: string)
    requires '\n' !in body && p <= log + (body + "\n") && |p| <= |log| + |body|
    ensures |p| <= |log| ==> p <= log
    ensures |p| >= |log| ==> log <= p && '\n' !in p[|log|..]
  {
    if |p| >= |log| {
      var part := p[|log|..];
      assert forall i :: 0 <= i < |part| ==> part[i] == (log + (body + "\n"))[|log| + i] == body[i];
    }
  }

  // Every prefix of the log that covers the last dump is the whole log of some
  // moment and an unterminated piece of the next line.
  lemma {:induction false} TornLog(logs: seq<string>, dumps: seq<bool>, n: nat, p: string) returns (k: nat)
    requires |logs| == |dumps| + 1 && n <= |dumps|
    requires forall i :: 0 <= i < |dumps| && !dumps[i] ==> Extends(logs[i], logs[i + 1])
    requires p <= logs[n] && |logs[Base(dumps, n)]| <= |p|
    ensures Base(dumps, n) <= k <= n
    ensures logs[k] <= p && '\n' !in p[|logs[k]|..]
    ensures forall j :: k < j <= n ==> |p| < |logs[j]|
    decreases n
  {
    if |p| == |logs[n]| {
      assert p == logs[n];
      k := n;
    } else {
      k := n - 1;
      assert Extends(logs[k], logs[k + 1]);
      if logs[n] != logs[k] {
        var body: string :| '\n' !in body && logs[n] == logs[k] + (body + "\n");
        PrefixOneStepBack(logs[k], body, p);
      }
      if |p| < |logs[k]| {
        k := TornLog(logs, dumps, n - 1, p);
      }
    }
  }

  function Logs(states: seq<Snap>): seq<string> {
    seq(|states|, i requires 0 <= i < |states| => Log(states[i]))
  }

  // Replaying any byte prefix of the log that covers the last dump gives the
  // live state at moment k: the last moment whose whole log is in the prefix.
  // Never a mixture, and never anything from before the dump.
  lemma TornWrite(states: seq<Snap>, steps: seq<Timed>, n: nat, p: string) returns (k: nat)
    requires IsRun(states, steps) && n <= |steps| && Consistent(states[0])
    requires p <= Log(states[n]) && |Log(states[Base(Dumps(states, steps), n)])| <= |p|
    ensures Base(Dumps(states, steps), n) <= k <= n
    ensures Replay(EMPTY, p) == Some(Live(states[k]))
    ensures |Log(states[k])| <= |p| && forall j :: k < j <= n ==> |p| < |Logs(states)[j]|
  {
    var dumps := Dumps(states, steps);
    forall i | 0 <= i < |dumps| && !dumps[i]
      ensures Extends(Logs(states)[i], Logs(states)[i + 1])
    {
      StepLogAt(states, steps, i);
    }
    k := TornLog(Logs(states), dumps, n, p);
    TornReplay(states, steps, k, p);
  }

  lemma TornReplay(states: seq<Snap>, steps: seq<Timed>, k: nat, p: string)
    requires IsRun(states, steps) && k <= |steps| && Consistent(states[0])
    requires Log(states[k]) <= p && '\n' !in p[|Log(states[k])|..]
    ensures Replay(EMPTY, p) == Some(Live(states[k]))
  {
    ReplayEqualsLive(states, steps, k);
    var log := Log(states[k]);
    assert p == log + p[|log|..];
    ReplayConcat(EMPTY, log, p[|log|..]);
    ReplayTorn(Live(states[k]), p[|log|..]);
  }

  // So a crash at any moment outside a compaction loses at most a suffix of the
  // operations since the last dump.
  lemma CrashLosesOnlyASuffix(states: seq<Snap>, steps: seq<Timed>, n: nat) returns (k: nat)
    requires IsRun(states, steps) && n <= |steps| && Consistent(states[0]) && states[0].disk == Log(states[0])
    ensures Base(Dumps(states, steps), n) <= k <= n
    ensures Replay(EMPTY, states[n].disk) == Some(Live(states[k]))
    ensures states[n].disk == Log(states[n]) ==> Live(states[k]) == Live(states[n])
    ensures forall j :: k < j <= n ==> |states[n].disk| < |Logs(states)[j]|
  {
    DiskHoldsBase(states, steps, n);
    k := TornWrite(states, steps, n, states[n].disk);
    ReplayEqualsLive(states, steps, n);
  }

  // --- Restart -------------------------------------------------------------------

  lemma RecordKeepsClock(s: Snap, op: Op)
    ensures Record(s, op).0.actionClock >= s.actionClock
  {
  }

  lemma {:induction false} ActionClockOnlyGrows(states: seq<Snap>, steps: seq<Timed>, j: nat, k: nat)
    requires IsRun(states, steps) && j <= k <= |steps|
    ensures states[j].actionClock <= states[k].actionClock
    decreases k
  {
    if j < k {
      ActionClockOnlyGrows(states, steps, j, k - 1);
      assert StepAt(states, steps, k - 1);
      StepLive(states[k - 1], steps[k - 1], states[k]);
      RecordKeepsClock(states[k - 1], steps[k - 1].op);
    }
  }

  // What the snapshotter knew at moment j is on disk at moment n: a later dump
  // holds it, or the log of moment j is written out completely.
  predicate Durable(states: seq<Snap>, steps: seq<Timed>, j: nat, n: nat)
    requires j <= n <= |steps| < |states|
  {
    j <= Base(Dumps(states, steps), n) || |Logs(states)[j]| <= |states[n].disk|
  }

  lemma DurableClockSurvives(states: seq<Snap>, steps: seq<Timed>, j: nat, n: nat)
    requires IsRun(states, steps) && j <= n <= |steps| && Consistent(states[0]) && states[0].disk == Log(states[0])
    requires Durable(states, steps, j, n)
    ensures var r := Replay(EMPTY, states[n].disk);
      r.Some? && r.value.actionClock >= states[j].actionClock
  {
    var k := CrashLosesOnlyASuffix(states, steps, n);
    ActionClockOnlyGrows(states, steps, j, k);
  }

  // A flush, or a leave, makes everything recorded so far durable.
  lemma FlushedIsDurable(states: seq<Snap>, steps: seq<Timed>, j: nat, n: nat)
    requires IsRun(states, steps) && j <= n + 1 <= |steps|
    requires steps[n].op.FlushTick? || steps[n].op.LeaveSignal?
    ensures Durable(states, steps, j, n + 1)
  {
    StepLogAt(states, steps, n);
    if Base(Dumps(states, steps), n + 1) < j {
      LogOnlyGrows(states, steps, j, n + 1);
    }
  }

  // What is durable stays durable.
  lemma {:induction false} DurableLasts(states: seq<Snap>, steps: seq<Timed>, j: nat, n: nat, m: nat)
    requires IsRun(states, steps) && j <= n <= m <= |steps| && Durable(states, steps, j, n)
    ensures Durable(states, steps, j, m)
    decreases m
  {
    if n < m {
      DurableLasts(states, steps, j, n, m - 1);
      StepLogAt(states, steps, m - 1);
    }
  }

  lemma {:induction false} LogOnlyGrows(states: seq<Snap>, steps: seq<Timed>, j: nat, n: nat)
    requires IsRun(states, steps) && n <= |steps| && Base(Dumps(states, steps), n) <= j <= n
    ensures |Log(states[j])| <= |Log(states[n])|
    decreases n
  {
    if j < n {
      StepLogAt(states, steps, n - 1);
      LogOnlyGrows(states, steps, j, n - 1);
    }
  }

  lemma RecordedClock(states: seq<Snap>, steps: seq<Timed>, j: nat, t: LTime)
    requires IsRun(states, steps) && j < |steps|
    requires steps[j].op == ActionSeen(t) && !states[j].leaving
    ensures states[j + 1].actionClock >= t
  {
    assert StepAt(states, steps, j);
    StepLive(states[j], steps[j], states[j + 1]);
  }

  // If the old incarnation durably recorded an action of time t, the node can
  // restart from what the crash left, and it never queues or emits an action of
  // time t or less - not from gossip, not from a merge, not its own - if and only
  // if the restored clock is not the largest time.
  lemma NoRedeliveryAfterRestart(states: seq<Snap>, steps: seq<Timed>, j: nat, n: nat, t: LTime,
                                 addr: string, bufferSize: nat)
    requires IsRun(states, steps) && j < n <= |steps| && Consistent(states[0]) && states[0].disk == Log(states[0])
    requires steps[j].op == ActionSeen(t) && !states[j].leaving
    requires Durable(states, steps, j + 1, n) && bufferSize > 0
    ensures Replay(EMPTY, states[n].disk).Some?
    ensures var last := Replay(EMPTY, states[n].disk).value.actionClock;
      NodeRuns.NeverAtOrBelow(addr, bufferSize, last, t) <==> last < MAX_LTIME
  {
    RecordedClock(states, steps, j, t);
    DurableClockSurvives(states, steps, j + 1, n);
    NodeRuns.NothingBelowSnapshotClock(addr, bufferSize, Replay(EMPTY, states[n].disk).value.actionClock, t);
  }

  // In particular an action recorded before some flush is not redelivered after
  // any later crash.
  lemma FlushedIsNotRedelivered(states: seq<Snap>, steps: seq<Timed>, j: nat, f: nat, n: nat, t: LTime,
                                addr: string, bufferSize: nat)
    requires IsRun(states, steps) && j < f < n <= |steps| && Consistent(states[0]) && states[0].disk == Log(states[0])
    requires steps[j].op == ActionSeen(t) && !states[j].leaving
    requires (steps[f].op.FlushTick? || steps[f].op.LeaveSignal?) && bufferSize > 0
    ensures var r := Replay(EMPTY, states[n].disk);
      r.Some? && (NodeRuns.NeverAtOrBelow(addr, bufferSize, r.value.actionClock, t) <==> r.value.actionClock < MAX_LTIME)
  {
    FlushedIsDurable(states, steps, j + 1, f);
    DurableLasts(states, steps, j + 1, f + 1, n);
    NoRedeliveryAfterRestart(states, steps, j, n, t, addr, bufferSize);
  }

  // --- Where the format is exact -----------------------------------------------

  // A join is replayed as recorded if and only if the name has no newline and
  // the address neither newline nor space.
  lemma JoinReplaysIff(s: Snap, id: string, addr: string)
    requires Consistent(s)
    ensures Replay(EMPTY, Log(s) + AliveLine(id, addr) + "\n") == Some(Live(s).(alive := s.alive[id := addr]))
            <==> Clean(Join(id, addr))
  {
    var live := Live(s).(alive := s.alive[id := addr]);
    var log := Log(s) + AliveLine(id, addr) + "\n";
    if Clean(Join(id, addr)) {
      AddAliveLine(Log(s), Live(s), id, addr);
    }
    if Replay(EMPTY, log) == Some(live) {
      ReplayedNamesAreClean(EMPTY, log);
      assert id in live.alive && live.alive[id] == addr;
    }
  }

  lemma {:induction false} LetterIsNoNumber(s: string, k: nat, acc: LTime)
    requires k < |s| && !IsDigit(s[k])
    ensures !ParseDigits(s, acc).1
    decreases |s|
  {
    if k > 0 && IsDigit(s[0]) && acc * 10 + DigitValue(s[0]) <= MAX_LTIME {
      LetterIsNoNumber(s[1..], k - 1, acc * 10 + DigitValue(s[0]));
    }
  }

  // A line read together with a torn tail before it never sets the action clock,
  // whatever it records.
  lemma TornTailIsNoClock(st: Recovered, tail: string, body: string)
    requires tail != "" && StartsLine(body)
    ensures HandleLine(st, tail + body).Some? ==> HandleLine(st, tail + body).value.actionClock == st.actionClock
  {
    var l := tail + body;
    assert !IsDigit(body[0]) && l[|tail|] == body[0] && l[|tail| + 1] == body[1];
    if ACTION_CLOCK <= l && |tail| >= |ACTION_CLOCK| {
      var info := l[|ACTION_CLOCK|..];
      assert info[|tail| - |ACTION_CLOCK|] == body[0];
      LetterIsNoNumber(info, |tail| - |ACTION_CLOCK|, 0);
    } else if |tail| < |ACTION_CLOCK| {
      NoOtherStart(tail, body);
    }
  }

  // No line continues a broken action clock line.
  lemma NoOtherStart(tail: string, body: string)
    requires 0 < |tail| < |ACTION_CLOCK| && StartsLine(body)
    ensures !(ACTION_CLOCK <= tail + body)
  {
    var l, k := tail + body, |tail|;
    assert l[k] == body[0] && l[k + 1] == body[1];
    assert ACTION_CLOCK[k] == body[0] ==> k == 5 || k == 8 || k == 7 || k == 11;
  }

  // Reopening a log does not trim a torn tail, so the first action recorded
  // after it is read back if and only if the log ended in a newline.
  lemma NextRecordSurvivesIff(log: string, t: LTime)
    requires Replay(EMPTY, log).Some? && Replay(EMPTY, log).value.actionClock != t
    ensures var r := Replay(EMPTY, log + ActionLine(t) + "\n");
      (r.Some? && r.value.actionClock == t) <==> Terminated(log)
  {
    var st, tail := Replay(EMPTY, log).value, Tail(log);
    LinesHaveNoNewline("", "", t);
    TailIsOneLine(log);
    ReplayGlued(EMPTY, log, ActionLine(t));
    if tail == "" {
      assert tail + ActionLine(t) == ActionLine(t);
      HandleActionLine(st, t);
    } else {
      TornTailIsNoClock(st, tail, ActionLine(t));
    }
  }
}
