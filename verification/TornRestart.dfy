// An incarnation that opens the torn log a crash left: what it spoils, what
// repairs it, and what a second crash can still lose.
module TornRestart {
  import opened Wrappers
  import opened Lamport
  import opened SnapshotText
  import opened Snapshot
  import opened CrashSafety

  // The run begins by opening this log, whatever its end.
  ghost predicate Opens(states: seq<Snap>, steps: seq<Timed>, log: string) {
    && IsRun(states, steps)
    && Open(log, states[0].minCompactSize) == Some(states[0])
  }

  lemma OpenedLog(states: seq<Snap>, steps: seq<Timed>, log: string)
    requires Opens(states, steps, log)
    ensures Log(states[0]) == log == states[0].disk && Replay(EMPTY, log) == Some(Live(states[0]))
    ensures CleanNames(states[0].alive)
  {
    assert log + "" == log;
    ReplayedNamesAreClean(EMPTY, log);
  }

  // --- The first dump repairs the log ------------------------------------------

  lemma DumpIsConsistent(s: Snap, t: Timed, s': Snap)
    requires Follows(s, t, s') && Compacts(s, t) && CleanNames(s.alive)
    ensures Consistent(s')
  {
    var (s1, line) := Record(s, t.op);
    RecordKeepsClean(s, t.op);
    if line.Some? {
      var w := Write(s1, line.value, t.env.passed);
      CompactIsConsistent(w, t.env.order);
      if t.op.LeaveSignal? {
        FlushKeepsLog(Compact(w, t.env.order));
      }
    } else {
      CompactIsConsistent(s1, t.env.order);
    }
  }

  // From the first dump on, the log replays to the live state again, whatever
  // log the run began with.
  lemma {:induction false} DumpRepairs(states: seq<Snap>, steps: seq<Timed>, log: string, n: nat)
    requires Opens(states, steps, log) && n <= |steps| && Base(Dumps(states, steps), n) > 0
    ensures Consistent(states[n])
  {
    var s, t := states[n - 1], steps[n - 1];
    assert StepAt(states, steps, n - 1);
    if Dumps(states, steps)[n - 1] {
      OpenedLog(states, steps, log);
      NamesStayClean(states, steps, n - 1);
      DumpIsConsistent(s, t, states[n]);
    } else {
      DumpRepairs(states, steps, log, n - 1);
      StepIsConsistent(s, t.op, t.env);
    }
  }

  // --- Before it -----------------------------------------------------------------

  predicate Appends(s: Snap, op: Op) {
    Record(s, op).1.Some?
  }

  // The first step before moment n that appends a line, or n.
  function FirstAppend(states: seq<Snap>, steps: seq<Timed>, n: nat): (f: nat)
    requires n <= |steps| < |states|
    ensures f <= n && forall k :: 0 <= k < f ==> !Appends(states[k], steps[k].op)
    ensures f < n ==> Appends(states[f], steps[f].op)
  {
    if n == 0 then 0
    else
      var f := FirstAppend(states, steps, n - 1);
      if f == n - 1 && !Appends(states[f], steps[f].op) then n else f
  }

  // What the first line becomes behind the tail of the log.
  function Glued(log: string, s: Snap, op: Op): string
    requires Appends(s, op)
  {
    var line := Record(s, op).1.value;
    Tail(log) + if line == "" then "" else line[..|line| - 1]
  }

  lemma GluedIs(log: string, s: Snap, op: Op, body: string)
    requires Appends(s, op) && Record(s, op).1.value == body + "\n"
    ensures Glued(log, s, op) == Tail(log) + body
  {
    assert (body + "\n")[..|body|] == body;
  }

  // What a log with a spoiled first line gives: nothing at all, or the action
  // clock as it is now, except that what it was after that first line does not
  // count.
  predicate Spoiled(start: LTime, first: LTime, now: LTime, panics: bool, log: string) {
    && Terminated(log)
    && (Replay(EMPTY, log).None? <==> panics)
    && (Replay(EMPTY, log).Some? ==> Replay(EMPTY, log).value.actionClock == (if now == first then start else now))
  }

  lemma FirstLineIsSpoiled(log: string, body: string, first: LTime)
    requires Replay(EMPTY, log).Some? && !Terminated(log) && '\n' !in body && StartsLine(body)
    ensures Spoiled(Replay(EMPTY, log).value.actionClock, first, first, Unreadable(Tail(log) + body), log + body + "\n")
  {
    var st := Replay(EMPTY, log).value;
    TailIsOneLine(log);
    ReplayGlued(EMPTY, log, body);
    HandleLinePanicsIff(st, Tail(log) + body);
    TornTailIsNoClock(st, Tail(log), body);
  }

  lemma LaterLineCounts(start: LTime, first: LTime, now: LTime, now': LTime, panics: bool, log: string, body: string)
    requires Spoiled(start, first, now, panics, log) && '\n' !in body && first <= now <= now'
    requires var r := Replay(EMPTY, log); r.Some? ==>
      && HandleLine(r.value, body).Some?
      && HandleLine(r.value, body).value.actionClock == (if now' == now then r.value.actionClock else now')
    ensures Spoiled(start, first, now', panics, log + body + "\n")
  {
    assert log + body + "\n" == log + (body + "\n");
    ReplayConcat(EMPTY, log, body + "\n");
    if Replay(EMPTY, log).Some? {
      ReplayAppend(EMPTY, log, body);
    }
  }

  // What the log of moment n is, before any dump.
  ghost predicate Behind(states: seq<Snap>, steps: seq<Timed>, log: string, n: nat)
    requires n <= |steps| < |states|
  {
    var f := FirstAppend(states, steps, n);
    if f == n then Log(states[n]) == log && states[n].actionClock == states[0].actionClock
    else Spoiled(states[0].actionClock, states[f + 1].actionClock, states[n].actionClock,
                 Unreadable(Glued(log, states[f], steps[f].op)), Log(states[n]))
  }

  // A step without a dump: the line it appends, and what it does to the clocks.
  lemma PlainStep(states: seq<Snap>, steps: seq<Timed>, k: nat, st: Recovered) returns (body: string)
    requires IsRun(states, steps) && k < |steps| && !Dumps(states, steps)[k]
    ensures states[k].actionClock <= states[k + 1].actionClock
    ensures !Appends(states[k], steps[k].op) ==>
              Log(states[k + 1]) == Log(states[k]) && states[k + 1].actionClock == states[k].actionClock
    ensures Appends(states[k], steps[k].op) ==>
              && Record(states[k], steps[k].op).1.value == body + "\n" && '\n' !in body && StartsLine(body)
              && Log(states[k + 1]) == Log(states[k]) + body + "\n"
              && HandleLine(st, body).Some?
              && HandleLine(st, body).value.actionClock ==
                   (if states[k + 1].actionClock == states[k].actionClock then st.actionClock else states[k + 1].actionClock)
  {
    var s, t, s' := states[k], steps[k], states[k + 1];
    assert StepAt(states, steps, k);
    body := RecordedLine(s, t.op, st);
    StepLive(s, t, s');
    var b, appended := StepLog(s, t, s');
    var (s1, line) := Record(s, t.op);
    if line.Some? {
      AppendLog(s1, line.value, t.env);
      assert Log(s) + (body + "\n") == Log(s) + body + "\n";
    }
  }

  lemma FirstStepIsSpoiled(states: seq<Snap>, steps: seq<Timed>, log: string, k: nat)
    requires IsRun(states, steps) && k < |steps| && !Dumps(states, steps)[k] && Appends(states[k], steps[k].op)
    requires Log(states[k]) == log && !Terminated(log) && Replay(EMPTY, log) == Some(Live(states[0]))
    ensures Spoiled(states[0].actionClock, states[k + 1].actionClock, states[k + 1].actionClock,
                    Unreadable(Glued(log, states[k], steps[k].op)), Log(states[k + 1]))
  {
    var body := PlainStep(states, steps, k, EMPTY);
    GluedIs(log, states[k], steps[k].op, body);
    FirstLineIsSpoiled(log, body, states[k + 1].actionClock);
  }

  lemma LaterStepCounts(states: seq<Snap>, steps: seq<Timed>, k: nat, start: LTime, first: LTime, panics: bool)
    requires IsRun(states, steps) && k < |steps| && !Dumps(states, steps)[k]
    requires Spoiled(start, first, states[k].actionClock, panics, Log(states[k])) && first <= states[k].actionClock
    ensures Spoiled(start, first, states[k + 1].actionClock, panics, Log(states[k + 1]))
  {
    var r := Replay(EMPTY, Log(states[k]));
    var body := PlainStep(states, steps, k, if r.Some? then r.value else EMPTY);
    if Appends(states[k], steps[k].op) {
      LaterLineCounts(start, first, states[k].actionClock, states[k + 1].actionClock, panics, Log(states[k]), body);
    }
  }

  lemma IdleStep(states: seq<Snap>, steps: seq<Timed>, k: nat)
    requires IsRun(states, steps) && k < |steps| && !Dumps(states, steps)[k] && !Appends(states[k], steps[k].op)
    ensures Log(states[k + 1]) == Log(states[k]) && states[k + 1].actionClock == states[k].actionClock
  {
    var body := PlainStep(states, steps, k, EMPTY);
  }

  lemma BehindNext(states: seq<Snap>, steps: seq<Timed>, log: string, k: nat)
    requires Opens(states, steps, log) && k < |steps| && !Terminated(log) && !Dumps(states, steps)[k]
    requires Behind(states, steps, log, k)
    ensures Behind(states, steps, log, k + 1)
  {
    var f := FirstAppend(states, steps, k + 1);
    if f == k + 1 {
      IdleStep(states, steps, k);
    } else if f == k {
      OpenedLog(states, steps, log);
      FirstStepIsSpoiled(states, steps, log, k);
    } else {
      ActionClockOnlyGrows(states, steps, f + 1, k);
      LaterStepCounts(states, steps, k, states[0].actionClock, states[f + 1].actionClock,
                      Unreadable(Glued(log, states[f], steps[f].op)));
    }
  }

  lemma {:induction false} ReplayBehindTear(states: seq<Snap>, steps: seq<Timed>, log: string, n: nat)
    requires Opens(states, steps, log) && n <= |steps| && !Terminated(log) && Base(Dumps(states, steps), n) == 0
    ensures Behind(states, steps, log, n)
  {
    if n == 0 {
      OpenedLog(states, steps, log);
    } else {
      ReplayBehindTear(states, steps, log, n - 1);
      BehindNext(states, steps, log, n - 1);
    }
  }

  // --- The second crash ----------------------------------------------------------

  // Moment k is the last one whose whole log is on disk at moment n.
  ghost predicate OnDisk(states: seq<Snap>, n: nat, k: nat)
    requires k <= n < |states|
  {
    |Log(states[k])| <= |states[n].disk| && forall j :: k < j <= n ==> |states[n].disk| < |Logs(states)[j]|
  }

  lemma DiskIsMoment(states: seq<Snap>, steps: seq<Timed>, log: string, n: nat) returns (k: nat)
    requires Opens(states, steps, log) && n <= |steps|
    ensures Base(Dumps(states, steps), n) <= k <= n && OnDisk(states, n, k)
    ensures Replay(EMPTY, states[n].disk) == Replay(EMPTY, Log(states[k]))
  {
    OpenedLog(states, steps, log);
    DiskHoldsBase(states, steps, n);
    var dumps, p := Dumps(states, steps), states[n].disk;
    forall i | 0 <= i < |dumps| && !dumps[i]
      ensures Extends(Logs(states)[i], Logs(states)[i + 1])
    {
      StepLogAt(states, steps, i);
    }
    k := TornLog(Logs(states), dumps, n, p);
    var whole := Log(states[k]);
    assert p == whole + p[|whole|..];
    ReplayStaysTorn(EMPTY, whole, p[|whole|..]);
  }

  lemma {:induction false} BaseOfLater(dumps: seq<bool>, n: nat, k: nat)
    requires n <= |dumps| && Base(dumps, n) <= k <= n
    ensures Base(dumps, k) == Base(dumps, n)
  {
    if k < n {
      BaseOfLater(dumps, n - 1, k);
    }
  }

  lemma {:induction false} FirstAppendStays(states: seq<Snap>, steps: seq<Timed>, j: nat, k: nat, n: nat)
    requires j < k <= n <= |steps| < |states| && Appends(states[j], steps[j].op)
    ensures FirstAppend(states, steps, k) == FirstAppend(states, steps, n) <= j
  {
    if k < n {
      FirstAppendStays(states, steps, j, k, n - 1);
    }
  }

  // A dump came in between, or the first line written did not make the log
  // unreadable and was not itself the record of t, with no later one on disk.
  ghost predicate Survives(states: seq<Snap>, steps: seq<Timed>, log: string, j: nat, n: nat, k: nat, t: LTime)
    requires j < n <= |steps| < |states| && k <= n
  {
    var f := FirstAppend(states, steps, n);
    || Base(Dumps(states, steps), n) > 0
    || (f <= j && !Unreadable(Glued(log, states[f], steps[f].op)) && (f < j || states[k].actionClock > t))
  }

  ghost predicate Recalls(log: string, t: LTime) {
    Replay(EMPTY, log).Some? && Replay(EMPTY, log).value.actionClock >= t
  }

  // A time that an incarnation recorded durably, having opened a torn log, is
  // recalled after its crash if and only if it survives.
  lemma SurvivesSecondCrashIff(states: seq<Snap>, steps: seq<Timed>, log: string, j: nat, n: nat, t: LTime) returns (k: nat)
    requires Opens(states, steps, log) && !Terminated(log) && j < n <= |steps|
    requires steps[j].op == ActionSeen(t) && !states[j].leaving && t > states[j].actionClock
    requires Durable(states, steps, j + 1, n)
    ensures k <= n && OnDisk(states, n, k)
    ensures Recalls(states[n].disk, t) <==> Survives(states, steps, log, j, n, k, t)
  {
    var dumps := Dumps(states, steps);
    k := DiskIsMoment(states, steps, log, n);
    assert j + 1 <= k;
    BaseOfLater(dumps, n, k);
    if Base(dumps, n) > 0 {
      DumpRecalls(states, steps, log, j, k, t);
    } else {
      ReplayBehindTear(states, steps, log, k);
      FirstAppendStays(states, steps, j, k, n);
      RecallsBehindTear(states, steps, log, j, k, t);
    }
  }

  lemma DumpRecalls(states: seq<Snap>, steps: seq<Timed>, log: string, j: nat, k: nat, t: LTime)
    requires Opens(states, steps, log) && j < k <= |steps| && Base(Dumps(states, steps), k) > 0
    requires steps[j].op == ActionSeen(t) && !states[j].leaving && t > states[j].actionClock
    ensures Recalls(Log(states[k]), t)
  {
    DumpRepairs(states, steps, log, k);
    RecordedExactly(states, steps, j, t);
    ActionClockOnlyGrows(states, steps, j + 1, k);
  }

  lemma SpoiledRecalls(start: LTime, first: LTime, now: LTime, panics: bool, log: string, t: LTime)
    requires Spoiled(start, first, now, panics, log) && start < t <= now
    ensures Recalls(log, t) <==> !panics && now != first
  {
  }

  lemma RecallsBehindTear(states: seq<Snap>, steps: seq<Timed>, log: string, j: nat, k: nat, t: LTime)
    requires IsRun(states, steps) && j < k <= |steps| && Behind(states, steps, log, k)
    requires steps[j].op == ActionSeen(t) && !states[j].leaving && t > states[j].actionClock
    requires FirstAppend(states, steps, k) <= j
    ensures var f := FirstAppend(states, steps, k);
      Recalls(Log(states[k]), t) <==>
        !Unreadable(Glued(log, states[f], steps[f].op)) && (f < j || states[k].actionClock > t)
  {
    var f := FirstAppend(states, steps, k);
    var panics := Unreadable(Glued(log, states[f], steps[f].op));
    ClocksAroundRecord(states, steps, f, j, k, t);
    SpoiledRecalls(states[0].actionClock, states[f + 1].actionClock, states[k].actionClock, panics, Log(states[k]), t);
  }

  lemma ClocksAroundRecord(states: seq<Snap>, steps: seq<Timed>, f: nat, j: nat, k: nat, t: LTime)
    requires IsRun(states, steps) && f <= j < k <= |steps|
    requires steps[j].op == ActionSeen(t) && !states[j].leaving && t > states[j].actionClock
    ensures states[0].actionClock < t <= states[k].actionClock
    ensures states[k].actionClock == states[f + 1].actionClock <==> f == j && states[k].actionClock <= t
  {
    RecordedExactly(states, steps, j, t);
    ActionClockOnlyGrows(states, steps, 0, j);
    ActionClockOnlyGrows(states, steps, j + 1, k);
    if f < j {
      ActionClockOnlyGrows(states, steps, f + 1, j);
    }
  }

  lemma RecordedExactly(states: seq<Snap>, steps: seq<Timed>, j: nat, t: LTime)
    requires IsRun(states, steps) && j < |steps|
    requires steps[j].op == ActionSeen(t) && !states[j].leaving && t > states[j].actionClock
    ensures states[j + 1].actionClock == t
  {
    assert StepAt(states, steps, j);
    StepLive(states[j], steps[j], states[j + 1]);
  }

  // Which decides what a node restarted after that crash does: it can start, and
  // never takes an action of time t or less again, if and only if the time
  // survived and the restored clock is not the largest time.
  lemma NoRedeliveryAfterSecondCrashIff(states: seq<Snap>, steps: seq<Timed>, log: string, j: nat, n: nat, t: LTime,
                                        addr: string, bufferSize: nat) returns (k: nat)
    requires Opens(states, steps, log) && !Terminated(log) && j < n <= |steps|
    requires steps[j].op == ActionSeen(t) && !states[j].leaving && t > states[j].actionClock
    requires Durable(states, steps, j + 1, n) && bufferSize > 0
    ensures k <= n && OnDisk(states, n, k)
    ensures var r := Replay(EMPTY, states[n].disk);
      (r.Some? && NodeRuns.NeverAtOrBelow(addr, bufferSize, r.value.actionClock, t)) <==>
      (Survives(states, steps, log, j, n, k, t) && r.Some? && r.value.actionClock < MAX_LTIME)
  {
    k := SurvivesSecondCrashIff(states, steps, log, j, n, t);
    var r := Replay(EMPTY, states[n].disk);
    if r.Some? {
      NodeRuns.NothingBelowSnapshotClock(addr, bufferSize, r.value.actionClock, t);
    }
  }

  // --- A log that can no longer be read -------------------------------------------

  // The default minimum size for a compaction.
  const DEFAULT_MIN_COMPACT_SIZE := 131072

  // A node joins, and the crash leaves nine bytes of its line.
  function TornJoin(): Snap {
    Write(Snap(map["ab" := "10.0.0.1:7946"], 0, 0, false, "", "", 0, DEFAULT_MIN_COMPACT_SIZE),
          AliveLine("ab", "10.0.0.1:7946") + "\n", 9)
  }

  lemma TornJoinHappens()
    ensures var s0 := Open("", DEFAULT_MIN_COMPACT_SIZE);
      && s0.Some?
      && EnvOk(s0.value, Join("ab", "10.0.0.1:7946"), Env(9, ["ab"]))
      && Step(s0.value, Join("ab", "10.0.0.1:7946"), Env(9, ["ab"])) == TornJoin()
    ensures TornJoin().disk == "alive: ab"
  {
    var line := AliveLine("ab", "10.0.0.1:7946") + "\n";
    assert line[..9] == "alive: ab";
  }

  // What the next incarnation has of that log, and what a leave makes of it.
  function ReopenedTornJoin(): Snap {
    Snap(map[], 0, 0, false, "alive: ab", "", 9, DEFAULT_MIN_COMPACT_SIZE)
  }

  lemma LeaveIsGlued()
    ensures EnvOk(ReopenedTornJoin(), LeaveSignal, Env(0, []))
    ensures Step(ReopenedTornJoin(), LeaveSignal, Env(0, [])).disk == "alive: ableave\n"
  {
    var s1 := ReopenedTornJoin().(leaving := true);
    var w := Write(s1, LEAVE + "\n", 0);
    assert s1.alive.Keys == {};
    assert w.disk == "alive: ab" && w.buffer == "leave\n" && w.offset == 15;
    assert AppendLine(s1, LEAVE + "\n", Env(0, [])) == w;
  }

  // The next incarnation opens that log, leaves, and no later one can start.
  lemma LeaveBehindTornJoin()
    ensures Open(TornJoin().disk, DEFAULT_MIN_COMPACT_SIZE) == Some(ReopenedTornJoin())
    ensures EnvOk(ReopenedTornJoin(), LeaveSignal, Env(0, []))
    ensures Open(Step(ReopenedTornJoin(), LeaveSignal, Env(0, [])).disk, DEFAULT_MIN_COMPACT_SIZE).None?
  {
    TornJoinHappens();
    LeaveIsGlued();
    ReplayTorn(EMPTY, "alive: ab");
    GluedLeavePanics();
  }

  lemma GluedLeavePanics()
    ensures Replay(EMPTY, "alive: ableave\n").None?
  {
    var line := "alive: ableave";
    var log := line + "\n";
    assert log == "alive: ableave\n";
    assert line[|ALIVE|..] == "ableave" && log[0..|line|] == line;
    assert IsLine(log, 0, |line|) && Unreadable(log[0..|line|]);
    ReplayPanicsIff(EMPTY, log);
  }
}
