// The snapshotter as a state machine: recording, buffered appending, flushing
// and compaction, and the theorem that the log always rebuilds the live state.
module Snapshot {
  import opened Wrappers
  import opened Lamport
  import opened SnapshotText

  const BYTES_PER_NODE := 128
  const COMPACTION_FACTOR := 2
  const EMPTY := Recovered(map[], 0, 0)

  // `disk` is what the log file holds, `buffer` what the buffered writer still
  // keeps back.
  datatype Snap = Snap(
    alive: map<string, string>,
    actionClock: LTime,
    queryClock: LTime,
    leaving: bool,
    disk: string,
    buffer: string,
    offset: nat,
    minCompactSize: int)

  // The choices that are not the snapshotter's: how many pending bytes a write
  // makes the buffered writer pass on, and the map iteration order of a dump.
  datatype Env = Env(passed: nat, order: seq<string>)

  datatype Op =
    | Join(id: string, addr: string)
    | JoinNoMember
    | Gone(id: string)
    | OtherMember
    | ActionSeen(t: LTime)
    | QuerySeen(t: LTime)
    | LeaveSignal
    | FlushTick
    | Recovery

  function Log(s: Snap): string { s.disk + s.buffer }

  function Live(s: Snap): Recovered { Recovered(s.alive, s.actionClock, s.queryClock) }

  ghost predicate IsOrder(order: seq<string>, keys: set<string>) {
    (forall i, j :: 0 <= i < j < |order| ==> order[i] != order[j]) && forall k :: k in order <==> k in keys
  }

  // --- Steps -------------------------------------------------------------------

  function Threshold(s: Snap): int {
    var threshold := |s.alive| * BYTES_PER_NODE * COMPACTION_FACTOR;
    if threshold < s.minCompactSize then s.minCompactSize else threshold
  }

  function DumpAlive(alive: map<string, string>, order: seq<string>): string
    requires forall k :: k in order ==> k in alive
  {
    if order == [] then ""
    else
      var id := order[|order| - 1];
      DumpAlive(alive, order[..|order| - 1]) + AliveLine(id, alive[id]) + "\n"
  }

  function Dump(s: Snap, order: seq<string>): string
    requires forall k :: k in order ==> k in s.alive
  {
    DumpAlive(s.alive, order) + ActionLine(s.actionClock) + "\n" + QueryLine(s.queryClock) + "\n" +
    if s.leaving then LEAVE + "\n" else ""
  }

  function Compact(s: Snap, order: seq<string>): Snap
    requires forall k :: k in order ==> k in s.alive
  {
    s.(disk := Dump(s, order), buffer := "", offset := |Dump(s, order)|)
  }

  function Flush(s: Snap): Snap {
    s.(disk := Log(s), buffer := "")
  }

  function Write(s: Snap, l: string, passed: nat): Snap {
    var pending := s.buffer + l;
    var k := if passed < |pending| then passed else |pending|;
    s.(disk := s.disk + pending[..k], buffer := pending[k..], offset := s.offset + |l|)
  }

  function AppendLine(s: Snap, l: string, env: Env): Snap
    requires forall k :: k in env.order ==> k in s.alive
  {
    var w := Write(s, l, env.passed);
    if w.offset > Threshold(w) then Compact(w, env.order) else w
  }

  // How an operation changes the live state, and the line it appends.
  function Record(s: Snap, op: Op): (Snap, Option<string>) {
    match op
    case LeaveSignal => (s.(leaving := true), Some(LEAVE + "\n"))
    case FlushTick => (s, None)
    case Recovery => (s, None)
    case _ =>
      if s.leaving then (s, None)
      else match op {
        case Join(id, addr) => (s.(alive := s.alive[id := addr]), Some(AliveLine(id, addr) + "\n"))
        case Gone(id) => (s.(alive := s.alive - {id}), Some(NotAliveLine(id) + "\n"))
        case ActionSeen(t) =>
          if t <= s.actionClock then (s, None) else (s.(actionClock := t), Some(ActionLine(t) + "\n"))
        case QuerySeen(t) =>
          if t <= s.queryClock then (s, None) else (s.(queryClock := t), Some(QueryLine(t) + "\n"))
        case _ => (s, None)
      }
  }

  ghost predicate EnvOk(s: Snap, op: Op, env: Env) {
    IsOrder(env.order, Record(s, op).0.alive.Keys)
  }

  ghost function Step(s: Snap, op: Op, env: Env): Snap
    requires EnvOk(s, op, env)
  {
    var (s1, line) := Record(s, op);
    match op
    case FlushTick => Flush(s1)
    case Recovery => Compact(s1, env.order)
    case LeaveSignal => Flush(AppendLine(s1, line.value, env))
    case _ => if line.None? then s1 else AppendLine(s1, line.value, env)
  }

  // What NewSnapshotter sets up from the log it finds; None if replaying it
  // panics.
  function Open(log: string, minCompactSize: int): Option<Snap> {
    match Replay(EMPTY, log)
    case None => None
    case Some(r) => Some(Snap(r.alive, r.actionClock, r.queryClock, false, log, "", |log|, minCompactSize))
  }

  // --- Replay equals live state --------------------------------------------------

  // IDs without newlines, and addresses without newlines and spaces, which is
  // how the source prints them.
  predicate Clean(op: Op) {
    match op
    case Join(id, addr) => '\n' !in id && '\n' !in addr && ' ' !in addr
    case Gone(id) => '\n' !in id
    case _ => true
  }

  predicate CleanNames(alive: map<string, string>) {
    forall id :: id in alive ==> '\n' !in id && '\n' !in alive[id] && ' ' !in alive[id]
  }

  ghost predicate Consistent(s: Snap) {
    && Terminated(Log(s))
    && Replay(EMPTY, Log(s)) == Some(Live(s))
    && s.offset == |Log(s)|
  }

  lemma LastIndexIsLast(s: string, c: char)
    ensures LastIndex(s, c).Some? ==> c !in s[LastIndex(s, c).value + 1..]
  {
    if s != "" && s[|s| - 1] != c {
      LastIndexIsLast(s[..|s| - 1], c);
      match LastIndex(s[..|s| - 1], c)
      case None =>
      case Some(i) => assert s[i + 1..] == s[..|s| - 1][i + 1..] + [s[|s| - 1]];
    }
  }

  lemma LineKeepsNamesClean(st: Recovered, l: string)
    requires CleanNames(st.alive) && '\n' !in l
    ensures HandleLine(st, l).Some? ==> CleanNames(HandleLine(st, l).value.alive)
  {
    var prefix := FirstPrefix(l, PREFIXES);
    var info := l[|prefix|..];
    LastIndexIsLast(info, ' ');
    assert '\n' !in info;
  }

  // Whatever a replay finds, the names and addresses it rebuilds are clean.
  lemma {:induction false} ReplayedNamesAreClean(st: Recovered, log: string)
    requires CleanNames(st.alive)
    ensures Replay(st, log).Some? ==> CleanNames(Replay(st, log).value.alive)
    decreases |log|
  {
    match IndexOf(log, '\n')
    case None =>
    case Some(i) =>
      LineKeepsNamesClean(st, log[..i]);
      if HandleLine(st, log[..i]).Some? {
        ReplayedNamesAreClean(HandleLine(st, log[..i]).value, log[i + 1..]);
      }
  }

  lemma LinesHaveNoNewline(id: string, addr: string, t: LTime)
    ensures '\n' !in id && '\n' !in addr ==> '\n' !in AliveLine(id, addr)
    ensures '\n' !in id ==> '\n' !in NotAliveLine(id)
    ensures '\n' !in ActionLine(t) && '\n' !in QueryLine(t) && '\n' !in LEAVE
  {
    DecimalRoundTrip(t);
  }

  // What an operation means for a recovered state.
  function Effect(st: Recovered, op: Op): Recovered {
    match op
    case Join(id, addr) => st.(alive := st.alive[id := addr])
    case Gone(id) => st.(alive := st.alive - {id})
    case ActionSeen(t) => st.(actionClock := t)
    case QuerySeen(t) => st.(queryClock := t)
    case _ => st
  }

  // Each recorded line begins with the word for what it records.
  predicate StartsLine(body: string) {
    ALIVE <= body || NOT_ALIVE <= body || ACTION_CLOCK <= body || QUERY_CLOCK <= body || LEAVE <= body
  }

  // The line an operation appends, read in any state, has exactly the effect the
  // operation has on the live state.
  lemma RecordedLine(s: Snap, op: Op, st: Recovered) returns (body: string)
    requires Clean(op)
    ensures var (s1, line) := Record(s, op);
      && Log(s1) == Log(s) && s1.offset == s.offset && s1.disk == s.disk
      && (line.None? ==> Live(s1) == Live(s))
      && (line.Some? ==> line.value == body + "\n" && '\n' !in body && StartsLine(body))
      && (line.Some? ==> Live(s1) == Effect(Live(s), op) && HandleLine(st, body) == Some(Effect(st, op)))
  {
    body := "";
    if op.LeaveSignal? {
      body := LEAVE;
      LinesHaveNoNewline("", "", 0);
      HandleLeaveLine(st);
    } else if !s.leaving {
      match op
      case Join(id, addr) =>
        body := AliveLine(id, addr);
        LinesHaveNoNewline(id, addr, 0);
        HandleAliveLine(st, id, addr);
      case Gone(id) =>
        body := NotAliveLine(id);
        LinesHaveNoNewline(id, "", 0);
        HandleNotAliveLine(st, id);
      case ActionSeen(t) =>
        body := ActionLine(t);
        LinesHaveNoNewline("", "", t);
        HandleActionLine(st, t);
      case QuerySeen(t) =>
        body := QueryLine(t);
        LinesHaveNoNewline("", "", t);
        HandleQueryLine(st, t);
      case _ =>
    }
  }

  // A clock is recorded exactly if that changes the live state, to the time seen;
  // member events that name no joined node, ticks and recoveries record nothing.
  lemma RecordsOnlyNews(s: Snap, t: LTime)
    ensures var (s', line) := Record(s, ActionSeen(t));
      && (line.Some? <==> !s.leaving && t > s.actionClock)
      && Live(s') == if line.Some? then Recovered(s.alive, t, s.queryClock) else Live(s)
    ensures var (s', line) := Record(s, QuerySeen(t));
      && (line.Some? <==> !s.leaving && t > s.queryClock)
      && Live(s') == if line.Some? then Recovered(s.alive, s.actionClock, t) else Live(s)
    ensures forall op :: op == JoinNoMember || op == OtherMember || op == FlushTick || op == Recovery ==> Record(s, op) == (s, None)
  {
  }

  function Restrict(alive: map<string, string>, order: seq<string>): map<string, string>
    requires forall k :: k in order ==> k in alive
  {
    map k | k in order :: alive[k]
  }

  lemma AddAliveLine(log: string, st: Recovered, id: string, addr: string)
    requires Terminated(log) && Replay(EMPTY, log) == Some(st)
    requires '\n' !in id && '\n' !in addr && ' ' !in addr
    ensures Terminated(log + AliveLine(id, addr) + "\n")
    ensures Replay(EMPTY, log + AliveLine(id, addr) + "\n") == Some(st.(alive := st.alive[id := addr]))
  {
    LinesHaveNoNewline(id, addr, 0);
    ReplayAppend(EMPTY, log, AliveLine(id, addr));
    HandleAliveLine(st, id, addr);
  }

  lemma AddClockLines(log: string, st: Recovered, action: LTime, query: LTime)
    requires Terminated(log) && Replay(EMPTY, log) == Some(st)
    ensures var log' := log + ActionLine(action) + "\n" + QueryLine(query) + "\n";
      Terminated(log') && Replay(EMPTY, log') == Some(Recovered(st.alive, action, query))
  {
    LinesHaveNoNewline("", "", action);
    ReplayAppend(EMPTY, log, ActionLine(action));
    HandleActionLine(st, action);
    LinesHaveNoNewline("", "", query);
    ReplayAppend(EMPTY, log + ActionLine(action) + "\n", QueryLine(query));
    HandleQueryLine(st.(actionClock := action), query);
  }

  lemma {:induction false} DumpAliveReplays(alive: map<string, string>, order: seq<string>)
    requires CleanNames(alive) && forall k :: k in order ==> k in alive
    ensures Replay(EMPTY, DumpAlive(alive, order)) == Some(Recovered(Restrict(alive, order), 0, 0))
    ensures Terminated(DumpAlive(alive, order))
  {
    if order == [] {
      assert Restrict(alive, order) == map[];
    } else {
      var front, id := order[..|order| - 1], order[|order| - 1];
      assert order == front + [id];
      DumpAliveReplays(alive, front);
      AddAliveLine(DumpAlive(alive, front), Recovered(Restrict(alive, front), 0, 0), id, alive[id]);
      assert Restrict(alive, front)[id := alive[id]] == Restrict(alive, order);
    }
  }

  // A dump, in whatever order the map is walked, rebuilds the live state.
  lemma DumpReplays(s: Snap, order: seq<string>)
    requires CleanNames(s.alive) && IsOrder(order, s.alive.Keys)
    ensures Replay(EMPTY, Dump(s, order)) == Some(Live(s)) && Terminated(Dump(s, order))
  {
    var d0 := DumpAlive(s.alive, order);
    DumpAliveReplays(s.alive, order);
    assert Restrict(s.alive, order) == s.alive;
    AddClockLines(d0, Recovered(s.alive, 0, 0), s.actionClock, s.queryClock);
    var d2 := d0 + ActionLine(s.actionClock) + "\n" + QueryLine(s.queryClock) + "\n";
    if s.leaving {
      LinesHaveNoNewline("", "", 0);
      ReplayAppend(EMPTY, d2, LEAVE);
      HandleLeaveLine(Live(s));
      assert Dump(s, order) == d2 + LEAVE + "\n";
    } else {
      assert Dump(s, order) == d2;
    }
  }

  // The two dumps of one state, before and after it leaves, differ in the leave
  // line.
  lemma LeaveIsDumped(s: Snap, order: seq<string>)
    requires forall k :: k in order ==> k in s.alive
    ensures Dump(s.(leaving := true), order) == Dump(s.(leaving := false), order) + "leave\n"
  {
    assert LEAVE + "\n" == "leave\n";
    var before := DumpAlive(s.alive, order) + ActionLine(s.actionClock) + "\n" + QueryLine(s.queryClock) + "\n";
    assert Dump(s.(leaving := false), order) == before + "" == before;
  }

  lemma WriteLog(s: Snap, l: string, passed: nat)
    ensures Log(Write(s, l, passed)) == Log(s) + l
  {
    var pending := s.buffer + l;
    var k := if passed < |pending| then passed else |pending|;
    assert pending[..k] + pending[k..] == pending;
  }

  lemma CompactIsConsistent(s: Snap, order: seq<string>)
    requires CleanNames(s.alive) && IsOrder(order, s.alive.Keys)
    ensures Consistent(Compact(s, order)) && Live(Compact(s, order)) == Live(s)
  {
    DumpReplays(s, order);
    assert Dump(s, order) + "" == Dump(s, order);
  }

  lemma AppendIsConsistent(s: Snap, s1: Snap, body: string, env: Env)
    requires Consistent(s) && Log(s1) == Log(s) && s1.offset == s.offset
    requires '\n' !in body && HandleLine(Live(s), body) == Some(Live(s1))
    requires IsOrder(env.order, s1.alive.Keys)
    ensures Consistent(AppendLine(s1, body + "\n", env)) && Live(AppendLine(s1, body + "\n", env)) == Live(s1)
  {
    var w := Write(s1, body + "\n", env.passed);
    WriteLog(s1, body + "\n", env.passed);
    ReplayAppend(EMPTY, Log(s), body);
    assert Log(s) + body + "\n" == Log(s) + (body + "\n");
    ReplayedNamesAreClean(EMPTY, Log(w));
    if w.offset > Threshold(w) {
      CompactIsConsistent(w, env.order);
    }
  }

  lemma FlushKeepsLog(s: Snap)
    ensures Log(Flush(s)) == Log(s)
  {
  }

  lemma StepIsConsistent(s: Snap, op: Op, env: Env)
    requires Consistent(s) && Clean(op) && EnvOk(s, op, env)
    ensures Consistent(Step(s, op, env)) && Live(Step(s, op, env)) == Live(Record(s, op).0)
  {
    var body := RecordedLine(s, op, Live(s));
    var (s1, line) := Record(s, op);
    if line.Some? {
      AppendIsConsistent(s, s1, body, env);
      if op.LeaveSignal? {
        FlushKeepsLog(AppendLine(s1, line.value, env));
      }
    } else if op.FlushTick? {
      FlushKeepsLog(s1);
    } else if op.Recovery? {
      ReplayedNamesAreClean(EMPTY, Log(s));
      CompactIsConsistent(s1, env.order);
    }
  }

  // --- Runs --------------------------------------------------------------------

  datatype Timed = Timed(op: Op, env: Env)

  // states[k] is the snapshotter before step k; every operation is clean and
  // every dump walks the map there is.
  ghost predicate IsRun(states: seq<Snap>, steps: seq<Timed>) {
    |states| == |steps| + 1 && forall k :: 0 <= k < |steps| ==> StepAt(states, steps, k)
  }

  ghost predicate StepAt(states: seq<Snap>, steps: seq<Timed>, k: nat)
    requires k < |steps| < |states|
  {
    Follows(states[k], steps[k], states[k + 1])
  }

  ghost predicate Follows(s: Snap, t: Timed, s': Snap) {
    Clean(t.op) && EnvOk(s, t.op, t.env) && s' == Step(s, t.op, t.env)
  }

  // Opening a log that can be read keeps it as it is and takes up what it says;
  // a newline-terminated one gives a consistent snapshotter.
  lemma OpenIsConsistent(log: string, minCompactSize: int)
    requires Open(log, minCompactSize).Some?
    ensures var s := Open(log, minCompactSize).value;
      && Replay(EMPTY, log) == Some(Live(s)) && !s.leaving
      && s.disk == log && s.buffer == "" && s.offset == |log| && s.minCompactSize == minCompactSize
      && (Terminated(log) ==> Consistent(s))
  {
    var s := Open(log, minCompactSize).value;
    assert Log(s) == log + "" == log;
  }

  // At every moment of every run, through any flushes and compactions, reading
  // the log back rebuilds exactly the live nodes and both clocks.
  lemma {:induction false} ReplayEqualsLive(states: seq<Snap>, steps: seq<Timed>, k: nat)
    requires IsRun(states, steps) && k <= |steps| && Consistent(states[0])
    ensures Consistent(states[k])
    ensures k > 0 ==> Live(states[k]) == Live(Record(states[k - 1], steps[k - 1].op).0)
  {
    if k > 0 {
      ReplayEqualsLive(states, steps, k - 1);
      assert StepAt(states, steps, k - 1);
      StepIsConsistent(states[k - 1], steps[k - 1].op, steps[k - 1].env);
    }
  }

  // What a step makes of the live state does not depend on the log.
  lemma StepLive(s: Snap, t: Timed, s': Snap)
    requires Follows(s, t, s')
    ensures Live(s') == Live(Record(s, t.op).0)
  {
    var (s1, line) := Record(s, t.op);
    if line.Some? {
      AppendKeepsLive(s1, line.value, t.env);
    }
  }

  lemma {:induction false} NamesStayClean(states: seq<Snap>, steps: seq<Timed>, n: nat)
    requires IsRun(states, steps) && n <= |steps| && CleanNames(states[0].alive)
    ensures CleanNames(states[n].alive)
  {
    if n > 0 {
      NamesStayClean(states, steps, n - 1);
      assert StepAt(states, steps, n - 1);
      StepLive(states[n - 1], steps[n - 1], states[n]);
      RecordKeepsClean(states[n - 1], steps[n - 1].op);
    }
  }

  lemma RecordKeepsClean(s: Snap, op: Op)
    requires CleanNames(s.alive) && Clean(op)
    ensures CleanNames(Record(s, op).0.alive)
  {
  }

  // --- What the live state is ----------------------------------------------------

  predicate About(op: Op, id: string) {
    (op.Join? || op.Gone?) && op.id == id
  }

  // The operations recorded: those before the first leave.
  function Recorded(steps: seq<Timed>): (r: nat)
    ensures r <= |steps|
    ensures forall k :: 0 <= k < r ==> !steps[k].op.LeaveSignal?
    ensures r < |steps| ==> steps[r].op.LeaveSignal?
  {
    if steps == [] then 0
    else if steps[0].op.LeaveSignal? then 0
    else 1 + Recorded(steps[1..])
  }

  // The last word on id among the first r operations was op k.
  ghost predicate LastAbout(steps: seq<Timed>, r: nat, id: string, k: nat)
    requires r <= |steps|
  {
    k < r && About(steps[k].op, id) && forall j :: k < j < r ==> !About(steps[j].op, id)
  }

  ghost predicate ClockIsMax(start: LTime, times: set<LTime>, clock: LTime) {
    && (clock == start || clock in times)
    && clock >= start && forall t :: t in times ==> t <= clock
  }

  ghost function ActionTimes(steps: seq<Timed>, r: nat): set<LTime>
    requires r <= |steps|
  {
    set k | 0 <= k < r && steps[k].op.ActionSeen? :: steps[k].op.t
  }

  ghost function QueryTimes(steps: seq<Timed>, r: nat): set<LTime>
    requires r <= |steps|
  {
    set k | 0 <= k < r && steps[k].op.QuerySeen? :: steps[k].op.t
  }

  // Each clock is the largest recorded time.
  ghost predicate ClocksMean(s: Snap, steps: seq<Timed>, r: nat, live: Recovered)
    requires r <= |steps|
  {
    && ClockIsMax(s.actionClock, ActionTimes(steps, r), live.actionClock)
    && ClockIsMax(s.queryClock, QueryTimes(steps, r), live.queryClock)
  }

  // A node is alive exactly if the last recorded word on it was a join - at the
  // address that join gave - or nothing was recorded and it was alive at the
  // start.
  ghost predicate NamesMean(s: Snap, steps: seq<Timed>, r: nat, alive: map<string, string>)
    requires r <= |steps|
  {
    && (forall id, k: nat :: LastAbout(steps, r, id, k) ==>
          if steps[k].op.Join? then id in alive && alive[id] == steps[k].op.addr else id !in alive)
    && forall id :: (forall k :: 0 <= k < r ==> !About(steps[k].op, id)) ==>
          (id in alive <==> id in s.alive) && (id in s.alive ==> alive[id] == s.alive[id])
  }

  ghost predicate Means(s: Snap, steps: seq<Timed>, r: nat, live: Recovered)
    requires r <= |steps|
  {
    ClocksMean(s, steps, r, live) && NamesMean(s, steps, r, live.alive)
  }

  function AliveAfter(alive: map<string, string>, op: Op): map<string, string> {
    match op
    case Join(id, addr) => alive[id := addr]
    case Gone(id) => alive - {id}
    case _ => alive
  }

  lemma ClocksOneMore(s: Snap, steps: seq<Timed>, r: nat, before: Snap)
    requires r < |steps| && ClocksMean(s, steps, r, Live(before)) && !before.leaving && !steps[r].op.LeaveSignal?
    ensures ClocksMean(s, steps, r + 1, Live(Record(before, steps[r].op).0))
  {
    var op := steps[r].op;
    assert ActionTimes(steps, r + 1) == ActionTimes(steps, r) + if op.ActionSeen? then {op.t} else {};
    assert QueryTimes(steps, r + 1) == QueryTimes(steps, r) + if op.QuerySeen? then {op.t} else {};
  }

  lemma NamesOneMore(s: Snap, steps: seq<Timed>, r: nat, alive: map<string, string>, alive': map<string, string>)
    requires r < |steps| && NamesMean(s, steps, r, alive)
    requires alive' == AliveAfter(alive, steps[r].op)
    ensures NamesMean(s, steps, r + 1, alive')
  {
    var op := steps[r].op;
    forall id, k: nat | LastAbout(steps, r + 1, id, k)
      ensures if steps[k].op.Join? then id in alive' && alive'[id] == steps[k].op.addr else id !in alive'
    {
      if k < r {
        assert LastAbout(steps, r, id, k) && !About(op, id);
      }
    }
    forall id | forall k :: 0 <= k < r + 1 ==> !About(steps[k].op, id)
      ensures (id in alive' <==> id in s.alive) && (id in s.alive ==> alive'[id] == s.alive[id])
    {
      assert !About(op, id);
    }
  }

  lemma AppendKeepsLive(s: Snap, l: string, env: Env)
    requires forall k :: k in env.order ==> k in s.alive
    ensures var s' := AppendLine(s, l, env);
      Live(s') == Live(s) && s'.leaving == s.leaving && s'.minCompactSize == s.minCompactSize
  {
  }

  lemma LeavingStep(s: Snap, t: Timed, s': Snap)
    requires Follows(s, t, s')
    ensures s'.leaving <==> s.leaving || t.op.LeaveSignal?
  {
    var (s1, line) := Record(s, t.op);
    assert s1.leaving <==> s.leaving || t.op.LeaveSignal?;
    if line.Some? {
      AppendKeepsLive(s1, line.value, t.env);
    }
  }

  lemma {:induction false} LeavingMeans(states: seq<Snap>, steps: seq<Timed>, n: nat)
    requires IsRun(states, steps) && n <= |steps| && !states[0].leaving
    ensures states[n].leaving <==> Recorded(steps) < n
  {
    if n > 0 {
      LeavingMeans(states, steps, n - 1);
      assert StepAt(states, steps, n - 1);
      LeavingStep(states[n - 1], steps[n - 1], states[n]);
    }
  }

  lemma RecordAlive(s: Snap, op: Op)
    requires !s.leaving
    ensures Record(s, op).0.alive == AliveAfter(s.alive, op)
  {
  }

  lemma LeftKeepsLive(s: Snap, op: Op)
    requires s.leaving || op.LeaveSignal?
    ensures Live(Record(s, op).0) == Live(s)
  {
  }

  lemma OneMoreMeans(start: Snap, steps: seq<Timed>, r: nat, s: Snap, live: Recovered)
    requires r < |steps| && Means(start, steps, r, Live(s)) && !s.leaving && !steps[r].op.LeaveSignal?
    requires live == Live(Record(s, steps[r].op).0)
    ensures Means(start, steps, r + 1, live)
  {
    ClocksOneMore(start, steps, r, s);
    RecordAlive(s, steps[r].op);
    NamesOneMore(start, steps, r, s.alive, live.alive);
  }

  function Least(a: nat, b: nat): nat {
    if a < b then a else b
  }

  lemma MeansNext(start: Snap, steps: seq<Timed>, n: nat, s: Snap, live: Recovered)
    requires n < |steps| && Means(start, steps, Least(n, Recorded(steps)), Live(s))
    requires s.leaving <==> Recorded(steps) < n
    requires live == Live(Record(s, steps[n].op).0)
    ensures Means(start, steps, Least(n + 1, Recorded(steps)), live)
  {
    if n < Recorded(steps) {
      OneMoreMeans(start, steps, n, s, live);
    } else {
      LeftKeepsLive(s, steps[n].op);
    }
  }

  // The live state always means what the recorded operations say.
  lemma {:induction false} LiveMeans(states: seq<Snap>, steps: seq<Timed>, n: nat)
    requires IsRun(states, steps) && n <= |steps| && !states[0].leaving
    ensures Means(states[0], steps, Least(n, Recorded(steps)), Live(states[n]))
  {
    if n > 0 {
      LiveMeans(states, steps, n - 1);
      LeavingMeans(states, steps, n - 1);
      assert StepAt(states, steps, n - 1);
      StepLive(states[n - 1], steps[n - 1], states[n]);
      MeansNext(states[0], steps, n - 1, states[n - 1], Live(states[n]));
    }
  }
}
