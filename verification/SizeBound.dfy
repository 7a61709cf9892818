// How large the snapshot log can get.
module SizeBound {
  import opened SnapshotText
  import opened Snapshot
  import opened CrashSafety

  predicate SmallLine(id: string, addr: string) {
    |AliveLine(id, addr)| + 1 <= 128
  }

  predicate SmallLines(alive: map<string, string>) {
    forall id :: id in alive ==> SmallLine(id, alive[id])
  }

  predicate SmallOp(op: Op) {
    op.Join? ==> SmallLine(op.id, op.addr)
  }

  // At most the larger of the minimum size and 256 bytes per live node.
  predicate Within(s: Snap) {
    s.offset <= s.minCompactSize || s.offset <= 256 * |s.alive|
  }

  lemma {:induction false} OrderCoversKeys(order: seq<string>, keys: set<string>)
    requires IsOrder(order, keys)
    ensures |order| == |keys|
  {
    if order == [] {
      assert keys == {};
    } else {
      var front, last := order[..|order| - 1], order[|order| - 1];
      assert order == front + [last];
      assert last in keys;
      OrderCoversKeys(front, keys - {last});
    }
  }

  lemma {:induction false} DumpAliveSize(alive: map<string, string>, order: seq<string>)
    requires SmallLines(alive) && forall k :: k in order ==> k in alive
    ensures |DumpAlive(alive, order)| <= 128 * |order|
  {
    if order != [] {
      var id := order[|order| - 1];
      DumpAliveSize(alive, order[..|order| - 1]);
      assert SmallLine(id, alive[id]);
    }
  }

  // A dump takes at most 128 bytes per live node and 75 more.
  lemma DumpSize(s: Snap, order: seq<string>)
    requires SmallLines(s.alive) && IsOrder(order, s.alive.Keys)
    ensures |Dump(s, order)| <= 128 * |s.alive| + 75
  {
    DumpAliveSize(s.alive, order);
    OrderCoversKeys(order, s.alive.Keys);
    LTimeLength(s.actionClock);
    LTimeLength(s.queryClock);
  }

  // So after every append, compacted or not, the log is within its bound.
  lemma AppendIsWithin(s: Snap, l: string, env: Env)
    requires SmallLines(s.alive) && IsOrder(env.order, s.alive.Keys) && s.minCompactSize >= 75
    ensures Within(AppendLine(s, l, env))
  {
    DumpSize(Write(s, l, env.passed), env.order);
  }

  lemma RecordKeepsSmall(s: Snap, op: Op)
    requires SmallLines(s.alive) && SmallOp(op)
    ensures SmallLines(Record(s, op).0.alive) && Record(s, op).0.minCompactSize == s.minCompactSize
  {
  }

  // The whole run: once a line has been appended, the offset stays within the
  // bound at every later moment.
  lemma {:induction false} LogStaysWithin(states: seq<Snap>, steps: seq<Timed>, j: nat, n: nat)
    requires IsRun(states, steps) && j < n <= |steps|
    requires SmallLines(states[0].alive) && forall k :: 0 <= k < |steps| ==> SmallOp(steps[k].op)
    requires states[0].minCompactSize >= 75
    requires Record(states[j], steps[j].op).1.Some?
    ensures Within(states[n])
    decreases n
  {
    var s, t := states[n - 1], steps[n - 1];
    SmallThroughout(states, steps, n - 1);
    assert StepAt(states, steps, n - 1);
    if j < n - 1 {
      LogStaysWithin(states, steps, j, n - 1);
    }
    StepStaysWithin(s, t, states[n]);
  }

  lemma StepStaysWithin(s: Snap, t: Timed, s': Snap)
    requires Follows(s, t, s') && SmallLines(s.alive) && SmallOp(t.op) && s.minCompactSize >= 75
    requires Within(s) || Record(s, t.op).1.Some?
    ensures Within(s')
  {
    var (s1, line) := Record(s, t.op);
    RecordKeepsSmall(s, t.op);
    if line.Some? {
      AppendIsWithin(s1, line.value, t.env);
    } else if t.op.Recovery? {
      DumpSize(s1, t.env.order);
    }
  }

  lemma {:induction false} SmallThroughout(states: seq<Snap>, steps: seq<Timed>, n: nat)
    requires IsRun(states, steps) && n <= |steps|
    requires SmallLines(states[0].alive) && forall k :: 0 <= k < |steps| ==> SmallOp(steps[k].op)
    ensures SmallLines(states[n].alive) && states[n].minCompactSize == states[0].minCompactSize
  {
    if n > 0 {
      SmallThroughout(states, steps, n - 1);
      assert StepAt(states, steps, n - 1);
      StepKeepsSmall(states[n - 1], steps[n - 1], states[n]);
    }
  }

  lemma StepKeepsSmall(s: Snap, t: Timed, s': Snap)
    requires Follows(s, t, s') && SmallLines(s.alive) && SmallOp(t.op)
    ensures SmallLines(s'.alive) && s'.minCompactSize == s.minCompactSize
  {
    RecordKeepsSmall(s, t.op);
    StepLive(s, t, s');
    CompactsIff(s, t, s');
  }

  // --- When the log is rewritten -----------------------------------------------

  // An appended line is kept, behind all that was there, if and only if the log
  // is then at most the minimum size or at most 256 bytes per live node long;
  // otherwise the log becomes a dump.
  lemma AppendLineIff(s: Snap, l: string, env: Env)
    requires forall k :: k in env.order ==> k in s.alive
    ensures var s' := AppendLine(s, l, env);
      && Live(s') == Live(s) && s'.leaving == s.leaving && s'.minCompactSize == s.minCompactSize
      && if s.offset + |l| <= s.minCompactSize || s.offset + |l| <= 256 * |s.alive| then
           s.disk <= s'.disk && s'.disk + s'.buffer == s.disk + s.buffer + l && s'.offset == s.offset + |l|
         else
           s'.disk == Dump(s, env.order) && s'.buffer == "" && s'.offset == |Dump(s, env.order)|
  {
    WriteLog(s, l, env.passed);
  }

  // The line a step appends makes the log too long.
  predicate Overflows(s: Snap, t: Timed) {
    var (s1, line) := Record(s, t.op);
    line.Some? && s.offset + |line.value| > s.minCompactSize && s.offset + |line.value| > 256 * |s1.alive|
  }

  lemma RecordKeepsOffset(s: Snap, op: Op)
    ensures Record(s, op).0.offset == s.offset && Record(s, op).0.minCompactSize == s.minCompactSize
    ensures Record(s, op).0.disk == s.disk && Record(s, op).0.buffer == s.buffer
  {
  }

  // How many bytes a step appends.
  function LineLength(s: Snap, t: Timed): nat {
    var line := Record(s, t.op).1;
    if line.None? then 0 else |line.value|
  }

  // A step rewrites the log exactly if it is a recovery or its line makes the log
  // too long; any other step adds its line to the offset.
  lemma CompactsIff(s: Snap, t: Timed, s': Snap)
    requires Follows(s, t, s')
    ensures Compacts(s, t) <==> t.op.Recovery? || Overflows(s, t)
    ensures s'.minCompactSize == s.minCompactSize
    ensures s'.offset == if Compacts(s, t) then |Dump(Record(s, t.op).0, t.env.order)| else s.offset + LineLength(s, t)
  {
    var (s1, line) := Record(s, t.op);
    RecordKeepsOffset(s, t.op);
    if line.Some? {
      AppendLineIff(s1, line.value, t.env);
    }
  }

  // The bytes appended from moment i to moment j.
  function Appended(states: seq<Snap>, steps: seq<Timed>, i: nat, j: nat): nat
    requires i <= j <= |steps| < |states|
  {
    if i == j then 0 else Appended(states, steps, i, j - 1) + LineLength(states[j - 1], steps[j - 1])
  }

  lemma {:induction false} OffsetGrows(states: seq<Snap>, steps: seq<Timed>, i: nat, j: nat)
    requires IsRun(states, steps) && i <= j <= |steps|
    requires forall k :: i <= k < j ==> !Compacts(states[k], steps[k])
    ensures states[j].offset == states[i].offset + Appended(states, steps, i, j)
    ensures states[j].minCompactSize == states[i].minCompactSize
    decreases j
  {
    if i < j {
      OffsetGrows(states, steps, i, j - 1);
      assert StepAt(states, steps, j - 1);
      CompactsIff(states[j - 1], steps[j - 1], states[j]);
    }
  }

  lemma DumpedSize(s: Snap, t: Timed, s': Snap)
    requires Follows(s, t, s') && Compacts(s, t) && SmallLines(s'.alive)
    ensures s'.offset <= 128 * |s'.alive| + 75
  {
    CompactsIff(s, t, s');
    StepLive(s, t, s');
    DumpSize(Record(s, t.op).0, t.env.order);
  }

  // Rewriting is rare: from one dump to the next that the size triggers, more
  // bytes are appended than 256 per node live in the end less the 128 per node
  // and 75 that the first dump may take - so with n live nodes at both, at least
  // 128 n - 74.
  lemma DumpsAreApart(states: seq<Snap>, steps: seq<Timed>, i: nat, j: nat)
    requires IsRun(states, steps) && i < j < |steps| && SmallLines(states[i + 1].alive)
    requires Compacts(states[i], steps[i]) && Overflows(states[j], steps[j])
    requires forall k :: i < k < j ==> !Compacts(states[k], steps[k])
    ensures Appended(states, steps, i + 1, j + 1) > 256 * |states[j + 1].alive| - (128 * |states[i + 1].alive| + 75)
    ensures |states[j + 1].alive| == |states[i + 1].alive| ==>
              Appended(states, steps, i + 1, j + 1) >= 128 * |states[j + 1].alive| - 74
  {
    assert StepAt(states, steps, i) && StepAt(states, steps, j);
    DumpedSize(states[i], steps[i], states[i + 1]);
    OffsetGrows(states, steps, i + 1, j);
    OverflowSize(states[j], steps[j], states[j + 1]);
  }

  lemma OverflowSize(s: Snap, t: Timed, s': Snap)
    requires Follows(s, t, s') && Overflows(s, t)
    ensures s.offset + LineLength(s, t) > 256 * |s'.alive|
  {
    StepLive(s, t, s');
  }
}
