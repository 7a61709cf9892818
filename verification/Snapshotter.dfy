// The snapshotter object. File and buffered writer are its `disk` and `buffer`
// fields; how much a write passes on and the order a map is walked in are
// parameters.
module Snapshotter {
  import opened Wrappers
  import opened Lamport
  import opened SnapshotText
  import Snapshot

  class Snapshotter {
    var aliveNodes: map<string, string>
    var lastActionClock: LTime
    var lastQueryClock: LTime
    var leaving: bool
    var disk: string
    var buffer: string
    var offset: nat
    const minCompactSize: int

    function View(): Snapshot.Snap
      reads this
    {
      Snapshot.Snap(aliveNodes, lastActionClock, lastQueryClock, leaving, disk, buffer, offset, minCompactSize)
    }

    function Recovered(): Recovered
      reads this
    {
      SnapshotText.Recovered(aliveNodes, lastActionClock, lastQueryClock)
    }

    constructor (log: string, minCompactSize: int)
      ensures View() == Snapshot.Snap(map[], 0, 0, false, log, "", |log|, minCompactSize)
    {
      aliveNodes, lastActionClock, lastQueryClock, leaving := map[], 0, 0, false;
      disk, buffer, offset := log, "", |log|;
      this.minCompactSize := minCompactSize;
    }

    // Opens an existing log; null stands for the panic of a replay.
    static method NewSnapshotter(log: string, minCompactSize: int) returns (s: Snapshotter?)
      ensures s == null <==> HasUnreadable(log)
      ensures match Snapshot.Open(log, minCompactSize) {
                case None => s == null
                case Some(v) => s != null && fresh(s) && s.View() == v
              }
    {
      var snap := new Snapshotter(log, minCompactSize);
      var panicked := snap.Replay();
      ReplayPanicsIff(Snapshot.EMPTY, log);
      s := if panicked then null else snap;
    }

    method HandleLine(l: string) returns (panicked: bool)
      modifies `aliveNodes, `lastActionClock, `lastQueryClock
      ensures panicked <==> Unreadable(l)
      ensures panicked <==> SnapshotText.HandleLine(old(Recovered()), l).None?
      ensures !panicked ==> SnapshotText.HandleLine(old(Recovered()), l) == Some(Recovered())
    {
      HandleLinePanicsIff(Recovered(), l);
      var prefix := "";
      var k := 0;
      while k < |PREFIXES| && prefix == ""
        invariant k <= |PREFIXES|
        invariant prefix == "" ==> FirstPrefix(l, PREFIXES[k..]) == FirstPrefix(l, PREFIXES)
        invariant prefix != "" ==> prefix == FirstPrefix(l, PREFIXES)
        decreases |PREFIXES| - k
      {
        assert PREFIXES[k..][0] == PREFIXES[k] && PREFIXES[k..][1..] == PREFIXES[k + 1..];
        if PREFIXES[k] <= l {
          prefix := PREFIXES[k];
        }
        k := k + 1;
      }
      if prefix == "" {
        return false;
      }
      var info := l[|prefix|..];
      if prefix == ALIVE {
        var addrIdx := LastIndex(info, ' ');
        if addrIdx.None? {
          return true;
        }
        var addr := info[addrIdx.value + 1..];
        var name := info[..addrIdx.value];
        aliveNodes := aliveNodes[name := addr];
      } else if prefix == NOT_ALIVE {
        aliveNodes := aliveNodes - {info};
      } else if prefix == ACTION_CLOCK {
        var (time, valid) := ParseUint(info);
        if !valid {
          return false;
        }
        lastActionClock := time;
      } else if prefix == QUERY_CLOCK {
        var (time, valid) := ParseUint(info);
        lastQueryClock := time;
      }
      return false;
    }

    method Replay() returns (panicked: bool)
      modifies `aliveNodes, `lastActionClock, `lastQueryClock
      ensures panicked <==> HasUnreadable(disk)
      ensures panicked <==> SnapshotText.Replay(old(Recovered()), disk).None?
      ensures !panicked ==> SnapshotText.Replay(old(Recovered()), disk) == Some(Recovered())
    {
      ReplayPanicsIff(Recovered(), disk);
      var rest := disk;
      var newline := IndexOf(rest, '\n');
      while newline.Some?
        invariant newline == IndexOf(rest, '\n')
        invariant SnapshotText.Replay(Recovered(), rest) == SnapshotText.Replay(old(Recovered()), disk)
        decreases |rest|
      {
        var line := rest[..newline.value];
        var bad := HandleLine(line);
        if bad {
          return true;
        }
        rest := rest[newline.value + 1..];
        newline := IndexOf(rest, '\n');
      }
      return false;
    }

    method SnapshotThreshold() returns (threshold: int)
      ensures threshold == Snapshot.Threshold(View())
      ensures threshold == if 256 * |aliveNodes| < minCompactSize then minCompactSize else 256 * |aliveNodes|
    {
      var nodes := |aliveNodes|;
      threshold := nodes * Snapshot.BYTES_PER_NODE * Snapshot.COMPACTION_FACTOR;
      if threshold < minCompactSize {
        threshold := minCompactSize;
      }
    }

    method Dump(order: seq<string>) returns (text: string)
      requires Snapshot.IsOrder(order, aliveNodes.Keys)
      ensures text == Snapshot.Dump(View(), order)
    {
      text := "";
      for i := 0 to |order|
        invariant text == Snapshot.DumpAlive(aliveNodes, order[..i])
      {
        assert order[..i + 1][..i] == order[..i];
        text := text + AliveLine(order[i], aliveNodes[order[i]]) + "\n";
      }
      assert order[..|order|] == order;
      text := text + ActionLine(lastActionClock) + "\n";
      text := text + QueryLine(lastQueryClock) + "\n";
      if leaving {
        text := text + (LEAVE + "\n");
      } else {
        assert text + "" == text;
      }
    }

    method Flush()
      modifies `disk, `buffer
      ensures View() == Snapshot.Flush(old(View()))
    {
      disk := disk + buffer;
      buffer := "";
    }

    // The old file is flushed, removed and replaced by the dump.
    method Compact(order: seq<string>)
      requires Snapshot.IsOrder(order, aliveNodes.Keys)
      modifies `disk, `buffer, `offset
      ensures View() == Snapshot.Compact(old(View()), order)
    {
      var text := Dump(order);
      Flush();
      disk := text;
      buffer := "";
      offset := |text|;
    }

    method AppendLine(l: string, passed: nat, order: seq<string>)
      requires Snapshot.IsOrder(order, aliveNodes.Keys)
      modifies `disk, `buffer, `offset
      ensures View() == Snapshot.AppendLine(old(View()), l, Snapshot.Env(passed, order))
    {
      var pending := buffer + l;
      var k := if passed < |pending| then passed else |pending|;
      disk := disk + pending[..k];
      buffer := pending[k..];
      offset := offset + |l|;
      var threshold := SnapshotThreshold();
      if offset > threshold {
        Compact(order);
      }
    }

    method RecordMemberJoin(id: string, addr: string, passed: nat, order: seq<string>)
      requires Snapshot.IsOrder(order, aliveNodes.Keys + {id})
      modifies `aliveNodes, `disk, `buffer, `offset
      ensures View() == Snapshot.AppendLine(old(View()).(alive := old(aliveNodes)[id := addr]),
                                            AliveLine(id, addr) + "\n", Snapshot.Env(passed, order))
    {
      aliveNodes := aliveNodes[id := addr];
      AppendLine(AliveLine(id, addr) + "\n", passed, order);
    }

    method RecordMemberGone(id: string, passed: nat, order: seq<string>)
      requires Snapshot.IsOrder(order, aliveNodes.Keys - {id})
      modifies `aliveNodes, `disk, `buffer, `offset
      ensures View() == Snapshot.AppendLine(old(View()).(alive := old(aliveNodes) - {id}),
                                            NotAliveLine(id) + "\n", Snapshot.Env(passed, order))
    {
      aliveNodes := aliveNodes - {id};
      AppendLine(NotAliveLine(id) + "\n", passed, order);
    }

    method RecordActionClock(t: LTime, passed: nat, order: seq<string>)
      requires Snapshot.IsOrder(order, aliveNodes.Keys)
      modifies `lastActionClock, `disk, `buffer, `offset
      ensures View() == if t <= old(lastActionClock) then old(View())
                        else Snapshot.AppendLine(old(View()).(actionClock := t), ActionLine(t) + "\n",
                                                 Snapshot.Env(passed, order))
    {
      if t <= lastActionClock {
        return;
      }
      lastActionClock := t;
      AppendLine(ActionLine(t) + "\n", passed, order);
    }

    method RecordQueryClock(t: LTime, passed: nat, order: seq<string>)
      requires Snapshot.IsOrder(order, aliveNodes.Keys)
      modifies `lastQueryClock, `disk, `buffer, `offset
      ensures View() == if t <= old(lastQueryClock) then old(View())
                        else Snapshot.AppendLine(old(View()).(queryClock := t), QueryLine(t) + "\n",
                                                 Snapshot.Env(passed, order))
    {
      if t <= lastQueryClock {
        return;
      }
      lastQueryClock := t;
      AppendLine(QueryLine(t) + "\n", passed, order);
    }

    method RecordLeave(passed: nat, order: seq<string>)
      requires Snapshot.IsOrder(order, aliveNodes.Keys)
      modifies `leaving, `disk, `buffer, `offset
      ensures View() == Snapshot.Flush(Snapshot.AppendLine(old(View()).(leaving := true), LEAVE + "\n",
                                                           Snapshot.Env(passed, order)))
    {
      leaving := true;
      AppendLine(LEAVE + "\n", passed, order);
      Flush();
    }

    // Everything received after a leave is dropped.
    method RecordEvent(op: Snapshot.Op, env: Snapshot.Env)
      requires !op.LeaveSignal? && !op.FlushTick? && !op.Recovery?
      requires Snapshot.EnvOk(View(), op, env)
      modifies this
      ensures View() == Snapshot.Step(old(View()), op, env)
    {
      if leaving {
        return;
      }
      match op
      case Join(id, addr) => RecordMemberJoin(id, addr, env.passed, env.order);
      case Gone(id) => RecordMemberGone(id, env.passed, env.order);
      case ActionSeen(t) => RecordActionClock(t, env.passed, env.order);
      case QuerySeen(t) => RecordQueryClock(t, env.passed, env.order);
      case JoinNoMember =>
      case OtherMember =>
    }

    // One turn of the event loop.
    method Receive(op: Snapshot.Op, env: Snapshot.Env)
      requires Snapshot.EnvOk(View(), op, env)
      modifies this
      ensures View() == Snapshot.Step(old(View()), op, env)
    {
      if op.LeaveSignal? {
        RecordLeave(env.passed, env.order);
      } else if op.FlushTick? {
        Flush();
      } else if op.Recovery? {
        Compact(env.order);
      } else {
        RecordEvent(op, env);
      }
    }
  }
}
