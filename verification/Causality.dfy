// Happens-before and the Lamport times of actions, over cluster runs.
module Causality {
  import opened Wrappers
  import opened Lamport
  import opened Buffer
  import opened History
  import opened Gossip
  import opened NodeRuns
  import opened AntiEntropy
  import opened Cluster

  function At(c0: Cluster, moves: seq<Move>, i: nat): Cluster
    requires i <= |moves|
  {
    Exec(c0, moves[..i])
  }

  predicate Happened(c0: Cluster, moves: seq<Move>, i: nat) {
    i < |moves| && Enabled(At(c0, moves, i), moves[i])
  }

  function IssuedAt(c0: Cluster, moves: seq<Move>, i: nat): Option<Item>
    requires Happened(c0, moves, i)
  {
    Issues(At(c0, moves, i), moves[i])
  }

  function Delivered(c: Cluster, mv: Move): Item
    requires Enabled(c, mv) && mv.DeliverAction?
  {
    ActionItem(c.nodes[mv.src].actionsQueued[mv.k])
  }

  // Move j learns of move i: it receives the action that i issued, merges a
  // state whose ring holds it, or merges the very state that i sent.
  ghost predicate Informs(c0: Cluster, moves: seq<Move>, i: nat, j: nat)
    requires Happened(c0, moves, i) && Happened(c0, moves, j)
  {
    var cj, mv := At(c0, moves, j), moves[j];
    || (mv.DeliverAction? && IssuedAt(c0, moves, i) == Some(Delivered(cj, mv)))
    || (mv.Pull? && IssuedAt(c0, moves, i).Some? &&
        IssuedAt(c0, moves, i).value in ActionItems(ReplayMsgs(cj.states[mv.k].actionBuffer)))
    || (mv.Pull? && moves[i].SendState? && mv.k == |At(c0, moves, i).states|)
  }

  ghost predicate DirectlyBefore(c0: Cluster, moves: seq<Move>, i: nat, j: nat) {
    i < j && Happened(c0, moves, i) && Happened(c0, moves, j) &&
    (moves[i].n == moves[j].n || Informs(c0, moves, i, j))
  }

  // A chain of moves, each directly before the next.
  ghost predicate Chain(c0: Cluster, moves: seq<Move>, p: seq<nat>) {
    |p| > 0 && Happened(c0, moves, p[0]) &&
    forall k :: 0 <= k < |p| - 1 ==> DirectlyBefore(c0, moves, p[k], p[k + 1])
  }

  function ClockAfter(c0: Cluster, moves: seq<Move>, i: nat): nat
    requires Happened(c0, moves, i)
  {
    Moved(At(c0, moves, i), moves[i]).nodes[moves[i].n].action.clock
  }

  lemma AtNext(c0: Cluster, moves: seq<Move>, i: nat)
    requires i < |moves|
    ensures At(c0, moves, i + 1) == Next(At(c0, moves, i), moves[i])
  {
    assert moves[..i + 1][..i] == moves[..i];
  }

  lemma {:induction false} ClocksOnlyGrow(c0: Cluster, moves: seq<Move>, i: nat, j: nat)
    requires Inv(c0) && i <= j <= |moves|
    ensures Inv(At(c0, moves, i)) && Inv(At(c0, moves, j))
    ensures |At(c0, moves, i).nodes| == |At(c0, moves, j).nodes| == |c0.nodes|
    ensures forall n :: 0 <= n < |c0.nodes| ==>
              At(c0, moves, i).nodes[n].action.clock <= At(c0, moves, j).nodes[n].action.clock
    ensures At(c0, moves, i).states <= At(c0, moves, j).states
    decreases j - i
  {
    ExecKeepsInv(c0, moves[..i]);
    ExecKeepsInv(c0, moves[..j]);
    if i < j {
      AtNext(c0, moves, i);
      NextKeepsInv(At(c0, moves, i), moves[i]);
      ClocksOnlyGrow(c0, moves, i + 1, j);
    }
  }

  lemma IssueClock(c: Cluster, mv: Move)
    requires Enabled(c, mv) && Issues(c, mv).Some?
    ensures Moved(c, mv).nodes[mv.n].action.clock == Issues(c, mv).value.ltime + 1
  {
    var s, op := c.nodes[mv.n], mv.op;
    RunOne(s, op);
    HandledClock(s, ActionMsg(s.action.clock, op.name, op.payload));
  }

  lemma HandledClock(s: NodeState, a: ActionMsg)
    requires a.ltime < MAX_LTIME
    ensures HandleAction(s, a).action.clock == Max(s.action.clock, a.ltime + 1)
  {
    WitnessedIsMax(s.action.clock, a.ltime);
  }

  lemma DeliveredTime(c: Cluster, mv: Move)
    requires Inv(c) && Enabled(c, mv) && mv.DeliverAction?
    ensures Delivered(c, mv).ltime < MAX_LTIME
  {
    var s := c.nodes[mv.src];
    assert NodeOk(c, s);
    assert ActionItems(s.actionsQueued)[mv.k] == Delivered(c, mv);
  }

  // Receiving an action leaves the clock past its time.
  lemma DeliverClock(c: Cluster, mv: Move)
    requires Inv(c) && Enabled(c, mv) && mv.DeliverAction?
    ensures Moved(c, mv).nodes[mv.n].action.clock == Max(c.nodes[mv.n].action.clock, Delivered(c, mv).ltime + 1)
  {
    var a := c.nodes[mv.src].actionsQueued[mv.k];
    DeliveredTime(c, mv);
    RunOne(c.nodes[mv.n], ReceiveAction(a));
    HandledClock(c.nodes[mv.n], a);
  }

  lemma PullClock(c: Cluster, mv: Move)
    requires Inv(c) && Enabled(c, mv) && mv.Pull?
    ensures Moved(c, mv).nodes[mv.n].action.clock >= c.states[mv.k].actionLTime
  {
    var s, m := c.nodes[mv.n], c.states[mv.k];
    RunOne(s, DoMerge(m));
    assert NodeOk(c, s) && StateInv(c, m);
    MergeClocksRefines(s, m);
    var s1 := MergeClocks(s, m);
    var msgs := ReplayMsgs(m.actionBuffer);
    HandleActionsFollow(s1, msgs);
    ReplayNoWrap(c, m);
    RunRefinesHistory(s1.action, ActionItems(s1.actionsQueued), Offers(msgs));
  }

  // What a merge learns of a move was behind the merged state's clock.
  lemma PullInforms(c0: Cluster, moves: seq<Move>, i: nat, j: nat)
    requires Inv(c0) && DirectlyBefore(c0, moves, i, j) && Informs(c0, moves, i, j) && moves[j].Pull?
    ensures ClockAfter(c0, moves, i) <= At(c0, moves, j).states[moves[j].k].actionLTime
  {
    var ci, cj := At(c0, moves, i), At(c0, moves, j);
    AtNext(c0, moves, i);
    ClocksOnlyGrow(c0, moves, i + 1, j);
    if moves[i].SendState? && moves[j].k == |ci.states| {
      assert At(c0, moves, i + 1).states[|ci.states|] == LocalState(ci.nodes[moves[i].n]);
    } else {
      ClocksOnlyGrow(c0, moves, i, j);
      IssueClock(ci, moves[i]);
      assert StateInv(cj, cj.states[moves[j].k]);
    }
  }

  // A direct predecessor leaves its node no further than its successor does,
  // and strictly before the time of an action that the successor issues.
  lemma DirectlyBeforeClocks(c0: Cluster, moves: seq<Move>, i: nat, j: nat)
    requires Inv(c0) && DirectlyBefore(c0, moves, i, j)
    ensures ClockAfter(c0, moves, i) <= ClockAfter(c0, moves, j)
    ensures IssuedAt(c0, moves, j).Some? ==> ClockAfter(c0, moves, i) <= IssuedAt(c0, moves, j).value.ltime
  {
    var ci, cj := At(c0, moves, i), At(c0, moves, j);
    ClocksOnlyGrow(c0, moves, i, j);
    if moves[i].n == moves[j].n {
      AtNext(c0, moves, i);
      ClocksOnlyGrow(c0, moves, i + 1, j);
      NextKeepsInv(cj, moves[j]);
    } else if moves[j].DeliverAction? {
      IssueClock(ci, moves[i]);
      DeliverClock(cj, moves[j]);
    } else {
      PullInforms(c0, moves, i, j);
      PullClock(cj, moves[j]);
    }
  }

  lemma ChainFront(c0: Cluster, moves: seq<Move>, p: seq<nat>)
    requires Chain(c0, moves, p) && |p| > 1
    ensures Chain(c0, moves, p[..|p| - 1]) && DirectlyBefore(c0, moves, p[|p| - 2], p[|p| - 1])
  {
    var front := p[..|p| - 1];
    assert forall k :: 0 <= k < |front| - 1 ==> DirectlyBefore(c0, moves, front[k], front[k + 1]);
    var k := |p| - 2;
    assert DirectlyBefore(c0, moves, p[k], p[k + 1]);
  }

  lemma {:induction false} ChainClocks(c0: Cluster, moves: seq<Move>, p: seq<nat>)
    requires Inv(c0) && Chain(c0, moves, p)
    ensures Happened(c0, moves, p[|p| - 1])
    ensures ClockAfter(c0, moves, p[0]) <= ClockAfter(c0, moves, p[|p| - 1])
    decreases |p|
  {
    if |p| > 1 {
      ChainFront(c0, moves, p);
      ChainClocks(c0, moves, p[..|p| - 1]);
      DirectlyBeforeClocks(c0, moves, p[|p| - 2], p[|p| - 1]);
    }
  }

  // If one issued action happens before another along any chain, through any
  // number of nodes, messages and merges, its Lamport time is strictly smaller.
  lemma CausalOrder(c0: Cluster, moves: seq<Move>, p: seq<nat>)
    requires Inv(c0) && Chain(c0, moves, p) && |p| > 1
    requires Happened(c0, moves, p[|p| - 1])
    requires IssuedAt(c0, moves, p[0]).Some? && IssuedAt(c0, moves, p[|p| - 1]).Some?
    ensures IssuedAt(c0, moves, p[0]).value.ltime < IssuedAt(c0, moves, p[|p| - 1]).value.ltime
  {
    ChainFront(c0, moves, p);
    ChainClocks(c0, moves, p[..|p| - 1]);
    DirectlyBeforeClocks(c0, moves, p[|p| - 2], p[|p| - 1]);
    IssueClock(At(c0, moves, p[0]), moves[p[0]]);
  }

  // --- Forwarded messages ------------------------------------------------------

  // A forwarded broadcast carries only its issuer's time, not the forwarder's:
  // what the receiver issues next is later than a time t of the forwarder
  // exactly when the receiver was already past t or the message itself is not
  // before t.
  lemma ForwardedOrderIff(c: Cluster, mv: Move, t: LTime)
    requires Inv(c) && Enabled(c, mv) && mv.DeliverAction?
    ensures Moved(c, mv).nodes[mv.n].action.clock > t <==>
            c.nodes[mv.n].action.clock > t || Delivered(c, mv).ltime >= t
  {
    DeliverClock(c, mv);
  }

  function Send(payload: Payload): NodeOp { DoAction("", payload, 0, 9) }

  // Node 0 issues an action; node 1 issues two, then forwards the first node's
  // action to node 2, which issues one more.
  function ForwardRun(): seq<Move> {
    [Local(0, Send(Bytes([1]))),
     Local(1, Send(Bytes([2]))),
     Local(1, Send(Bytes([3]))),
     DeliverAction(1, 0, 0),
     DeliverAction(2, 1, 2),
     Local(2, Send(Bytes([4])))]
  }

  // A local send and a delivery, as they change the cluster.
  lemma SendNext(c: Cluster, n: nat, payload: Payload)
    requires n < |c.nodes| && c.nodes[n].action.clock < MAX_LTIME && |payload.Content()| <= 9
    ensures var s := c.nodes[n];
      var mv := Local(n, Send(payload));
      && Enabled(c, mv) && Issues(c, mv) == Some(Item(s.action.clock, 0, payload))
      && Next(c, mv).nodes == c.nodes[n := HandleAction(s, ActionMsg(s.action.clock, "", payload))]
  {
    RunOne(c.nodes[n], Send(payload));
  }

  lemma DeliverNext(c: Cluster, n: nat, src: nat, k: nat)
    requires n < |c.nodes| && src < |c.nodes| && k < |c.nodes[src].actionsQueued|
    ensures var mv := DeliverAction(n, src, k);
      Enabled(c, mv) && Next(c, mv).nodes == c.nodes[n := HandleAction(c.nodes[n], c.nodes[src].actionsQueued[k])]
  {
    RunOne(c.nodes[n], ReceiveAction(c.nodes[src].actionsQueued[k]));
  }

  // A node with an empty or unrelated history takes an action in its window.
  lemma Takes(s: NodeState, a: ActionMsg)
    requires NodeInv(s) && s.action.minTime <= a.ltime < MAX_LTIME
    requires a.ltime + |s.action.ring| >= Max(s.action.clock, a.ltime + 1)
    requires forall k :: 0 <= k < |s.actionsQueued| ==> s.actionsQueued[k].payload.Bytes? && s.actionsQueued[k].payload != a.payload
    requires a.payload.Bytes?
    ensures var s' := HandleAction(s, a);
      && NodeInv(s') && |s'.action.ring| == |s.action.ring| && s'.action.minTime == s.action.minTime
      && s'.action.clock == Max(s.action.clock, a.ltime + 1)
      && s'.actionsQueued == s.actionsQueued + [a]
  {
    var op := ReceiveAction(a);
    ActionTakenIff(s, a);
    HandledClock(s, a);
    RunOne(s, op);
    RunKeepsInv(s, [op]);
  }

  // So the order does fail through a forwarder: node 1 issued at time 2 before
  // it forwarded, and node 2 issued at time 2 after it received.
  lemma ForwardingLosesOrder()
    ensures var c0 := NewCluster(["a", "b", "c"], 4, [0, 0, 0]);
      var run := ForwardRun();
      && Inv(c0)
      && Happened(c0, run, 2) && Happened(c0, run, 3) && Happened(c0, run, 4) && Happened(c0, run, 5)
      && IssuedAt(c0, run, 2) == Some(Item(2, 0, Bytes([3])))
      && Delivered(At(c0, run, 3), run[3]) == Delivered(At(c0, run, 4), run[4]) == Item(1, 0, Bytes([1]))
      && IssuedAt(c0, run, 5) == Some(Item(2, 0, Bytes([4])))
  {
    var c0 := NewCluster(["a", "b", "c"], 4, [0, 0, 0]);
    var run := ForwardRun();
    NewClusterInv(["a", "b", "c"], 4, [0, 0, 0]);
    var a0, b0, d0 := NewNode("a", 4, 0), NewNode("b", 4, 0), NewNode("c", 4, 0);
    var m := ActionMsg(1, "", Bytes([1]));
    var a1 := FirstTakes(a0, m);
    var d1 := FirstTakes(d0, m);
    var b1, b2, b3 := ForwarderTakes(b0);
    FirstThree(c0, run, b0, b1, b2, a1, d0);
    LastThree(c0, run, a1, b2, b3, d0, d1);
  }

  lemma FirstThree(c0: Cluster, run: seq<Move>, b0: NodeState, b1: NodeState, b2: NodeState, a1: NodeState, d0: NodeState)
    requires run == ForwardRun() && |c0.nodes| == 3 && c0.nodes[1] == b0 && c0.nodes[2] == d0
    requires c0.nodes[0].action.clock == b0.action.clock == 1 && b1.action.clock == 2
    requires a1 == HandleAction(c0.nodes[0], ActionMsg(1, "", Bytes([1])))
    requires b1 == HandleAction(b0, ActionMsg(1, "", Bytes([2])))
    requires b2 == HandleAction(b1, ActionMsg(2, "", Bytes([3])))
    ensures At(c0, run, 3).nodes == [a1, b2, d0]
    ensures Happened(c0, run, 2) && IssuedAt(c0, run, 2) == Some(Item(2, 0, Bytes([3])))
  {
    assert At(c0, run, 0) == c0;
    SendStep(c0, run, 0, Bytes([1]));
    assert At(c0, run, 1).nodes == [a1, b0, d0];
    SendStep(c0, run, 1, Bytes([2]));
    assert At(c0, run, 2).nodes == [a1, b1, d0];
    SendStep(c0, run, 2, Bytes([3]));
  }

  lemma LastThree(c0: Cluster, run: seq<Move>, a1: NodeState, b2: NodeState, b3: NodeState, d0: NodeState, d1: NodeState)
    requires run == ForwardRun() && At(c0, run, 3).nodes == [a1, b2, d0]
    requires a1.actionsQueued == [ActionMsg(1, "", Bytes([1]))]
    requires b3 == HandleAction(b2, ActionMsg(1, "", Bytes([1])))
    requires |b3.actionsQueued| == 3 && b3.actionsQueued[2] == ActionMsg(1, "", Bytes([1]))
    requires d1 == HandleAction(d0, ActionMsg(1, "", Bytes([1]))) && d1.action.clock == 2
    ensures Happened(c0, run, 3) && Happened(c0, run, 4) && Happened(c0, run, 5)
    ensures Delivered(At(c0, run, 3), run[3]) == Delivered(At(c0, run, 4), run[4]) == Item(1, 0, Bytes([1]))
    ensures IssuedAt(c0, run, 5) == Some(Item(2, 0, Bytes([4])))
  {
    DeliverStep(c0, run, 3);
    assert At(c0, run, 4).nodes == [a1, b3, d0];
    DeliverStep(c0, run, 4);
    assert At(c0, run, 5).nodes == [a1, b3, d1];
    SendStep(c0, run, 5, Bytes([4]));
  }

  lemma FirstTakes(s: NodeState, a: ActionMsg) returns (s': NodeState)
    requires s == NewNode(s.addr, 4, 0) && a.ltime == 1 && a.payload.Bytes?
    ensures s' == HandleAction(s, a) && NodeInv(s') && |s'.action.ring| == 4 && s'.action.minTime == 1
    ensures s'.action.clock == 2 && s'.actionsQueued == [a]
  {
    NewNodeInv(s.addr, 4, 0);
    Takes(s, a);
    s' := HandleAction(s, a);
  }

  lemma ForwarderTakes(b0: NodeState) returns (b1: NodeState, b2: NodeState, b3: NodeState)
    requires b0 == NewNode(b0.addr, 4, 0)
    ensures b1 == HandleAction(b0, ActionMsg(1, "", Bytes([2]))) && b1.action.clock == 2
    ensures b2 == HandleAction(b1, ActionMsg(2, "", Bytes([3])))
    ensures b3 == HandleAction(b2, ActionMsg(1, "", Bytes([1])))
    ensures |b3.actionsQueued| == 3 && b3.actionsQueued[2] == ActionMsg(1, "", Bytes([1]))
  {
    var m, p, q := ActionMsg(1, "", Bytes([1])), ActionMsg(1, "", Bytes([2])), ActionMsg(2, "", Bytes([3]));
    assert m.payload.bytes[0] != p.payload.bytes[0] && m.payload.bytes[0] != q.payload.bytes[0] && p.payload.bytes[0] != q.payload.bytes[0];
    b1 := FirstTakes(b0, p);
    Takes(b1, q);
    b2 := HandleAction(b1, q);
    Takes(b2, m);
    b3 := HandleAction(b2, m);
  }

  lemma SendStep(c0: Cluster, run: seq<Move>, i: nat, payload: Payload)
    requires i < |run| && run[i] == Local(run[i].n, Send(payload)) && |payload.Content()| <= 9
    requires run[i].n < |At(c0, run, i).nodes| && At(c0, run, i).nodes[run[i].n].action.clock < MAX_LTIME
    ensures Happened(c0, run, i)
    ensures var s := At(c0, run, i).nodes[run[i].n];
      && IssuedAt(c0, run, i) == Some(Item(s.action.clock, 0, payload))
      && At(c0, run, i + 1).nodes ==
           At(c0, run, i).nodes[run[i].n := HandleAction(s, ActionMsg(s.action.clock, "", payload))]
  {
    AtNext(c0, run, i);
    SendNext(At(c0, run, i), run[i].n, payload);
  }

  lemma DeliverStep(c0: Cluster, run: seq<Move>, i: nat)
    requires i < |run| && run[i].DeliverAction?
    requires var c := At(c0, run, i);
      run[i].n < |c.nodes| && run[i].src < |c.nodes| && run[i].k < |c.nodes[run[i].src].actionsQueued|
    ensures Happened(c0, run, i)
    ensures var c := At(c0, run, i);
      && Delivered(c, run[i]) == ActionItem(c.nodes[run[i].src].actionsQueued[run[i].k])
      && At(c0, run, i + 1).nodes ==
           c.nodes[run[i].n := HandleAction(c.nodes[run[i].n], c.nodes[run[i].src].actionsQueued[run[i].k])]
  {
    AtNext(c0, run, i);
    DeliverNext(At(c0, run, i), run[i].n, run[i].src, run[i].k);
  }
}
