// The whole cluster as a transition system: nodes issue actions and queries,
// receive anything any node ever queued for broadcast - late, repeated, out of
// order or not at all - and merge any state any node ever sent.
module Cluster {
  import opened Wrappers
  import opened Lamport
  import opened Buffer
  import opened History
  import opened Gossip
  import opened NodeRuns
  import opened AntiEntropy

  // `states` lists the user states sent so far, `issued` the actions.
  datatype Cluster = Cluster(nodes: seq<NodeState>, states: seq<UserState>, issued: set<Item>)

  datatype Move =
    | Local(n: nat, op: NodeOp)
    | DeliverAction(n: nat, src: nat, k: nat)
    | DeliverQuery(n: nat, src: nat, k: nat, wanted: bool)
    | SendState(n: nat)
    | Pull(n: nat, k: nat)

  predicate Enabled(c: Cluster, mv: Move) {
    mv.n < |c.nodes| &&
    match mv
    case Local(n, op) =>
      if op.DoAction? then c.nodes[n].action.clock < MAX_LTIME
      else if op.DoQuery? then c.nodes[n].query.clock < MAX_LTIME
      else op.StartJoin? || op.EndJoin?
    case DeliverAction(_, src, k) => src < |c.nodes| && k < |c.nodes[src].actionsQueued|
    case DeliverQuery(_, src, k, _) => src < |c.nodes| && k < |c.nodes[src].queriesQueued|
    case SendState(_) => true
    case Pull(_, k) => k < |c.states|
  }

  // What the move does to its node.
  function NodeOps(c: Cluster, mv: Move): seq<NodeOp>
    requires Enabled(c, mv)
  {
    match mv
    case Local(_, op) => [op]
    case DeliverAction(_, src, k) => [ReceiveAction(c.nodes[src].actionsQueued[k])]
    case DeliverQuery(_, src, k, wanted) => [ReceiveQuery(c.nodes[src].queriesQueued[k], wanted)]
    case SendState(_) => []
    case Pull(_, k) => [DoMerge(c.states[k])]
  }

  // The action a move issues, if any.
  function Issues(c: Cluster, mv: Move): Option<Item>
    requires Enabled(c, mv)
  {
    if mv.Local? && mv.op.DoAction? && |mv.op.payload.Content()| <= mv.op.limit && mv.op.encodedLen <= mv.op.limit then
      Some(Item(c.nodes[mv.n].action.clock, 0, mv.op.payload))
    else None
  }

  function Moved(c: Cluster, mv: Move): Cluster
    requires Enabled(c, mv)
  {
    Cluster(
      c.nodes[mv.n := Run(c.nodes[mv.n], NodeOps(c, mv))],
      if mv.SendState? then c.states + [LocalState(c.nodes[mv.n])] else c.states,
      match Issues(c, mv) { case None => c.issued case Some(x) => c.issued + {x} })
  }

  // A move that is not possible changes nothing.
  function Next(c: Cluster, mv: Move): Cluster {
    if Enabled(c, mv) then Moved(c, mv) else c
  }

  function Exec(c: Cluster, moves: seq<Move>): Cluster {
    if moves == [] then c else Next(Exec(c, moves[..|moves| - 1]), moves[|moves| - 1])
  }

  function NewCluster(addrs: seq<string>, bufferSize: nat, lasts: seq<LTime>): Cluster
    requires bufferSize > 0 && |lasts| == |addrs|
  {
    Cluster(seq(|addrs|, i requires 0 <= i < |addrs| => NewNode(addrs[i], bufferSize, lasts[i])), [], {})
  }

  // --- What every reachable cluster satisfies --------------------------------

  // A sent state holds only issued actions, all below its clock.
  ghost predicate StateInv(c: Cluster, m: UserState) {
    forall x :: x in ActionItems(ReplayMsgs(m.actionBuffer)) ==> x in c.issued && x.ltime < m.actionLTime
  }

  ghost predicate NodeOk(c: Cluster, s: NodeState) {
    NodeInv(s) && forall x :: x in ActionItems(s.actionsQueued) ==> x in c.issued
  }

  ghost predicate Inv(c: Cluster) {
    (forall i :: 0 <= i < |c.nodes| ==> NodeOk(c, c.nodes[i])) &&
    forall k :: 0 <= k < |c.states| ==> StateInv(c, c.states[k])
  }

  lemma SentStateInv(c: Cluster, s: NodeState)
    requires NodeOk(c, s)
    ensures StateInv(c, LocalState(s))
  {
    var n := |s.action.ring|;
    assert CopyRing(s.action.ring)[..n] == CopyRing(s.action.ring);
    OfferedItems(s.action, ActionItems(s.actionsQueued), n);
  }

  lemma MoveNoWrap(c: Cluster, mv: Move)
    requires Inv(c) && Enabled(c, mv)
    ensures NoWrapRun(c.nodes[mv.n], NodeOps(c, mv))
  {
    var s, ops := c.nodes[mv.n], NodeOps(c, mv);
    if ops != [] {
      assert ops == [ops[0]];
      MoveStepNoWrap(c, mv);
      RunOne(s, ops[0]);
    }
  }

  lemma MoveStepNoWrap(c: Cluster, mv: Move)
    requires Inv(c) && Enabled(c, mv) && !mv.SendState?
    ensures NoWrapStep(c.nodes[mv.n], NodeOps(c, mv)[0])
  {
    match mv
    case Local(_, op) =>
    case DeliverAction(_, src, k) =>
      assert NodeOk(c, c.nodes[src]);
      assert ActionItems(c.nodes[src].actionsQueued)[k] in ActionItems(c.nodes[src].actionsQueued);
    case DeliverQuery(_, src, k, _) =>
      assert NodeOk(c, c.nodes[src]);
      assert QueryItems(c.nodes[src].queriesQueued)[k] in QueryItems(c.nodes[src].queriesQueued);
    case Pull(_, k) =>
      ReplayNoWrap(c, c.states[k]);
  }

  lemma ReplayNoWrap(c: Cluster, m: UserState)
    requires StateInv(c, m)
    ensures NoWraps(Offers(ReplayMsgs(m.actionBuffer)))
  {
    var msgs := ReplayMsgs(m.actionBuffer);
    forall j | 0 <= j < |msgs|
      ensures Offers(msgs)[j].NoWrap()
    {
      assert ActionItems(msgs)[j] in ActionItems(msgs);
    }
  }

  // Everything a gate accepts was offered to it.
  lemma {:induction false} AcceptedWasOffered(g: Gate, ops: seq<GateOp>)
    ensures forall x :: x in RunGate(g, ops).1 ==> OfferItem(x) in ops
  {
    if ops != [] {
      var front := ops[..|ops| - 1];
      AcceptedWasOffered(g, front);
      assert ops == front + [ops[|ops| - 1]];
    }
  }

  lemma PullOffersIssued(c: Cluster, s: NodeState, m: UserState, x: Item)
    requires StateInv(c, m) && OfferItem(x) in ActionOps(s, DoMerge(m))
    ensures x in c.issued
  {
    var msgs := ReplayMsgs(m.actionBuffer);
    assert OfferItem(x) in Offers(msgs);
    var j :| 0 <= j < |msgs| && Offers(msgs)[j] == OfferItem(x);
    assert ActionItems(msgs)[j] == x;
  }

  lemma StepOffersIssued(c: Cluster, mv: Move, x: Item)
    requires Inv(c) && Enabled(c, mv) && !mv.SendState?
    requires OfferItem(x) in ActionOps(c.nodes[mv.n], NodeOps(c, mv)[0])
    ensures x in c.issued || Issues(c, mv) == Some(x)
  {
    match mv
    case Local(_, op) =>
    case DeliverAction(_, src, k) =>
      assert NodeOk(c, c.nodes[src]);
      assert ActionItems(c.nodes[src].actionsQueued)[k] == x;
    case DeliverQuery(_, _, _, _) =>
    case Pull(_, k) =>
      assert StateInv(c, c.states[k]);
      PullOffersIssued(c, c.nodes[mv.n], c.states[k], x);
  }

  lemma MoveOffersIssued(c: Cluster, mv: Move, x: Item)
    requires Inv(c) && Enabled(c, mv)
    requires OfferItem(x) in AllActionOps(c.nodes[mv.n], NodeOps(c, mv))
    ensures x in Moved(c, mv).issued
  {
    if !mv.SendState? {
      var ops := NodeOps(c, mv);
      assert ops == [ops[0]];
      RunOne(c.nodes[mv.n], ops[0]);
      StepOffersIssued(c, mv, x);
    }
  }

  lemma MovedTakesIssued(c: Cluster, mv: Move)
    requires Inv(c) && Enabled(c, mv)
    ensures forall x :: x in ActionItems(Moved(c, mv).nodes[mv.n].actionsQueued) ==> x in Moved(c, mv).issued
  {
    var s, ops := c.nodes[mv.n], NodeOps(c, mv);
    assert NodeOk(c, s);
    RunFollows(s, ops);
    var gops := AllActionOps(s, ops);
    AcceptedWasOffered(s.action, gops);
    forall x | x in RunGate(s.action, gops).1
      ensures x in Moved(c, mv).issued
    {
      MoveOffersIssued(c, mv, x);
    }
  }

  lemma MovedNodeOk(c: Cluster, mv: Move)
    requires Inv(c) && Enabled(c, mv)
    ensures NodeOk(Moved(c, mv), Moved(c, mv).nodes[mv.n])
    ensures c.nodes[mv.n].action.clock <= Moved(c, mv).nodes[mv.n].action.clock
  {
    assert NodeOk(c, c.nodes[mv.n]);
    MoveNoWrap(c, mv);
    RunKeepsInv(c.nodes[mv.n], NodeOps(c, mv));
    MovedTakesIssued(c, mv);
  }

  lemma NextKeepsInv(c: Cluster, mv: Move)
    requires Inv(c)
    ensures Inv(Next(c, mv)) && |Next(c, mv).nodes| == |c.nodes|
    ensures forall i :: 0 <= i < |c.nodes| ==> c.nodes[i].action.clock <= Next(c, mv).nodes[i].action.clock
  {
    if Enabled(c, mv) {
      var c' := Moved(c, mv);
      MovedNodeOk(c, mv);
      assert NodeOk(c, c.nodes[mv.n]);
      SentStateInv(c, c.nodes[mv.n]);
      forall i | 0 <= i < |c'.nodes|
        ensures NodeOk(c', c'.nodes[i])
      {
        assert i != mv.n ==> NodeOk(c, c.nodes[i]);
      }
      forall k | 0 <= k < |c'.states|
        ensures StateInv(c', c'.states[k])
      {
        assert k < |c.states| ==> StateInv(c, c.states[k]);
      }
    }
  }

  lemma {:induction false} ExecKeepsInv(c: Cluster, moves: seq<Move>)
    requires Inv(c)
    ensures Inv(Exec(c, moves)) && |Exec(c, moves).nodes| == |c.nodes|
  {
    if moves != [] {
      ExecKeepsInv(c, moves[..|moves| - 1]);
      NextKeepsInv(Exec(c, moves[..|moves| - 1]), moves[|moves| - 1]);
    }
  }

  lemma NewClusterInv(addrs: seq<string>, bufferSize: nat, lasts: seq<LTime>)
    requires bufferSize > 0 && |lasts| == |addrs|
    ensures Inv(NewCluster(addrs, bufferSize, lasts))
  {
    forall i | 0 <= i < |addrs| {
      NewNodeInv(addrs[i], bufferSize, lasts[i]);
    }
  }

  // How often the nodes together have queued an item.
  ghost function TimesQueued(nodes: seq<NodeState>, x: Item): nat {
    if nodes == [] then 0
    else TimesQueued(nodes[..|nodes| - 1], x) + multiset(ActionItems(nodes[|nodes| - 1].actionsQueued))[x]
  }

  lemma {:induction false} QueuedPerNode(nodes: seq<NodeState>, x: Item)
    requires forall i :: 0 <= i < |nodes| ==> NodeInv(nodes[i])
    ensures TimesQueued(nodes, x) <= |nodes|
  {
    if nodes != [] {
      QueuedPerNode(nodes[..|nodes| - 1], x);
      AcceptedOnce(ActionItems(nodes[|nodes| - 1].actionsQueued), x);
    }
  }

  // In every cluster run an action is put on the broadcast queues at most once
  // per node, and only actions some node issued are ever queued or emitted.
  lemma GossipIsBoundedAndHonest(addrs: seq<string>, bufferSize: nat, lasts: seq<LTime>, moves: seq<Move>, x: Item)
    requires bufferSize > 0 && |lasts| == |addrs|
    ensures var c := Exec(NewCluster(addrs, bufferSize, lasts), moves);
      && TimesQueued(c.nodes, x) <= |addrs|
      && forall i, y :: 0 <= i < |c.nodes| && y in ActionItems(ActionsIn(c.nodes[i].events)) ==> y in c.issued
  {
    var c0 := NewCluster(addrs, bufferSize, lasts);
    NewClusterInv(addrs, bufferSize, lasts);
    ExecKeepsInv(c0, moves);
    var c := Exec(c0, moves);
    assert forall i :: 0 <= i < |c.nodes| ==> NodeOk(c, c.nodes[i]);
    QueuedPerNode(c.nodes, x);
  }
}
