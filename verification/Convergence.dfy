// What anti-entropy achieves in the whole cluster: where it converges, and a run
// in which it does not.
module Convergence {
  import opened Lamport
  import opened Buffer
  import opened History
  import opened Gossip
  import opened NodeRuns
  import opened AntiEntropy
  import opened Cluster
  import opened Causality

  // --- Runs of exchanges -----------------------------------------------------

  // cs[k] is the cluster before move k.
  ghost predicate IsRun(cs: seq<Cluster>, moves: seq<Move>) {
    |cs| == |moves| + 1 && forall k :: 0 <= k < |moves| ==> NextAt(cs, moves, k)
  }

  ghost predicate NextAt(cs: seq<Cluster>, moves: seq<Move>, k: nat)
    requires k < |moves| && k + 1 < |cs|
  {
    cs[k + 1] == Next(cs[k], moves[k])
  }

  // A run in which every move sends a state or merges one, starting from nodes
  // between which merging is the join.
  ghost predicate Exchanges(cs: seq<Cluster>, moves: seq<Move>, n: nat, floor: LTime) {
    && IsRun(cs, moves)
    && (forall i :: 0 <= i < |moves| ==> moves[i].SendState? || moves[i].Pull?)
    && cs[0].states == []
    && forall i :: 0 <= i < |cs[0].nodes| ==> Ordinary(cs[0].nodes[i], n, floor)
  }

  lemma SendStateNext(c: Cluster, n: nat)
    requires n < |c.nodes|
    ensures Enabled(c, SendState(n)) && Next(c, SendState(n)) == c.(states := c.states + [LocalState(c.nodes[n])])
  {
    assert c.nodes[n := Run(c.nodes[n], [])] == c.nodes;
  }

  lemma PullNext(c: Cluster, n: nat, k: nat)
    requires n < |c.nodes| && k < |c.states|
    ensures Enabled(c, Pull(n, k)) && Next(c, Pull(n, k)) == c.(nodes := c.nodes[n := Merge(c.nodes[n], c.states[k])])
  {
    RunOne(c.nodes[n], DoMerge(c.states[k]));
  }

  // Sending adds a state, and merging changes one node.
  lemma ExchangeNext(c: Cluster, mv: Move)
    requires mv.SendState? || mv.Pull?
    ensures mv.SendState? && mv.n < |c.nodes| ==> Next(c, mv) == c.(states := c.states + [LocalState(c.nodes[mv.n])])
    ensures mv.Pull? && mv.n < |c.nodes| && mv.k < |c.states| ==>
              Next(c, mv) == c.(nodes := c.nodes[mv.n := Merge(c.nodes[mv.n], c.states[mv.k])])
    ensures !Enabled(c, mv) ==> Next(c, mv) == c
    ensures Enabled(c, mv) <==> mv.n < |c.nodes| && (mv.Pull? ==> mv.k < |c.states|)
  {
    if mv.n < |c.nodes| {
      if mv.SendState? {
        SendStateNext(c, mv.n);
      } else if mv.k < |c.states| {
        PullNext(c, mv.n, mv.k);
      }
    }
  }

  predicate Sends(cs: seq<Cluster>, moves: seq<Move>, k: nat) {
    k < |moves| && k < |cs| && moves[k].SendState? && moves[k].n < |cs[k].nodes|
  }

  // The moves that sent the states there are before move m, in order.
  function Senders(cs: seq<Cluster>, moves: seq<Move>, m: nat): (senders: seq<nat>)
    ensures forall k :: 0 <= k < |senders| ==> senders[k] < m && Sends(cs, moves, senders[k])
  {
    if m == 0 then []
    else Senders(cs, moves, m - 1) + if Sends(cs, moves, m - 1) then [m - 1] else []
  }

  // State k is the one its sender had when it sent it.
  ghost predicate IsSent(cs: seq<Cluster>, moves: seq<Move>, m: nat, k: nat)
    requires m < |cs| && k < |Senders(cs, moves, m)| == |cs[m].states|
  {
    var s := Senders(cs, moves, m)[k];
    cs[m].states[k] == LocalState(cs[s].nodes[moves[s].n]) && |cs[s].states| == k
  }

  lemma {:induction false} SendersSent(cs: seq<Cluster>, moves: seq<Move>, n: nat, floor: LTime, m: nat)
    requires Exchanges(cs, moves, n, floor) && m <= |moves|
    ensures |cs[m].nodes| == |cs[0].nodes| && |Senders(cs, moves, m)| == |cs[m].states|
    ensures forall k :: 0 <= k < |cs[m].states| ==> IsSent(cs, moves, m, k)
  {
    if m > 0 {
      SendersSent(cs, moves, n, floor, m - 1);
      assert NextAt(cs, moves, m - 1);
      ExchangeNext(cs[m - 1], moves[m - 1]);
      forall k | 0 <= k < |cs[m].states|
        ensures IsSent(cs, moves, m, k)
      {
        assert k < |cs[m - 1].states| ==> IsSent(cs, moves, m - 1, k);
      }
    }
  }

  // --- Who has heard of whom -------------------------------------------------

  // Node i merges a state in move m.
  predicate Pulls(cs: seq<Cluster>, moves: seq<Move>, m: nat, i: nat) {
    m < |moves| && moves[m].Pull? && moves[m].n == i && moves[m].k < |Senders(cs, moves, m)|
  }

  // The nodes whose initial knowledge has come to node i before move m.
  function Heard(cs: seq<Cluster>, moves: seq<Move>, m: nat, i: nat): set<nat>
    decreases m
  {
    if m == 0 then {i}
    else
      Heard(cs, moves, m - 1, i) +
      if Pulls(cs, moves, m - 1, i) then
        var s := Senders(cs, moves, m - 1)[moves[m - 1].k];
        Heard(cs, moves, s, moves[s].n)
      else {}
  }

  lemma UntouchedNode(cs: seq<Cluster>, moves: seq<Move>, n: nat, floor: LTime, m: nat, i: nat)
    requires Exchanges(cs, moves, n, floor) && m < |moves| && i < |cs[0].nodes| && !Pulls(cs, moves, m, i)
    ensures |cs[m].nodes| == |cs[m + 1].nodes| == |cs[0].nodes|
    ensures cs[m + 1].nodes[i] == cs[m].nodes[i]
  {
    SendersSent(cs, moves, n, floor, m);
    assert NextAt(cs, moves, m);
    ExchangeNext(cs[m], moves[m]);
  }

  lemma PulledNode(cs: seq<Cluster>, moves: seq<Move>, n: nat, floor: LTime, m: nat, i: nat) returns (s: nat)
    requires Exchanges(cs, moves, n, floor) && m < |moves| && i < |cs[0].nodes| && Pulls(cs, moves, m, i)
    ensures s == Senders(cs, moves, m)[moves[m].k] && s < m && Sends(cs, moves, s) && |cs[s].states| == moves[m].k
    ensures |cs[s].nodes| == |cs[m].nodes| == |cs[m + 1].nodes| == |cs[0].nodes|
    ensures cs[m + 1].nodes[i] == Merge(cs[m].nodes[i], LocalState(cs[s].nodes[moves[s].n]))
  {
    SendersSent(cs, moves, n, floor, m);
    assert IsSent(cs, moves, m, moves[m].k);
    s := Senders(cs, moves, m)[moves[m].k];
    SendersSent(cs, moves, n, floor, s);
    assert NextAt(cs, moves, m);
    ExchangeNext(cs[m], moves[m]);
  }

  ghost function Initial(cs: seq<Cluster>, of: set<nat>): set<NodeState>
    requires cs != []
  {
    set i | i in of && i < |cs[0].nodes| :: cs[0].nodes[i]
  }

  lemma PoolsJoin(n: nat, a: set<NodeState>, v: View, b: set<NodeState>, w: View)
    requires Pooled(n, a, v) && Pooled(n, b, w)
    ensures Pooled(n, a + b, Join(n, v, w))
  {
    var u := Join(n, v, w);
    var p :| p in a && v.clock == p.action.clock;
    var q :| q in b && w.clock == q.action.clock;
    assert p in a + b && q in a + b;
    forall x | x in u.items
      ensures exists r :: r in a + b && x in ViewOf(r.action).items
    {
      if x in v.items {
        var r :| r in a && x in ViewOf(r.action).items;
        assert r in a + b;
      } else {
        var r :| r in b && x in ViewOf(r.action).items;
        assert r in a + b;
      }
    }
  }

  // The ordinary nodes whose view is pooled from those of the given ones.
  ghost function Knowing(n: nat, floor: LTime, nodes: set<NodeState>): iset<NodeState> {
    iset s: NodeState | Ordinary(s, n, floor) && Pooled(n, nodes, ViewOf(s.action))
  }

  lemma MergeKnows(a: NodeState, b: NodeState, n: nat, floor: LTime, nodesA: set<NodeState>, nodesB: set<NodeState>)
    requires a in Knowing(n, floor, nodesA) && b in Knowing(n, floor, nodesB)
    ensures Merge(a, LocalState(b)) in Knowing(n, floor, nodesA + nodesB)
  {
    MergeIsJoin(a, b, n, floor);
    PoolsJoin(n, nodesA, ViewOf(a.action), nodesB, ViewOf(b.action));
  }

  lemma MergeKnowsBoth(cs: seq<Cluster>, a: NodeState, b: NodeState, n: nat, floor: LTime, before: set<nat>, sent: set<nat>)
    requires cs != []
    requires a in Knowing(n, floor, Initial(cs, before)) && b in Knowing(n, floor, Initial(cs, sent))
    ensures Merge(a, LocalState(b)) in Knowing(n, floor, Initial(cs, before + sent))
  {
    MergeKnows(a, b, n, floor, Initial(cs, before), Initial(cs, sent));
    assert Initial(cs, before + sent) == Initial(cs, before) + Initial(cs, sent);
  }

  lemma PullIsKnown(cs: seq<Cluster>, moves: seq<Move>, n: nat, floor: LTime, m: nat, i: nat, mine: NodeState, theirs: NodeState)
    requires cs != [] && Pulls(cs, moves, m, i)
    requires var s := Senders(cs, moves, m)[moves[m].k];
      && mine in Knowing(n, floor, Initial(cs, Heard(cs, moves, m, i)))
      && theirs in Knowing(n, floor, Initial(cs, Heard(cs, moves, s, moves[s].n)))
    ensures Merge(mine, LocalState(theirs)) in Knowing(n, floor, Initial(cs, Heard(cs, moves, m + 1, i)))
  {
    var s := Senders(cs, moves, m)[moves[m].k];
    MergeKnowsBoth(cs, mine, theirs, n, floor, Heard(cs, moves, m, i), Heard(cs, moves, s, moves[s].n));
  }

  // Each node's view is pooled from the initial views of those it has heard of.
  lemma {:induction false} HeardIsKnown(cs: seq<Cluster>, moves: seq<Move>, n: nat, floor: LTime, m: nat, i: nat)
    requires Exchanges(cs, moves, n, floor) && m <= |moves| && i < |cs[0].nodes|
    ensures |cs[m].nodes| == |cs[0].nodes|
    ensures cs[m].nodes[i] in Knowing(n, floor, Initial(cs, Heard(cs, moves, m, i)))
    decreases m
  {
    if m == 0 {
      StartIsKnown(cs, moves, n, floor, i);
    } else {
      HeardIsKnown(cs, moves, n, floor, m - 1, i);
      if Pulls(cs, moves, m - 1, i) {
        var s := PulledNode(cs, moves, n, floor, m - 1, i);
        HeardIsKnown(cs, moves, n, floor, s, moves[s].n);
        PullIsKnown(cs, moves, n, floor, m - 1, i, cs[m - 1].nodes[i], cs[s].nodes[moves[s].n]);
      } else {
        UntouchedNode(cs, moves, n, floor, m - 1, i);
      }
    }
  }

  lemma StartIsKnown(cs: seq<Cluster>, moves: seq<Move>, n: nat, floor: LTime, i: nat)
    requires Exchanges(cs, moves, n, floor) && i < |cs[0].nodes|
    ensures cs[0].nodes[i] in Knowing(n, floor, Initial(cs, {i}))
  {
    var s := cs[0].nodes[i];
    assert Initial(cs, {i}) == {s};
    assert Pooled(n, {s}, ViewOf(s.action)) by {
      assert s in {s};
    }
  }

  // --- Chains ------------------------------------------------------------------

  // One move sends a state and a later one merges it, or both are moves of one
  // node.
  ghost predicate Link(cs: seq<Cluster>, moves: seq<Move>, a: nat, b: nat) {
    a < b < |moves| < |cs| &&
    (moves[a].n == moves[b].n ||
     (Sends(cs, moves, a) && moves[b].Pull? && moves[b].k == |cs[a].states|))
  }

  // A chain of moves, each linked to the next.
  ghost predicate Linked(cs: seq<Cluster>, moves: seq<Move>, p: seq<nat>) {
    |p| > 0 && p[0] < |moves| && forall k :: 0 <= k < |p| - 1 ==> LinkAt(cs, moves, p, k)
  }

  ghost predicate LinkAt(cs: seq<Cluster>, moves: seq<Move>, p: seq<nat>, k: nat)
    requires k + 1 < |p|
  {
    Link(cs, moves, p[k], p[k + 1])
  }

  // A chain from a move of node j to a move of node i before move m.
  ghost predicate Leads(cs: seq<Cluster>, moves: seq<Move>, m: nat, j: nat, i: nat, p: seq<nat>) {
    && Linked(cs, moves, p)
    && moves[p[0]].n == j && p[|p| - 1] < m && p[|p| - 1] < |moves| && moves[p[|p| - 1]].n == i
  }

  // Node i is node j, or a chain leads from j to i.
  ghost predicate Reaches(cs: seq<Cluster>, moves: seq<Move>, m: nat, j: nat, i: nat) {
    j == i || exists p :: Leads(cs, moves, m, j, i, p)
  }

  lemma LinkedMore(cs: seq<Cluster>, moves: seq<Move>, p: seq<nat>, q: nat)
    requires Linked(cs, moves, p) && Link(cs, moves, p[|p| - 1], q)
    ensures Linked(cs, moves, p + [q])
  {
    var p' := p + [q];
    forall k | 0 <= k < |p'| - 1
      ensures LinkAt(cs, moves, p', k)
    {
      assert k < |p| - 1 ==> LinkAt(cs, moves, p, k);
    }
  }

  lemma {:induction false} HeardIsReached(cs: seq<Cluster>, moves: seq<Move>, n: nat, floor: LTime, m: nat, j: nat, i: nat)
    requires Exchanges(cs, moves, n, floor) && m <= |moves| && i < |cs[0].nodes|
    requires j in Heard(cs, moves, m, i)
    ensures Reaches(cs, moves, m, j, i)
    decreases m
  {
    if m == 0 || j == i {
    } else if j in Heard(cs, moves, m - 1, i) {
      HeardIsReached(cs, moves, n, floor, m - 1, j, i);
      var p :| Leads(cs, moves, m - 1, j, i, p);
      assert Leads(cs, moves, m, j, i, p);
    } else {
      var s := PulledNode(cs, moves, n, floor, m - 1, i);
      HeardIsReached(cs, moves, n, floor, s, j, moves[s].n);
      ReachesFurther(cs, moves, s, m - 1, j);
    }
  }

  // A move that merges what move s sent is reached by whatever reaches s's node.
  lemma ReachesFurther(cs: seq<Cluster>, moves: seq<Move>, s: nat, b: nat, j: nat)
    requires Link(cs, moves, s, b) && Reaches(cs, moves, s, j, moves[s].n)
    ensures Reaches(cs, moves, b + 1, j, moves[b].n)
  {
    var p := [s];
    if j != moves[s].n {
      var q :| Leads(cs, moves, s, j, moves[s].n, q);
      LinkedMore(cs, moves, q, s);
      p := q + [s];
    }
    LinkedMore(cs, moves, p, b);
    assert Leads(cs, moves, b + 1, j, moves[b].n, p + [b]);
  }

  lemma {:induction false} HeardGrows(cs: seq<Cluster>, moves: seq<Move>, m: nat, m': nat, i: nat)
    requires m <= m'
    ensures Heard(cs, moves, m, i) <= Heard(cs, moves, m', i)
    decreases m'
  {
    if m < m' {
      HeardGrows(cs, moves, m, m' - 1, i);
    }
  }

  lemma {:induction false} SenderStays(cs: seq<Cluster>, moves: seq<Move>, s: nat, m: nat)
    requires s < m && Sends(cs, moves, s)
    ensures |Senders(cs, moves, s)| < |Senders(cs, moves, m)| && Senders(cs, moves, m)[|Senders(cs, moves, s)|] == s
  {
    if s < m - 1 {
      SenderStays(cs, moves, s, m - 1);
    }
  }

  // What one end of a link has heard, the other end has heard after it.
  lemma LinkIsHeard(cs: seq<Cluster>, moves: seq<Move>, n: nat, floor: LTime, a: nat, b: nat)
    requires Exchanges(cs, moves, n, floor) && Link(cs, moves, a, b)
    ensures Heard(cs, moves, a + 1, moves[a].n) <= Heard(cs, moves, b + 1, moves[b].n)
  {
    if moves[a].n == moves[b].n {
      HeardGrows(cs, moves, a + 1, b + 1, moves[a].n);
    } else {
      SendersSent(cs, moves, n, floor, a);
      SenderStays(cs, moves, a, b);
    }
  }

  lemma {:induction false} ChainIsHeard(cs: seq<Cluster>, moves: seq<Move>, n: nat, floor: LTime, p: seq<nat>)
    requires Exchanges(cs, moves, n, floor) && Linked(cs, moves, p)
    ensures p[|p| - 1] < |moves|
    ensures moves[p[0]].n in Heard(cs, moves, p[|p| - 1] + 1, moves[p[|p| - 1]].n)
    decreases |p|
  {
    if |p| == 1 {
      HeardGrows(cs, moves, 0, p[0] + 1, moves[p[0]].n);
    } else {
      var front, k := p[..|p| - 1], |p| - 2;
      forall l | 0 <= l < |front| - 1
        ensures LinkAt(cs, moves, front, l)
      {
        assert LinkAt(cs, moves, p, l);
      }
      ChainIsHeard(cs, moves, n, floor, front);
      assert LinkAt(cs, moves, p, k);
      LinkIsHeard(cs, moves, n, floor, p[k], p[k + 1]);
    }
  }

  lemma HeardIffReaches(cs: seq<Cluster>, moves: seq<Move>, n: nat, floor: LTime, j: nat, i: nat)
    requires Exchanges(cs, moves, n, floor) && i < |cs[0].nodes|
    ensures j in Heard(cs, moves, |moves|, i) <==> Reaches(cs, moves, |moves|, j, i)
  {
    if j in Heard(cs, moves, |moves|, i) {
      HeardIsReached(cs, moves, n, floor, |moves|, j, i);
    }
    if j == i {
      HeardGrows(cs, moves, 0, |moves|, i);
    } else if Reaches(cs, moves, |moves|, j, i) {
      var p :| Leads(cs, moves, |moves|, j, i, p);
      ChainIsHeard(cs, moves, n, floor, p);
      HeardGrows(cs, moves, p[|p| - 1] + 1, |moves|, i);
    }
  }

  ghost function Reaching(cs: seq<Cluster>, moves: seq<Move>, i: nat): set<nat>
    requires cs != []
  {
    set j | 0 <= j < |cs[0].nodes| && Reaches(cs, moves, |moves|, j, i)
  }

  // In every run of exchanges, through states of any age merged in any order
  // and any number of times, a node knows in the end exactly what the nodes that
  // reach it by a chain knew at the start, cut to the window of the largest of
  // their clocks.
  lemma KnowsWhatReachesIt(cs: seq<Cluster>, moves: seq<Move>, n: nat, floor: LTime, i: nat)
    requires Exchanges(cs, moves, n, floor) && i < |cs[0].nodes|
    ensures |cs[|moves|].nodes| == |cs[0].nodes|
    ensures Pooled(n, Initial(cs, Reaching(cs, moves, i)), ViewOf(cs[|moves|].nodes[i].action))
  {
    HeardIsKnown(cs, moves, n, floor, |moves|, i);
    forall j: nat | j < |cs[0].nodes|
      ensures j in Heard(cs, moves, |moves|, i) <==> j in Reaching(cs, moves, i)
    {
      HeardIffReaches(cs, moves, n, floor, j, i);
    }
    assert Initial(cs, Heard(cs, moves, |moves|, i)) == Initial(cs, Reaching(cs, moves, i));
  }

  // So nodes that the same nodes reach - in particular, nodes that all reach -
  // end with the same view.
  lemma EquallyReachedAgree(cs: seq<Cluster>, moves: seq<Move>, n: nat, floor: LTime, i: nat, k: nat)
    requires Exchanges(cs, moves, n, floor) && i < |cs[0].nodes| && k < |cs[0].nodes|
    requires Reaching(cs, moves, i) == Reaching(cs, moves, k)
    ensures |cs[|moves|].nodes| == |cs[0].nodes|
    ensures ViewOf(cs[|moves|].nodes[i].action) == ViewOf(cs[|moves|].nodes[k].action)
  {
    KnowsWhatReachesIt(cs, moves, n, floor, i);
    KnowsWhatReachesIt(cs, moves, n, floor, k);
    SamePool(n, Initial(cs, Reaching(cs, moves, i)), ViewOf(cs[|moves|].nodes[i].action), ViewOf(cs[|moves|].nodes[k].action));
  }

  lemma SamePool(n: nat, nodes: set<NodeState>, v: View, w: View)
    requires Pooled(n, nodes, v) && Pooled(n, nodes, w)
    ensures v == w
  {
    assert v.items == w.items;
  }

  // --- Where it does not -------------------------------------------------------

  // Two new nodes issue an action each, one of them without a payload, and then
  // exchange their states.
  function NilRun(): seq<Move> {
    [Local(0, Send(Nil)),
     Local(1, Send(Bytes([7]))),
     SendState(0),
     SendState(1),
     Pull(0, 1),
     Pull(1, 0)]
  }

  // What a new node knows after its first action.
  lemma FirstView(addr: string, a: ActionMsg)
    requires a.ltime == 1
    ensures var s := HandleAction(NewNode(addr, 4, 0), a);
      NodeInv(s) && |s.action.ring| == 4 && ViewOf(s.action) == View(2, {ActionItem(a)})
  {
    var s0 := NewNode(addr, 4, 0);
    var s := HandleAction(s0, a);
    NewNodeInv(addr, 4, 0);
    OfferRefinesHistory(s0.action, [], ActionItem(a));
    HandleActionMatches(s0, a);
    assert ActionItems(s.actionsQueued) == [ActionItem(a)];
    ViewIsRecentHistory(s.action, [ActionItem(a)]);
  }

  // Both send, then both merge.
  lemma FullExchange(c: Cluster, a: NodeState, b: NodeState)
    requires c.nodes == [a, b] && c.states == []
    ensures Next(Next(Next(Next(c, SendState(0)), SendState(1)), Pull(0, 1)), Pull(1, 0)).nodes ==
            [Merge(a, LocalState(b)), Merge(b, LocalState(a))]
  {
    SendStateNext(c, 0);
    var c1 := Next(c, SendState(0));
    SendStateNext(c1, 1);
    var c2 := Next(c1, SendState(1));
    assert c2.states == [LocalState(a), LocalState(b)];
    PullNext(c2, 0, 1);
    var c3 := Next(c2, Pull(0, 1));
    PullNext(c3, 1, 0);
  }

  lemma NilRunStarts(a: NodeState, b: NodeState)
    requires a == HandleAction(NewNode("a", 4, 0), ActionMsg(1, "", Nil))
    requires b == HandleAction(NewNode("b", 4, 0), ActionMsg(1, "", Bytes([7])))
    ensures var c := At(NewCluster(["a", "b"], 4, [0, 0]), NilRun(), 2);
      c.nodes == [a, b] && c.states == []
  {
    var c0, run := NewCluster(["a", "b"], 4, [0, 0]), NilRun();
    assert At(c0, run, 0) == c0;
    AtNext(c0, run, 0);
    SendNext(c0, 0, Nil);
    var c1 := At(c0, run, 1);
    assert c1.nodes == [a, NewNode("b", 4, 0)] && c1.states == [];
    AtNext(c0, run, 1);
    SendNext(c1, 1, Bytes([7]));
  }

  lemma FourMore(c0: Cluster, moves: seq<Move>, i: nat)
    requires i + 4 <= |moves|
    ensures At(c0, moves, i + 4) ==
            Next(Next(Next(Next(At(c0, moves, i), moves[i]), moves[i + 1]), moves[i + 2]), moves[i + 3])
  {
    AtNext(c0, moves, i);
    AtNext(c0, moves, i + 1);
    AtNext(c0, moves, i + 2);
    AtNext(c0, moves, i + 3);
  }

  lemma EndsInExchange(c0: Cluster, run: seq<Move>, a: NodeState, b: NodeState)
    requires |run| == 6 && run[2..] == [SendState(0), SendState(1), Pull(0, 1), Pull(1, 0)]
    requires At(c0, run, 2).nodes == [a, b] && At(c0, run, 2).states == []
    ensures Exec(c0, run).nodes == [Merge(a, LocalState(b)), Merge(b, LocalState(a))]
  {
    assert run[2] == run[2..][0] && run[3] == run[2..][1] && run[4] == run[2..][2] && run[5] == run[2..][3];
    FourMore(c0, run, 2);
    FullExchange(At(c0, run, 2), a, b);
    assert run[..6] == run;
  }

  lemma NilRunNodes(a: NodeState, b: NodeState)
    requires a == HandleAction(NewNode("a", 4, 0), ActionMsg(1, "", Nil))
    requires b == HandleAction(NewNode("b", 4, 0), ActionMsg(1, "", Bytes([7])))
    ensures Exec(NewCluster(["a", "b"], 4, [0, 0]), NilRun()).nodes == [Merge(a, LocalState(b)), Merge(b, LocalState(a))]
  {
    NilRunStarts(a, b);
    EndsInExchange(NewCluster(["a", "b"], 4, [0, 0]), NilRun(), a, b);
  }

  lemma MaskedPairDiverges(a: NodeState, b: NodeState, x: Item, y: Item)
    requires NodeInv(a) && NodeInv(b) && |a.action.ring| == |b.action.ring| == 4
    requires ViewOf(a.action) == View(2, {x}) && ViewOf(b.action) == View(2, {y}) && x != y && Masks(x, y)
    ensures Merge(a, LocalState(b)).action.clock == Merge(b, LocalState(a)).action.clock
    ensures ViewOf(Merge(a, LocalState(b)).action) != ViewOf(Merge(b, LocalState(a)).action)
  {
    MaskedItemDiverges(a, b, x, y);
    MergeIsWithin(a, b);
    MergeIsWithin(b, a);
  }

  // From a new cluster, a full exchange can leave its two sides with different
  // views, for the same clock.
  lemma NilPayloadDiverges()
    ensures var c := Exec(NewCluster(["a", "b"], 4, [0, 0]), NilRun());
      && |c.nodes| == 2 && c.nodes[0].action.clock == c.nodes[1].action.clock
      && ViewOf(c.nodes[0].action) != ViewOf(c.nodes[1].action)
  {
    var msgA, msgB := ActionMsg(1, "", Nil), ActionMsg(1, "", Bytes([7]));
    var a, b := HandleAction(NewNode("a", 4, 0), msgA), HandleAction(NewNode("b", 4, 0), msgB);
    FirstView("a", msgA);
    FirstView("b", msgB);
    NilRunNodes(a, b);
    MaskedPairDiverges(a, b, ActionItem(msgA), ActionItem(msgB));
  }
}
