// What a node does over any sequence of local calls, received messages and
// merges.
module NodeRuns {
  import opened Lamport
  import opened Buffer
  import opened History
  import opened Gossip

  datatype NodeOp =
    | DoAction(name: string, payload: Payload, encodedLen: nat, limit: nat)
    | ReceiveAction(a: ActionMsg)
    | DoQuery(id: QueryId, qname: string, qpayload: Payload, wanted: bool, encodedLen: nat, limit: nat)
    | ReceiveQuery(q: QueryMsg, wanted: bool)
    | DoMerge(m: UserState)
    | StartJoin(addr: string, ignore: bool)
    | EndJoin(addr: string)

  function Step(s: NodeState, op: NodeOp): NodeState {
    match op
    case DoAction(name, payload, len, limit) => Action(s, name, payload, len, limit).0
    case ReceiveAction(a) => HandleAction(s, a)
    case DoQuery(id, name, payload, wanted, len, limit) => Query(s, id, name, payload, wanted, len, limit).0
    case ReceiveQuery(q, wanted) => HandleQuery(s, q, wanted)
    case DoMerge(m) => Merge(s, m)
    case StartJoin(addr, ignore) => SetJoin(s, addr, ignore)
    case EndJoin(addr) => UnsetJoin(s, addr)
  }

  function Run(s: NodeState, ops: seq<NodeOp>): NodeState {
    if ops == [] then s else Step(Run(s, ops[..|ops| - 1]), ops[|ops| - 1])
  }

  function ActionItems(msgs: seq<ActionMsg>): seq<Item> {
    seq(|msgs|, k requires 0 <= k < |msgs| => ActionItem(msgs[k]))
  }

  function QueryItems(msgs: seq<QueryMsg>): seq<Item> {
    seq(|msgs|, k requires 0 <= k < |msgs| => QueryItem(msgs[k]))
  }

  // --- A node operation as operations on its two gates -----------------------

  function Offers(msgs: seq<ActionMsg>): seq<GateOp> {
    seq(|msgs|, k requires 0 <= k < |msgs| => OfferItem(ActionItem(msgs[k])))
  }

  function SeeBelow(t: LTime): seq<GateOp> {
    if t > 0 then [See(t - 1)] else []
  }

  function RaiseOps(s: NodeState, m: UserState): seq<GateOp> {
    if IsSet(s.joining, m.from) && IsSet(s.ignoreActOnJoin, m.from) then [Raise(m.actionLTime)] else []
  }

  function ActionOps(s: NodeState, op: NodeOp): seq<GateOp> {
    match op
    case DoAction(name, payload, len, limit) =>
      if |payload.Content()| > limit || len > limit then []
      else [OfferItem(Item(s.action.clock, 0, payload))]
    case ReceiveAction(a) => [OfferItem(ActionItem(a))]
    case DoMerge(m) =>
      SeeBelow(m.actionLTime) + RaiseOps(s, m) + Offers(ReplayMsgs(m.actionBuffer))
    case _ => []
  }

  function QueryOps(s: NodeState, op: NodeOp): seq<GateOp> {
    match op
    case DoQuery(id, name, payload, wanted, len, limit) =>
      if |payload.Content()| > limit || len > limit then []
      else [OfferItem(Item(s.query.clock, id, Nil))]
    case ReceiveQuery(q, wanted) => [OfferItem(QueryItem(q))]
    case DoMerge(m) => SeeBelow(m.queryLTime)
    case _ => []
  }

  // No step witnesses the largest 64-bit time.
  predicate NoWrapStep(s: NodeState, op: NodeOp) {
    NoWraps(ActionOps(s, op)) && NoWraps(QueryOps(s, op))
  }

  predicate NoWrapRun(s: NodeState, ops: seq<NodeOp>) {
    ops == [] || (NoWrapRun(s, ops[..|ops| - 1]) && NoWrapStep(Run(s, ops[..|ops| - 1]), ops[|ops| - 1]))
  }

  // The gate has gone through ops, and its accepted items have grown by
  // exactly what it accepted on the way.
  ghost predicate GateFollows(g: Gate, h: seq<Item>, g': Gate, h': seq<Item>, ops: seq<GateOp>) {
    g' == RunGate(g, ops).0 && h' == h + RunGate(g, ops).1
  }

  ghost predicate Follows(s: NodeState, s': NodeState, aops: seq<GateOp>, qops: seq<GateOp>) {
    && GateFollows(s.action, ActionItems(s.actionsQueued), s'.action, ActionItems(s'.actionsQueued), aops)
    && GateFollows(s.query, QueryItems(s.queriesQueued), s'.query, QueryItems(s'.queriesQueued), qops)
  }

  lemma GateFollowsTrans(g: Gate, h: seq<Item>, g1: Gate, h1: seq<Item>, g2: Gate, h2: seq<Item>,
                         a: seq<GateOp>, b: seq<GateOp>)
    requires GateFollows(g, h, g1, h1, a) && GateFollows(g1, h1, g2, h2, b)
    ensures GateFollows(g, h, g2, h2, a + b)
  {
    var t1, t2 := RunGate(g, a).1, RunGate(g1, b).1;
    assert RunGate(g, a + b) == (g2, t1 + t2) by {
      RunConcat(g, a, b);
    }
    assert (h + t1) + t2 == h + (t1 + t2);
  }

  lemma RunGateOne(g: Gate, op: GateOp)
    ensures RunGate(g, [op]) == Apply(g, op)
  {
    assert [op][..0] == [];
    assert RunGate(g, [op][..0]) == (g, []);
    assert [] + Apply(g, op).1 == Apply(g, op).1;
  }

  lemma HandleActionFollows(s: NodeState, a: ActionMsg)
    ensures Follows(s, HandleAction(s, a), [OfferItem(ActionItem(a))], [])
  {
    RunGateOne(s.action, OfferItem(ActionItem(a)));
    var s' := HandleAction(s, a);
    assert ActionItems(s'.actionsQueued) == ActionItems(s.actionsQueued) + Apply(s.action, OfferItem(ActionItem(a))).1;
    assert QueryItems(s.queriesQueued) + [] == QueryItems(s.queriesQueued);
  }

  lemma FollowsTrans(s: NodeState, s1: NodeState, s2: NodeState,
                     a1: seq<GateOp>, q1: seq<GateOp>, a2: seq<GateOp>, q2: seq<GateOp>)
    requires Follows(s, s1, a1, q1) && Follows(s1, s2, a2, q2)
    ensures Follows(s, s2, a1 + a2, q1 + q2)
  {
    GateFollowsTrans(s.action, ActionItems(s.actionsQueued), s1.action, ActionItems(s1.actionsQueued),
                     s2.action, ActionItems(s2.actionsQueued), a1, a2);
    GateFollowsTrans(s.query, QueryItems(s.queriesQueued), s1.query, QueryItems(s1.queriesQueued),
                     s2.query, QueryItems(s2.queriesQueued), q1, q2);
  }

  lemma {:induction false} HandleActionsFollow(s: NodeState, msgs: seq<ActionMsg>)
    ensures Follows(s, HandleActions(s, msgs), Offers(msgs), [])
  {
    if msgs == [] {
      assert ActionItems(s.actionsQueued) + [] == ActionItems(s.actionsQueued);
      assert QueryItems(s.queriesQueued) + [] == QueryItems(s.queriesQueued);
    } else {
      var front, a := msgs[..|msgs| - 1], msgs[|msgs| - 1];
      HandleActionsFollow(s, front);
      var s1 := HandleActions(s, front);
      HandleActionFollows(s1, a);
      FollowsTrans(s, s1, HandleActions(s, msgs), Offers(front), [], [OfferItem(ActionItem(a))], []);
      assert Offers(msgs) == Offers(front) + [OfferItem(ActionItem(a))];
    }
  }

  lemma FollowsNothing(s: NodeState, s': NodeState)
    requires s'.action == s.action && s'.query == s.query
    requires s'.actionsQueued == s.actionsQueued && s'.queriesQueued == s.queriesQueued
    ensures Follows(s, s', [], [])
  {
    assert ActionItems(s.actionsQueued) + [] == ActionItems(s.actionsQueued);
    assert QueryItems(s.queriesQueued) + [] == QueryItems(s.queriesQueued);
  }

  lemma HandleQueryFollows(s: NodeState, q: QueryMsg, wanted: bool)
    ensures Follows(s, HandleQuery(s, q, wanted), [], [OfferItem(QueryItem(q))])
  {
    RunGateOne(s.query, OfferItem(QueryItem(q)));
    var s' := HandleQuery(s, q, wanted);
    assert QueryItems(s'.queriesQueued) == QueryItems(s.queriesQueued) + Apply(s.query, OfferItem(QueryItem(q))).1;
    assert ActionItems(s.actionsQueued) + [] == ActionItems(s.actionsQueued);
  }

  lemma MergeClocksFollows(s: NodeState, m: UserState)
    ensures Follows(s, MergeClocks(s, m), SeeBelow(m.actionLTime) + RaiseOps(s, m), SeeBelow(m.queryLTime))
  {
    var s1 := WitnessPeer(s, m);
    var s2 := IgnoreOnJoin(s1, m);
    assert ActionItems(s.actionsQueued) + [] == ActionItems(s.actionsQueued);
    assert QueryItems(s.queriesQueued) + [] == QueryItems(s.queriesQueued);
    assert Follows(s, s1, SeeBelow(m.actionLTime), SeeBelow(m.queryLTime)) by {
      if m.actionLTime > 0 { RunGateOne(s.action, See(m.actionLTime - 1)); }
      if m.queryLTime > 0 { RunGateOne(s.query, See(m.queryLTime - 1)); }
    }
    assert Follows(s1, s2, RaiseOps(s, m), []) by {
      RunGateOne(s1.action, Raise(m.actionLTime));
    }
    FollowsTrans(s, s1, s2, SeeBelow(m.actionLTime), SeeBelow(m.queryLTime), RaiseOps(s, m), []);
    assert SeeBelow(m.queryLTime) + [] == SeeBelow(m.queryLTime);
  }

  lemma StepFollows(s: NodeState, op: NodeOp)
    ensures Follows(s, Step(s, op), ActionOps(s, op), QueryOps(s, op))
  {
    match op
    case DoAction(name, payload, len, limit) =>
      if |payload.Content()| > limit || len > limit {
        FollowsNothing(s, s);
      } else {
        HandleActionFollows(s, ActionMsg(s.action.clock, name, payload));
      }
    case ReceiveAction(a) => HandleActionFollows(s, a);
    case DoQuery(id, name, payload, wanted, len, limit) =>
      if |payload.Content()| > limit || len > limit {
        FollowsNothing(s, s);
      } else {
        HandleQueryFollows(s, QueryMsg(s.query.clock, id, name, payload), wanted);
      }
    case ReceiveQuery(q, wanted) => HandleQueryFollows(s, q, wanted);
    case DoMerge(m) =>
      var s1 := MergeClocks(s, m);
      var msgs := ReplayMsgs(m.actionBuffer);
      MergeClocksFollows(s, m);
      HandleActionsFollow(s1, msgs);
      FollowsTrans(s, s1, Merge(s, m), SeeBelow(m.actionLTime) + RaiseOps(s, m), SeeBelow(m.queryLTime), Offers(msgs), []);
      assert SeeBelow(m.queryLTime) + [] == SeeBelow(m.queryLTime);
    case StartJoin(addr, ignore) => FollowsNothing(s, SetJoin(s, addr, ignore));
    case EndJoin(addr) => FollowsNothing(s, UnsetJoin(s, addr));
  }

  function AllActionOps(s: NodeState, ops: seq<NodeOp>): seq<GateOp> {
    if ops == [] then []
    else AllActionOps(s, ops[..|ops| - 1]) + ActionOps(Run(s, ops[..|ops| - 1]), ops[|ops| - 1])
  }

  function AllQueryOps(s: NodeState, ops: seq<NodeOp>): seq<GateOp> {
    if ops == [] then []
    else AllQueryOps(s, ops[..|ops| - 1]) + QueryOps(Run(s, ops[..|ops| - 1]), ops[|ops| - 1])
  }

  lemma {:induction false} RunFollows(s: NodeState, ops: seq<NodeOp>)
    ensures Follows(s, Run(s, ops), AllActionOps(s, ops), AllQueryOps(s, ops))
    ensures NoWrapRun(s, ops) ==> NoWraps(AllActionOps(s, ops)) && NoWraps(AllQueryOps(s, ops))
  {
    if ops == [] {
      FollowsNothing(s, s);
    } else {
      var front, op := ops[..|ops| - 1], ops[|ops| - 1];
      RunFollows(s, front);
      var s1 := Run(s, front);
      StepFollows(s1, op);
      FollowsTrans(s, s1, Run(s, ops), AllActionOps(s, front), AllQueryOps(s, front), ActionOps(s1, op), QueryOps(s1, op));
    }
  }

  lemma RunOne(s: NodeState, op: NodeOp)
    ensures Run(s, [op]) == Step(s, op)
    ensures AllActionOps(s, [op]) == ActionOps(s, op) && AllQueryOps(s, [op]) == QueryOps(s, op)
    ensures NoWrapRun(s, [op]) <==> NoWrapStep(s, op)
  {
    assert [op][..0] == [];
  }

  // --- The node invariant ----------------------------------------------------

  function ActionsIn(events: seq<Event>): seq<ActionMsg> {
    if events == [] then []
    else
      var e := events[|events| - 1];
      var rest := ActionsIn(events[..|events| - 1]);
      if e.ActionEvent? then rest + [ActionMsg(e.ltime, e.name, e.payload)] else rest
  }

  function QueriesIn(events: seq<Event>): seq<QueryMsg> {
    if events == [] then []
    else
      var e := events[|events| - 1];
      var rest := QueriesIn(events[..|events| - 1]);
      if e.QueryEvent? then rest + [QueryMsg(e.ltime, e.id, e.name, e.payload)] else rest
  }

  // The queries of those queued that are for the application: the wanted ones
  // that are not internal.
  function Wanted(queries: seq<QueryMsg>, verdicts: seq<bool>): seq<QueryMsg>
    requires |verdicts| == |queries|
  {
    if queries == [] then []
    else
      var k := |queries| - 1;
      var rest := Wanted(queries[..k], verdicts[..k]);
      if verdicts[k] && queries[k].name != "reach" then rest + [queries[k]] else rest
  }

  // Every queued action, and every queued query that is for the application, is
  // emitted once, in order and with all its fields.
  ghost predicate EventsMatch(s: NodeState) {
    && ActionsIn(s.events) == s.actionsQueued
    && |s.verdicts| == |s.queriesQueued|
    && QueriesIn(s.events) == Wanted(s.queriesQueued, s.verdicts)
  }

  ghost predicate NodeInv(s: NodeState) {
    && Refines(s.action, ActionItems(s.actionsQueued))
    && Refines(s.query, QueryItems(s.queriesQueued))
    && EventsMatch(s)
    && s.query.minTime == 0
  }

  lemma HandleActionMatches(s: NodeState, a: ActionMsg)
    requires EventsMatch(s)
    ensures EventsMatch(HandleAction(s, a))
  {
    assert (s.events + [ActionEventOf(a)])[..|s.events|] == s.events;
  }

  lemma HandleQueryMatches(s: NodeState, q: QueryMsg, wanted: bool)
    requires EventsMatch(s)
    ensures EventsMatch(HandleQuery(s, q, wanted))
  {
    assert (s.events + [QueryEventOf(q)])[..|s.events|] == s.events;
    assert (s.queriesQueued + [q])[..|s.queriesQueued|] == s.queriesQueued;
    assert (s.verdicts + [wanted])[..|s.verdicts|] == s.verdicts;
  }

  lemma {:induction false} HandleActionsMatch(s: NodeState, msgs: seq<ActionMsg>)
    requires EventsMatch(s)
    ensures EventsMatch(HandleActions(s, msgs))
  {
    if msgs != [] {
      HandleActionsMatch(s, msgs[..|msgs| - 1]);
      HandleActionMatches(HandleActions(s, msgs[..|msgs| - 1]), msgs[|msgs| - 1]);
    }
  }

  lemma StepMatches(s: NodeState, op: NodeOp)
    requires EventsMatch(s)
    ensures EventsMatch(Step(s, op))
  {
    match op
    case DoAction(name, payload, len, limit) => HandleActionMatches(s, ActionMsg(s.action.clock, name, payload));
    case ReceiveAction(a) => HandleActionMatches(s, a);
    case DoQuery(id, name, payload, wanted, len, limit) =>
      HandleQueryMatches(s, QueryMsg(s.query.clock, id, name, payload), wanted);
    case ReceiveQuery(q, wanted) => HandleQueryMatches(s, q, wanted);
    case DoMerge(m) => HandleActionsMatch(MergeClocks(s, m), ReplayMsgs(m.actionBuffer));
    case StartJoin(_, _) =>
    case EndJoin(_) =>
  }

  lemma {:induction false} RunMatches(s: NodeState, ops: seq<NodeOp>)
    requires EventsMatch(s)
    ensures EventsMatch(Run(s, ops))
  {
    if ops != [] {
      RunMatches(s, ops[..|ops| - 1]);
      StepMatches(Run(s, ops[..|ops| - 1]), ops[|ops| - 1]);
    }
  }

  lemma StepKeepsQueryFloor(s: NodeState, op: NodeOp)
    ensures Step(s, op).query.minTime == s.query.minTime
  {
    if op.DoMerge? {
      HandleActionsKeepRest(MergeClocks(s, op.m), ReplayMsgs(op.m.actionBuffer));
    }
  }

  // Nothing ever gives queries a minimum time.
  lemma {:induction false} RunKeepsQueryFloor(s: NodeState, ops: seq<NodeOp>)
    ensures Run(s, ops).query.minTime == s.query.minTime
  {
    if ops != [] {
      RunKeepsQueryFloor(s, ops[..|ops| - 1]);
      StepKeepsQueryFloor(Run(s, ops[..|ops| - 1]), ops[|ops| - 1]);
    }
  }

  // A new node knows nothing, has both clocks at 1 and joins nobody.
  lemma NewNodeInv(addr: string, n: nat, last: LTime)
    requires n > 0
    ensures NodeInv(NewNode(addr, n, last))
    ensures var s := NewNode(addr, n, last);
      && s.addr == addr && s.action.clock == s.query.clock == 1 && |s.action.ring| == |s.query.ring| == n
      && s.actionsQueued == [] && s.queriesQueued == [] && s.events == [] && s.joining == map[] && s.ignoreActOnJoin == map[]
  {
    FreshGateRefines(n, Inc(last));
    FreshGateRefines(n, 0);
  }

  lemma RunKeepsInv(s: NodeState, ops: seq<NodeOp>)
    requires NodeInv(s) && NoWrapRun(s, ops)
    ensures NodeInv(Run(s, ops))
    ensures |Run(s, ops).action.ring| == |s.action.ring| && |Run(s, ops).query.ring| == |s.query.ring|
    ensures Run(s, ops).action.clock >= s.action.clock
  {
    RunFollows(s, ops);
    RunRefinesHistory(s.action, ActionItems(s.actionsQueued), AllActionOps(s, ops));
    RunRefinesHistory(s.query, QueryItems(s.queriesQueued), AllQueryOps(s, ops));
    RunMatches(s, ops);
    RunKeepsQueryFloor(s, ops);
  }

  // --- What one message does -------------------------------------------------

  // Whether time t is in the window of n times that ends at a clock which has
  // just seen t.
  predicate Fits(n: nat, clock: nat, t: nat) {
    t + n >= (if t < clock then clock else t + 1)
  }

  // An action is new if none queued has its time together with its payload, nil
  // being the same as empty, or with a nil payload.
  ghost predicate NewAction(queued: seq<ActionMsg>, a: ActionMsg) {
    forall k :: 0 <= k < |queued| && queued[k].ltime == a.ltime ==>
      queued[k].payload != Nil && queued[k].payload != (if a.payload == Nil then Bytes([]) else a.payload)
  }

  // An action is queued and emitted, with all its fields, if and only if it is
  // at or above the minimum time, in the window and new; nothing else does either.
  lemma ActionTakenIff(s: NodeState, a: ActionMsg)
    requires NodeInv(s) && a.ltime < MAX_LTIME
    ensures var s' := HandleAction(s, a);
      if a.ltime >= s.action.minTime && Fits(|s.action.ring|, s.action.clock, a.ltime) && NewAction(s.actionsQueued, a) then
        s'.actionsQueued == s.actionsQueued + [a] && s'.events == s.events + [ActionEvent(a.ltime, a.name, a.payload)]
      else
        s'.actionsQueued == s.actionsQueued && s'.events == s.events
  {
    var h := ActionItems(s.actionsQueued);
    OfferRefinesHistory(s.action, h, ActionItem(a));
    if Blocked(h, ActionItem(a)) {
      var y :| y in h && Equal(y, ActionItem(a));
      var k :| 0 <= k < |h| && h[k] == y;
      assert s.actionsQueued[k].ltime == a.ltime;
    } else {
      forall k | 0 <= k < |s.actionsQueued| && s.actionsQueued[k].ltime == a.ltime
        ensures s.actionsQueued[k].payload != Nil
        ensures s.actionsQueued[k].payload != (if a.payload == Nil then Bytes([]) else a.payload)
      {
        assert h[k] in h;
      }
    }
  }

  // A query is new if none queued has both its time and its id.
  ghost predicate NewQuery(queued: seq<QueryMsg>, q: QueryMsg) {
    forall k :: 0 <= k < |queued| ==> queued[k].ltime != q.ltime || queued[k].id != q.id
  }

  // A query is queued if and only if it is in the window and new, whatever else
  // was asked at its time; it is then emitted, with all its fields, if and only
  // if it is wanted and not the internal one.
  lemma QueryTakenIff(s: NodeState, q: QueryMsg, wanted: bool)
    requires NodeInv(s) && q.ltime < MAX_LTIME
    ensures var s' := HandleQuery(s, q, wanted);
      if Fits(|s.query.ring|, s.query.clock, q.ltime) && NewQuery(s.queriesQueued, q) then
        && s'.queriesQueued == s.queriesQueued + [q] && s'.verdicts == s.verdicts + [wanted]
        && s'.events == s.events +
             if wanted && q.name != "reach" then [QueryEvent(q.ltime, q.id, q.name, q.payload)] else []
      else
        s'.queriesQueued == s.queriesQueued && s'.verdicts == s.verdicts && s'.events == s.events
  {
    var h := QueryItems(s.queriesQueued);
    OfferRefinesHistory(s.query, h, QueryItem(q));
    assert s.events + [] == s.events;
    if Blocked(h, QueryItem(q)) {
      var y :| y in h && Equal(y, QueryItem(q));
      var k :| 0 <= k < |h| && h[k] == y;
      assert s.queriesQueued[k].ltime == q.ltime && s.queriesQueued[k].id == q.id;
    } else {
      forall k | 0 <= k < |s.queriesQueued|
        ensures s.queriesQueued[k].ltime != q.ltime || s.queriesQueued[k].id != q.id
      {
        assert h[k] in h;
      }
    }
  }

  // --- Local calls -----------------------------------------------------------

  // Whether a message is over the size limit.
  predicate TooLarge(payload: Payload, len: nat, limit: nat) {
    len > limit || (payload != Nil && |payload.bytes| > limit)
  }

  // Action refuses what is too large and changes nothing. Any other action is
  // reported as sent, and is queued and emitted if and only if the clock has
  // reached the minimum time.
  lemma OwnActionEmittedIff(s: NodeState, name: string, payload: Payload, len: nat, limit: nat)
    requires NodeInv(s) && s.action.clock < MAX_LTIME
    ensures var (s', outcome) := Action(s, name, payload, len, limit);
      var t := s.action.clock;
      if TooLarge(payload, len, limit) then outcome == SizeLimitExceeded && s' == s
      else
        && outcome == Ok && s'.action.clock == t + 1
        && s'.actionsQueued == s.actionsQueued + (if t >= s.action.minTime then [ActionMsg(t, name, payload)] else [])
        && s'.events == s.events + if t >= s.action.minTime then [ActionEvent(t, name, payload)] else []
  {
    OfferRefinesHistory(s.action, ActionItems(s.actionsQueued), Item(s.action.clock, 0, payload));
    assert s.actionsQueued + [] == s.actionsQueued && s.events + [] == s.events;
  }

  // Query refuses what is too large and changes nothing. Any other query is new
  // to the node that asks it: it is queued, and emitted if it is wanted there and
  // not internal.
  lemma OwnQueryIsQueued(s: NodeState, id: QueryId, name: string, payload: Payload, wanted: bool, len: nat, limit: nat)
    requires NodeInv(s) && s.query.clock < MAX_LTIME
    ensures var (s', outcome) := Query(s, id, name, payload, wanted, len, limit);
      var t := s.query.clock;
      if TooLarge(payload, len, limit) then outcome == SizeLimitExceeded && s' == s
      else
        && outcome == Ok && s'.query.clock == t + 1
        && s'.queriesQueued == s.queriesQueued + [QueryMsg(t, id, name, payload)]
        && s'.events == s.events + if wanted && name != "reach" then [QueryEvent(t, id, name, payload)] else []
  {
    OfferRefinesHistory(s.query, QueryItems(s.queriesQueued), Item(s.query.clock, id, Nil));
    assert s.events + [] == s.events;
  }

  // So a node restarted from a snapshot that knew any action reports success for
  // its first action and drops it.
  lemma RestartDropsFirstAction(addr: string, n: nat, last: LTime, name: string, payload: Payload, len: nat, limit: nat)
    requires n > 0 && 1 <= last < MAX_LTIME && !TooLarge(payload, len, limit)
    ensures var (s, outcome) := Action(NewNode(addr, n, last), name, payload, len, limit);
      outcome == Ok && s.actionsQueued == [] && s.events == []
  {
    NewNodeInv(addr, n, last);
    OwnActionEmittedIff(NewNode(addr, n, last), name, payload, len, limit);
    assert Inc(last) == last + 1;
  }

  // --- At most once ----------------------------------------------------------

  // Over any run of one node incarnation, every action and every query is put
  // on the broadcast queue at most once and emitted at most once, whatever
  // names its copies carry.
  lemma EmitsAtMostOnce(addr: string, n: nat, last: LTime, ops: seq<NodeOp>, x: Item)
    requires n > 0 && NoWrapRun(NewNode(addr, n, last), ops)
    ensures var s := Run(NewNode(addr, n, last), ops);
      && multiset(ActionItems(s.actionsQueued))[x] <= 1
      && multiset(ActionItems(ActionsIn(s.events)))[x] <= 1
      && multiset(QueryItems(s.queriesQueued))[x] <= 1
      && multiset(QueryItems(QueriesIn(s.events)))[x] <= 1
  {
    NewNodeInv(addr, n, last);
    RunKeepsInv(NewNode(addr, n, last), ops);
    var s := Run(NewNode(addr, n, last), ops);
    AcceptedOnce(ActionItems(s.actionsQueued), x);
    AcceptedOnce(QueryItems(s.queriesQueued), x);
    WantedWereQueued(s.queriesQueued, s.verdicts, x);
  }

  lemma {:induction false} WantedWereQueued(queries: seq<QueryMsg>, verdicts: seq<bool>, x: Item)
    requires |verdicts| == |queries|
    ensures multiset(QueryItems(Wanted(queries, verdicts)))[x] <= multiset(QueryItems(queries))[x]
  {
    if queries != [] {
      var k := |queries| - 1;
      var wanted := Wanted(queries[..k], verdicts[..k]);
      WantedWereQueued(queries[..k], verdicts[..k], x);
      assert QueryItems(queries) == QueryItems(queries[..k]) + [QueryItem(queries[k])];
      assert QueryItems(wanted + [queries[k]]) == QueryItems(wanted) + [QueryItem(queries[k])];
    }
  }

  // Once a node has processed an action, accepted or not, every later copy is
  // dropped without a trace, after any other operations, merges included.
  lemma OnceHandledActionIsDropped(s: NodeState, a: ActionMsg, ops: seq<NodeOp>, copy: ActionMsg)
    requires NodeInv(s) && a.ltime < MAX_LTIME && NoWrapRun(HandleAction(s, a), ops)
    requires ActionItem(copy) == ActionItem(a)
    ensures var s1 := Run(HandleAction(s, a), ops);
      var s2 := HandleAction(s1, copy);
      s2.actionsQueued == s1.actionsQueued && s2.events == s1.events
  {
    var s0 := HandleAction(s, a);
    RunFollows(s0, ops);
    OnceHandledAlwaysRefused(s.action, ActionItems(s.actionsQueued), ActionItem(a), AllActionOps(s0, ops));
  }

  lemma OnceHandledQueryIsDropped(s: NodeState, q: QueryMsg, wanted: bool, ops: seq<NodeOp>, copy: QueryMsg, wanted': bool)
    requires NodeInv(s) && q.ltime < MAX_LTIME && NoWrapRun(HandleQuery(s, q, wanted), ops)
    requires QueryItem(copy) == QueryItem(q)
    ensures var s1 := Run(HandleQuery(s, q, wanted), ops);
      var s2 := HandleQuery(s1, copy, wanted');
      s2.queriesQueued == s1.queriesQueued && s2.events == s1.events
  {
    var s0 := HandleQuery(s, q, wanted);
    RunFollows(s0, ops);
    OnceHandledAlwaysRefused(s.query, QueryItems(s.queriesQueued), QueryItem(q), AllQueryOps(s0, ops));
  }

  // --- The minimum time ------------------------------------------------------

  // From s to s' the node only emitted actions at or above its minimum time,
  // which never goes back.
  ghost predicate EmitsAboveMin(s: NodeState, s': NodeState) {
    && s'.action.minTime >= s.action.minTime
    && s.actionsQueued <= s'.actionsQueued && s.events <= s'.events
    && (forall k :: |s.actionsQueued| <= k < |s'.actionsQueued| ==> s'.actionsQueued[k].ltime >= s.action.minTime)
    && (forall k :: |s.events| <= k < |s'.events| && s'.events[k].ActionEvent? ==> s'.events[k].ltime >= s.action.minTime)
  }

  lemma {:induction false} HandleActionsAboveMin(s: NodeState, msgs: seq<ActionMsg>)
    ensures EmitsAboveMin(s, HandleActions(s, msgs))
  {
    if msgs != [] {
      HandleActionsAboveMin(s, msgs[..|msgs| - 1]);
    }
  }

  lemma StepAboveMin(s: NodeState, op: NodeOp)
    ensures EmitsAboveMin(s, Step(s, op))
  {
    if op.DoMerge? {
      HandleActionsAboveMin(MergeClocks(s, op.m), ReplayMsgs(op.m.actionBuffer));
    }
  }

  lemma {:induction false} RunAboveMin(s: NodeState, ops: seq<NodeOp>)
    ensures EmitsAboveMin(s, Run(s, ops))
  {
    if ops != [] {
      RunAboveMin(s, ops[..|ops| - 1]);
      StepAboveMin(Run(s, ops[..|ops| - 1]), ops[|ops| - 1]);
    }
  }

  // Once a node has merged a state from an address it joins with its old
  // actions ignored, no action below the sender's clock is queued or emitted:
  // not by the replay of that same merge, and not by anything later.
  lemma IgnoredOnJoin(s: NodeState, m: UserState, ops: seq<NodeOp>)
    requires IsSet(s.joining, m.from) && IsSet(s.ignoreActOnJoin, m.from)
    ensures var s1 := Run(Merge(s, m), ops);
      && (forall k :: |s.actionsQueued| <= k < |s1.actionsQueued| ==> s1.actionsQueued[k].ltime >= m.actionLTime)
      && (forall k :: |s.events| <= k < |s1.events| && s1.events[k].ActionEvent? ==> s1.events[k].ltime >= m.actionLTime)
  {
    HandleActionsAboveMin(MergeClocks(s, m), ReplayMsgs(m.actionBuffer));
    RunAboveMin(Merge(s, m), ops);
  }

  // Nothing of time t or less has been queued or emitted.
  ghost predicate EmitsOnlyAbove(s: NodeState, t: LTime) {
    && (forall a :: a in s.actionsQueued ==> a.ltime > t)
    && (forall e :: e in s.events && e.ActionEvent? ==> e.ltime > t)
  }

  // A node started with this snapshot clock never queues or emits an action of
  // time t or less, whatever it does.
  ghost predicate NeverAtOrBelow(addr: string, n: nat, last: LTime, t: LTime)
    requires n > 0
  {
    forall ops: seq<NodeOp> :: EmitsOnlyAbove(Run(NewNode(addr, n, last), ops), t)
  }

  // A new node takes the first action it is offered unless that is below its
  // minimum time, which the largest snapshot clock wraps to zero.
  lemma FirstOfferIsTaken(addr: string, n: nat, last: LTime, a: ActionMsg)
    requires n > 0 && a.ltime >= Inc(last)
    ensures Run(NewNode(addr, n, last), [ReceiveAction(a)]).actionsQueued == [a]
    ensures Run(NewNode(addr, n, last), [ReceiveAction(a)]).events == [ActionEventOf(a)]
  {
    RunOne(NewNode(addr, n, last), ReceiveAction(a));
    WitnessedIsMax(1, a.ltime);
  }

  // After a restart no action of time t or less is ever queued or emitted, own
  // actions included, if and only if t is at or below the action clock of the
  // snapshot and that clock is not the largest time.
  lemma NothingBelowSnapshotClock(addr: string, n: nat, last: LTime, t: LTime)
    requires n > 0
    ensures NeverAtOrBelow(addr, n, last, t) <==> t <= last < MAX_LTIME
  {
    assert Inc(last) == if last < MAX_LTIME then last + 1 else 0;
    if t <= last < MAX_LTIME {
      forall ops: seq<NodeOp>
        ensures EmitsOnlyAbove(Run(NewNode(addr, n, last), ops), t)
      {
        RunAboveMin(NewNode(addr, n, last), ops);
      }
    } else {
      var a := ActionMsg(t, "", Nil);
      FirstOfferIsTaken(addr, n, last, a);
      var s := Run(NewNode(addr, n, last), [ReceiveAction(a)]);
      assert a in s.actionsQueued && !EmitsOnlyAbove(s, t);
    }
  }
}
