// One node of the cluster: action and query handling, and the anti-entropy
// state exchange.
module Gossip {
  import opened Wrappers
  import opened Lamport
  import opened Buffer
  import opened History

  datatype ActionMsg = ActionMsg(ltime: LTime, name: string, payload: Payload)

  datatype QueryMsg = QueryMsg(ltime: LTime, id: QueryId, name: string, payload: Payload)

  datatype Event =
    | ActionEvent(ltime: LTime, name: string, payload: Payload)
    | QueryEvent(ltime: LTime, id: QueryId, name: string, payload: Payload)

  datatype UserState = UserState(
    from: string, actionLTime: LTime, actionBuffer: seq<Group>, queryLTime: LTime)

  // `actionsQueued`, `queriesQueued` and `events` list everything ever put on
  // the broadcast queues and on the event channel, `verdicts` what the filters of
  // each queued query said.
  datatype NodeState = NodeState(
    addr: string,
    action: Gate,
    query: Gate,
    joining: map<string, bool>,
    ignoreActOnJoin: map<string, bool>,
    actionsQueued: seq<ActionMsg>,
    queriesQueued: seq<QueryMsg>,
    verdicts: seq<bool>,
    events: seq<Event>)

  datatype Outcome = Ok | SizeLimitExceeded

  const REACH_QUERY := "reach"

  function ActionItem(a: ActionMsg): Item { Item(a.ltime, 0, a.payload) }

  function QueryItem(q: QueryMsg): Item { Item(q.ltime, q.id, Nil) }

  function ActionEventOf(a: ActionMsg): Event { ActionEvent(a.ltime, a.name, a.payload) }

  function QueryEventOf(q: QueryMsg): Event { QueryEvent(q.ltime, q.id, q.name, q.payload) }

  function IsSet(flags: map<string, bool>, addr: string): bool {
    addr in flags && flags[addr]
  }

  // `lastActionClock` is what the snapshot of the previous incarnation knew.
  function NewNode(addr: string, bufferSize: nat, lastActionClock: LTime): NodeState
    requires bufferSize > 0
  {
    NodeState(addr, FreshGate(bufferSize, Inc(lastActionClock)), FreshGate(bufferSize, 0),
              map[], map[], [], [], [], [])
  }

  function HandleAction(s: NodeState, a: ActionMsg): NodeState {
    var (gate, added) := Offer(s.action, ActionItem(a));
    if !added then s.(action := gate)
    else s.(action := gate, actionsQueued := s.actionsQueued + [a], events := s.events + [ActionEventOf(a)])
  }

  // `wanted` is the verdict of the query's node and tag filters on this node.
  function HandleQuery(s: NodeState, q: QueryMsg, wanted: bool): NodeState {
    var (gate, added) := Offer(s.query, QueryItem(q));
    if !added then s.(query := gate)
    else
      s.(query := gate, queriesQueued := s.queriesQueued + [q], verdicts := s.verdicts + [wanted],
         events := if wanted && q.name != REACH_QUERY then s.events + [QueryEventOf(q)] else s.events)
  }

  // The size limit applies to the payload and to the encoded message.
  function Action(s: NodeState, name: string, payload: Payload, encodedLen: nat, limit: nat): (NodeState, Outcome) {
    if |payload.Content()| > limit || encodedLen > limit then (s, SizeLimitExceeded)
    else (HandleAction(s, ActionMsg(s.action.clock, name, payload)), Ok)
  }

  function Query(s: NodeState, id: QueryId, name: string, payload: Payload, wanted: bool, encodedLen: nat, limit: nat):
    (NodeState, Outcome)
  {
    if |payload.Content()| > limit || encodedLen > limit then (s, SizeLimitExceeded)
    else (HandleQuery(s, QueryMsg(s.query.clock, id, name, payload), wanted), Ok)
  }

  // Join marks the address; it is unmarked by a merge from it or when Join ends.
  function SetJoin(s: NodeState, addr: string, ignore: bool): NodeState {
    s.(joining := s.joining[addr := true], ignoreActOnJoin := s.ignoreActOnJoin[addr := ignore])
  }

  function UnsetJoin(s: NodeState, addr: string): NodeState {
    s.(joining := s.joining - {addr}, ignoreActOnJoin := s.ignoreActOnJoin - {addr})
  }

  // A copied slot: an empty one becomes a group of time 0 without items.
  function CopyGroup(g: Option<Group>): Group {
    match g
    case None => Group(0, [])
    case Some(g) => Group(g.ltime, seq(|g.items|, j requires 0 <= j < |g.items| => Item(g.items[j].ltime, 0, g.items[j].payload)))
  }

  function CopyRing(r: Ring): seq<Group> {
    seq(|r|, i requires 0 <= i < |r| => CopyGroup(r[i]))
  }

  function LocalState(s: NodeState): UserState {
    UserState(s.addr, s.action.clock, CopyRing(s.action.ring), s.query.clock)
  }

  // The messages a merge replays: they carry the group's time and no name.
  function GroupMsgs(g: Group): seq<ActionMsg> {
    seq(|g.items|, j requires 0 <= j < |g.items| => ActionMsg(g.ltime, "", g.items[j].payload))
  }

  function ReplayMsgs(groups: seq<Group>): seq<ActionMsg> {
    if groups == [] then [] else ReplayMsgs(groups[..|groups| - 1]) + GroupMsgs(groups[|groups| - 1])
  }

  function HandleActions(s: NodeState, msgs: seq<ActionMsg>): NodeState {
    if msgs == [] then s else HandleAction(HandleActions(s, msgs[..|msgs| - 1]), msgs[|msgs| - 1])
  }

  function WitnessPeer(s: NodeState, m: UserState): NodeState {
    var a := if m.actionLTime > 0 then s.action.(clock := Witnessed(s.action.clock, m.actionLTime - 1)) else s.action;
    var q := if m.queryLTime > 0 then s.query.(clock := Witnessed(s.query.clock, m.queryLTime - 1)) else s.query;
    s.(action := a, query := q)
  }

  function IgnoreOnJoin(s: NodeState, m: UserState): NodeState {
    if IsSet(s.joining, m.from) && IsSet(s.ignoreActOnJoin, m.from) then
      s.(action := Raised(s.action, m.actionLTime))
    else s
  }

  // Everything a merge does before it replays the peer's actions.
  function MergeClocks(s: NodeState, m: UserState): NodeState {
    UnsetJoin(IgnoreOnJoin(WitnessPeer(s, m), m), m.from)
  }

  function Merge(s: NodeState, m: UserState): NodeState {
    HandleActions(MergeClocks(s, m), ReplayMsgs(m.actionBuffer))
  }

  lemma {:induction false} HandleActionsConcat(s: NodeState, a: seq<ActionMsg>, b: seq<ActionMsg>)
    ensures HandleActions(s, a + b) == HandleActions(HandleActions(s, a), b)
  {
    if b == [] {
      assert a + b == a;
    } else {
      HandleActionsConcat(s, a, b[..|b| - 1]);
      assert (a + b)[..|a + b| - 1] == a + b[..|b| - 1];
    }
  }

  // Handling actions touches only what concerns actions.
  lemma {:induction false} HandleActionsKeepRest(s: NodeState, msgs: seq<ActionMsg>)
    ensures var s' := HandleActions(s, msgs);
      && s'.joining == s.joining && s'.ignoreActOnJoin == s.ignoreActOnJoin && s'.addr == s.addr
      && s'.action.minTime == s.action.minTime && s'.query == s.query
      && s'.queriesQueued == s.queriesQueued && s'.verdicts == s.verdicts
  {
    if msgs != [] {
      HandleActionsKeepRest(s, msgs[..|msgs| - 1]);
    }
  }
}
