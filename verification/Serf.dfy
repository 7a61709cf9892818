// The node as the objects that hold its state: managers with a clock and a
// ring each, and the node that owns them.
module SerfNode {
  import opened Lamport
  import opened Buffer
  import opened History
  import opened Gossip

  class ActionManager {
    var actionMinTime: LTime
    const clock: LamportClock
    const buffers: LBuffer

    ghost predicate Valid()
      reads Repr()
    {
      buffers.Valid()
    }

    ghost function Repr(): set<object>
      reads buffers
    {
      {this, clock} + buffers.Repr()
    }

    ghost function AsGate(): Gate
      reads Repr()
    {
      Gate(clock.time, actionMinTime, buffers.contents)
    }

    constructor (bufferSize: nat)
      requires bufferSize > 0
      ensures Valid() && fresh(Repr())
      ensures AsGate() == FreshGate(bufferSize, 0)
    {
      actionMinTime := 0;
      clock := new LamportClock(1);
      buffers := new LBuffer(bufferSize);
    }

    method AddToBuffer(msg: ActionMsg) returns (added: bool)
      requires Valid()
      modifies Repr()
      ensures Valid() && fresh(Repr() - old(Repr()))
      ensures clock.time == old(clock.time) && actionMinTime == old(actionMinTime)
      ensures (buffers.contents, added) == RingAdd(old(buffers.contents), clock.time, ActionItem(msg))
    {
      var item := ActionItem(msg);
      var now := clock.Time();
      added := buffers.AddItem(now, item);
    }

    method GetBuffer() returns (res: seq<Group>)
      requires Valid()
      ensures res == CopyRing(buffers.contents)
    {
      res := [];
      for i := 0 to buffers.slots.Length
        invariant |res| == i
        invariant forall k :: 0 <= k < i ==> res[k] == CopyGroup(buffers.contents[k])
      {
        var group := buffers.slots[i];
        var copied := Group(0, []);
        if group != null {
          var items := [];
          for j := 0 to |group.items|
            invariant |items| == j
            invariant forall k :: 0 <= k < j ==> items[k] == Item(group.items[k].ltime, 0, group.items[k].payload)
          {
            items := items + [Item(group.items[j].ltime, 0, group.items[j].payload)];
          }
          copied := Group(group.ltime, items);
        }
        assert copied == CopyGroup(buffers.contents[i]);
        res := res + [copied];
      }
    }

    method SetActionMinTime(t: LTime)
      modifies this`actionMinTime
      ensures actionMinTime == t
    {
      actionMinTime := t;
    }

    method GetActionMinTime() returns (t: LTime)
      ensures t == actionMinTime
    {
      t := actionMinTime;
    }
  }

  class QueryManager {
    const clock: LamportClock
    const buffers: LBuffer

    ghost predicate Valid()
      reads Repr()
    {
      buffers.Valid()
    }

    ghost function Repr(): set<object>
      reads buffers
    {
      {this, clock} + buffers.Repr()
    }

    ghost function AsGate(): Gate
      reads Repr()
    {
      Gate(clock.time, 0, buffers.contents)
    }

    constructor (bufferSize: nat)
      requires bufferSize > 0
      ensures Valid() && fresh(Repr())
      ensures AsGate() == FreshGate(bufferSize, 0)
    {
      clock := new LamportClock(1);
      buffers := new LBuffer(bufferSize);
    }

    method AddToBuffer(msg: QueryMsg) returns (added: bool)
      requires Valid()
      modifies Repr()
      ensures Valid() && fresh(Repr() - old(Repr()))
      ensures clock.time == old(clock.time)
      ensures (buffers.contents, added) == RingAdd(old(buffers.contents), clock.time, QueryItem(msg))
    {
      var item := QueryItem(msg);
      var now := clock.Time();
      added := buffers.AddItem(now, item);
    }
  }

  class Serf {
    const addr: string
    const action: ActionManager
    const query: QueryManager
    var joining: map<string, bool>
    var ignoreActOnJoin: map<string, bool>
    var actionsQueued: seq<ActionMsg>
    var queriesQueued: seq<QueryMsg>
    ghost var verdicts: seq<bool>
    var events: seq<Event>

    ghost function Repr(): set<object>
      reads action.buffers, query.buffers
    {
      {this} + action.Repr() + query.Repr()
    }

    ghost predicate Valid()
      reads Repr()
    {
      action.Valid() && query.Valid() && action.Repr() !! query.Repr()
    }

    ghost function State(): NodeState
      reads Repr()
    {
      NodeState(addr, action.AsGate(), query.AsGate(), joining, ignoreActOnJoin,
                actionsQueued, queriesQueued, verdicts, events)
    }

    constructor (addr: string, bufferSize: nat, lastActionClock: LTime)
      requires bufferSize > 0
      ensures Valid() && fresh(Repr())
      ensures State() == NewNode(addr, bufferSize, lastActionClock)
    {
      this.addr := addr;
      query := new QueryManager(bufferSize);
      action := new ActionManager(bufferSize);
      joining, ignoreActOnJoin := map[], map[];
      actionsQueued, queriesQueued, verdicts, events := [], [], [], [];
      new;
      action.SetActionMinTime(Inc(lastActionClock));
    }

    method OfferAction(a: ActionMsg) returns (added: bool)
      requires Valid()
      modifies action.Repr()
      ensures action.Valid() && fresh(action.Repr() - old(action.Repr()))
      ensures (action.AsGate(), added) == Offer(old(action.AsGate()), ActionItem(a))
    {
      action.clock.Witness(a.ltime);
      var minTime := action.GetActionMinTime();
      if a.ltime < minTime {
        return false;
      }
      added := action.AddToBuffer(a);
    }

    method HandleAction(a: ActionMsg)
      requires Valid()
      modifies Repr()
      ensures Valid() && fresh(Repr() - old(Repr()))
      ensures State() == Gossip.HandleAction(old(State()), a)
    {
      var added := OfferAction(a);
      if !added {
        return;
      }
      actionsQueued := actionsQueued + [a];
      events := events + [ActionEvent(a.ltime, a.name, a.payload)];
    }

    method OfferQuery(q: QueryMsg) returns (added: bool)
      requires Valid()
      modifies query.Repr()
      ensures query.Valid() && fresh(query.Repr() - old(query.Repr()))
      ensures (query.AsGate(), added) == Offer(old(query.AsGate()), QueryItem(q))
    {
      query.clock.Witness(q.ltime);
      added := query.AddToBuffer(q);
    }

    method HandleQuery(q: QueryMsg, wanted: bool)
      requires Valid()
      modifies Repr()
      ensures Valid() && fresh(Repr() - old(Repr()))
      ensures State() == Gossip.HandleQuery(old(State()), q, wanted)
    {
      var added := OfferQuery(q);
      if !added {
        return;
      }
      queriesQueued := queriesQueued + [q];
      verdicts := verdicts + [wanted];
      if !wanted {
        return;
      }
      if q.name == REACH_QUERY {
        return;
      }
      events := events + [QueryEvent(q.ltime, q.id, q.name, q.payload)];
    }

    method Action(name: string, payload: Payload, encodedLen: nat, limit: nat) returns (outcome: Outcome)
      requires Valid()
      modifies Repr()
      ensures Valid() && fresh(Repr() - old(Repr()))
      ensures (State(), outcome) == Gossip.Action(old(State()), name, payload, encodedLen, limit)
    {
      if |payload.Content()| > limit {
        return SizeLimitExceeded;
      }
      var now := action.clock.Time();
      var msg := ActionMsg(now, name, payload);
      if encodedLen > limit {
        return SizeLimitExceeded;
      }
      HandleAction(msg);
      return Ok;
    }

    method Query(id: QueryId, name: string, payload: Payload, wanted: bool, encodedLen: nat, limit: nat)
      returns (outcome: Outcome)
      requires Valid()
      modifies Repr()
      ensures Valid() && fresh(Repr() - old(Repr()))
      ensures (State(), outcome) == Gossip.Query(old(State()), id, name, payload, wanted, encodedLen, limit)
    {
      if |payload.Content()| > limit {
        return SizeLimitExceeded;
      }
      var now := query.clock.Time();
      var msg := QueryMsg(now, id, name, payload);
      if encodedLen > limit {
        return SizeLimitExceeded;
      }
      HandleQuery(msg, wanted);
      return Ok;
    }

    method SetJoin(addr: string, ignore: bool)
      requires Valid()
      modifies this`joining, this`ignoreActOnJoin
      ensures Valid()
      ensures State() == Gossip.SetJoin(old(State()), addr, ignore)
    {
      joining := joining[addr := true];
      ignoreActOnJoin := ignoreActOnJoin[addr := ignore];
    }

    method UnsetJoin(addr: string)
      requires Valid()
      modifies this`joining, this`ignoreActOnJoin
      ensures Valid()
      ensures State() == Gossip.UnsetJoin(old(State()), addr)
    {
      joining := joining - {addr};
      ignoreActOnJoin := ignoreActOnJoin - {addr};
    }

    method LocalState() returns (m: UserState)
      requires Valid()
      ensures m == Gossip.LocalState(State())
    {
      var actionTime := action.clock.Time();
      var buffer := action.GetBuffer();
      var queryTime := query.clock.Time();
      m := UserState(addr, actionTime, buffer, queryTime);
    }

    method WitnessPeer(m: UserState)
      requires Valid()
      modifies action.clock, query.clock
      ensures Valid()
      ensures State() == Gossip.WitnessPeer(old(State()), m)
    {
      if m.actionLTime > 0 {
        action.clock.Witness(m.actionLTime - 1);
      }
      if m.queryLTime > 0 {
        query.clock.Witness(m.queryLTime - 1);
      }
    }

    method IgnoreOnJoin(m: UserState)
      requires Valid()
      modifies action`actionMinTime
      ensures Valid()
      ensures State() == Gossip.IgnoreOnJoin(old(State()), m)
    {
      if IsSet(joining, m.from) && IsSet(ignoreActOnJoin, m.from) {
        var minTime := action.GetActionMinTime();
        if m.actionLTime > minTime {
          action.SetActionMinTime(m.actionLTime);
        }
      }
    }

    method ReplayGroup(group: Group)
      requires Valid()
      modifies Repr()
      ensures Valid() && fresh(Repr() - old(Repr()))
      ensures State() == HandleActions(old(State()), GroupMsgs(group))
    {
      ghost var msgs := GroupMsgs(group);
      ghost var start := State();
      for j := 0 to |group.items|
        invariant Valid() && fresh(Repr() - old(Repr()))
        invariant State() == HandleActions(start, msgs[..j])
      {
        HandleAction(ActionMsg(group.ltime, "", group.items[j].payload));
        assert msgs[..j + 1][..j] == msgs[..j];
      }
      assert msgs[..|group.items|] == msgs;
    }

    method ReplayActions(buffer: seq<Group>)
      requires Valid()
      modifies Repr()
      ensures Valid() && fresh(Repr() - old(Repr()))
      ensures State() == HandleActions(old(State()), ReplayMsgs(buffer))
    {
      for i := 0 to |buffer|
        invariant Valid() && fresh(Repr() - old(Repr()))
        invariant State() == HandleActions(old(State()), ReplayMsgs(buffer[..i]))
      {
        HandleActionsConcat(old(State()), ReplayMsgs(buffer[..i]), GroupMsgs(buffer[i]));
        ReplayGroup(buffer[i]);
        assert buffer[..i + 1][..i] == buffer[..i];
      }
      assert buffer[..|buffer|] == buffer;
    }

    method Merge(m: UserState)
      requires Valid()
      modifies Repr()
      ensures Valid() && fresh(Repr() - old(Repr()))
      ensures State() == Gossip.Merge(old(State()), m)
    {
      WitnessPeer(m);
      IgnoreOnJoin(m);
      UnsetJoin(m.from);
      ReplayActions(m.actionBuffer);
    }
  }
}
