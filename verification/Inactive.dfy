// The failed and left nodes: for each kind a list of entries and a map from id
// to membership, changed together.
module Inactive {
  // `info` stands for everything else the node record carries.
  datatype Node = Node(id: string, info: string)

  datatype Entry = Entry(node: Node, since: int)

  datatype Index = Index(list: seq<Entry>, known: map<string, bool>)

  predicate Known(known: map<string, bool>, id: string) {
    id in known && known[id]
  }

  // --- Operations on one list and its map --------------------------------------

  function Add(ix: Index, e: Entry): Index {
    if Known(ix.known, e.node.id) then ix
    else Index(ix.list + [e], ix.known[e.node.id := true])
  }

  // Stops at the first node that is already known.
  function AddBatch(ix: Index, nodes: seq<Node>, now: int): Index
    decreases |nodes|
  {
    if nodes == [] || Known(ix.known, nodes[0].id) then ix
    else AddBatch(Add(ix, Entry(nodes[0], now)), nodes[1..], now)
  }

  // The first position with the id, or the length of the list.
  function Position(list: seq<Entry>, id: string): (i: nat)
    ensures i <= |list| && (i < |list| ==> list[i].node.id == id)
    ensures forall k :: 0 <= k < i ==> list[k].node.id != id
  {
    if list == [] || list[0].node.id == id then 0 else 1 + Position(list[1..], id)
  }

  // Swaps the entry with the last one and drops it.
  function SwapDelete(list: seq<Entry>, id: string): seq<Entry> {
    var i := Position(list, id);
    if i == |list| then list else list[i := list[|list| - 1]][..|list| - 1]
  }

  function Remove(ix: Index, id: string): Index {
    if !Known(ix.known, id) then ix else Index(SwapDelete(ix.list, id), ix.known - {id})
  }

  function Expired(list: seq<Entry>, timeout: int, now: int): seq<Node> {
    if list == [] then []
    else
      var e := list[|list| - 1];
      var rest := Expired(list[..|list| - 1], timeout, now);
      if now - e.since >= timeout then rest + [e.node] else rest
  }

  function RemoveEach(ix: Index, nodes: seq<Node>): Index {
    if nodes == [] then ix
    else
      var ix' := RemoveEach(ix, nodes[..|nodes| - 1]);
      var id := nodes[|nodes| - 1].id;
      Index(SwapDelete(ix'.list, id), ix'.known - {id})
  }

  // A zero timeout switches the removal off.
  function RemoveTimeouts(ix: Index, timeout: int, now: int): (Index, seq<Node>) {
    if timeout == 0 then (ix, [])
    else (RemoveEach(ix, Expired(ix.list, timeout, now)), Expired(ix.list, timeout, now))
  }

  // --- The index ---------------------------------------------------------------

  predicate DistinctIds(list: seq<Entry>) {
    forall i, j :: 0 <= i < j < |list| ==> list[i].node.id != list[j].node.id
  }

  ghost function Ids(list: seq<Entry>): set<string> {
    set e | e in list :: e.node.id
  }

  // The map is true for exactly the ids in the list, and each id occurs once.
  ghost predicate Agree(ix: Index) {
    DistinctIds(ix.list) && ix.known == map id | id in Ids(ix.list) :: true
  }

  lemma IdsAppend(list: seq<Entry>, e: Entry)
    ensures Ids(list + [e]) == Ids(list) + {e.node.id}
  {
    forall id | id in Ids(list) + {e.node.id}
      ensures id in Ids(list + [e])
    {
      if id == e.node.id {
        assert (list + [e])[|list|] == e;
      } else {
        var f :| f in list && f.node.id == id;
        assert f in list + [e];
      }
    }
  }

  lemma SwapDeleteExact(list: seq<Entry>, id: string)
    requires DistinctIds(list)
    ensures DistinctIds(SwapDelete(list, id))
    ensures forall e :: e in SwapDelete(list, id) <==> e in list && e.node.id != id
  {
    var i := Position(list, id);
    var r := SwapDelete(list, id);
    if i < |list| {
      var n := |list| - 1;
      assert |r| == n && forall k :: 0 <= k < n ==> r[k] == if k == i then list[n] else list[k];
      forall e | e in list && e.node.id != id
        ensures e in r
      {
        var k :| 0 <= k < |list| && list[k] == e;
        assert k != i;
        assert r[if k == n then i else k] == e;
      }
    }
  }

  lemma AddAgrees(ix: Index, e: Entry)
    requires Agree(ix)
    ensures Agree(Add(ix, e))
    ensures forall f :: f in Add(ix, e).list <==> f in ix.list || (f == e && e.node.id !in Ids(ix.list))
  {
    if !Known(ix.known, e.node.id) {
      IdsAppend(ix.list, e);
      assert forall k :: 0 <= k < |ix.list| ==> ix.list[k] in ix.list;
    }
  }

  // Removing what was just added restores the list and the map.
  lemma RemoveUndoesAdd(ix: Index, e: Entry)
    requires Agree(ix) && !Known(ix.known, e.node.id)
    ensures Remove(Add(ix, e), e.node.id) == ix
  {
    var list := ix.list + [e];
    assert forall k :: 0 <= k < |ix.list| ==> list[k] == ix.list[k] && ix.list[k] in ix.list;
    assert list[|ix.list|] == e;
    assert Position(list, e.node.id) == |ix.list|;
    assert SwapDelete(list, e.node.id) == ix.list;
    assert ix.known[e.node.id := true] - {e.node.id} == ix.known;
  }

  lemma DropAgrees(ix: Index, id: string)
    requires Agree(ix)
    ensures Agree(Index(SwapDelete(ix.list, id), ix.known - {id}))
  {
    SwapDeleteExact(ix.list, id);
    var list := SwapDelete(ix.list, id);
    forall x | x in Ids(ix.list) && x != id
      ensures x in Ids(list)
    {
      var f :| f in ix.list && f.node.id == x;
      assert f in list;
    }
    assert Ids(list) == Ids(ix.list) - {id};
  }

  lemma {:induction false} RemoveEachAgrees(ix: Index, nodes: seq<Node>)
    requires Agree(ix)
    ensures Agree(RemoveEach(ix, nodes))
  {
    if nodes != [] {
      RemoveEachAgrees(ix, nodes[..|nodes| - 1]);
      DropAgrees(RemoveEach(ix, nodes[..|nodes| - 1]), nodes[|nodes| - 1].id);
    }
  }

  lemma {:induction false} RemoveEachKeeps(ix: Index, nodes: seq<Node>, e: Entry)
    requires Agree(ix)
    ensures e in RemoveEach(ix, nodes).list <==> e in ix.list && forall n :: n in nodes ==> n.id != e.node.id
  {
    if nodes != [] {
      var front, last := nodes[..|nodes| - 1], nodes[|nodes| - 1];
      assert nodes == front + [last];
      RemoveEachKeeps(ix, front, e);
      RemoveEachAgrees(ix, front);
      SwapDeleteExact(RemoveEach(ix, front).list, last.id);
    }
  }

  // The positions of the expired entries, in list order.
  function ExpiredAt(list: seq<Entry>, timeout: int, now: int): seq<nat> {
    if list == [] then []
    else
      var n := |list| - 1;
      var rest := ExpiredAt(list[..n], timeout, now);
      if now - list[n].since >= timeout then rest + [n] else rest
  }

  lemma {:induction false} ExpiredPositions(list: seq<Entry>, timeout: int, now: int)
    ensures forall i :: i in ExpiredAt(list, timeout, now) <==> 0 <= i < |list| && now - list[i].since >= timeout
  {
    if list != [] {
      ExpiredPositions(list[..|list| - 1], timeout, now);
    }
  }

  // `picked` are the nodes of the list at strictly increasing positions `at`.
  ghost predicate PicksInOrder(list: seq<Entry>, picked: seq<Node>, at: seq<nat>) {
    && |at| == |picked|
    && (forall k :: 0 <= k < |at| ==> at[k] < |list| && list[at[k]].node == picked[k])
    && forall j, k :: 0 <= j < k < |at| ==> at[j] < at[k]
  }

  lemma {:induction false} ExpiredInOrder(list: seq<Entry>, timeout: int, now: int)
    ensures PicksInOrder(list, Expired(list, timeout, now), ExpiredAt(list, timeout, now))
  {
    if list != [] {
      var n := |list| - 1;
      ExpiredInOrder(list[..n], timeout, now);
    }
  }

  lemma ExpiredIds(list: seq<Entry>, timeout: int, now: int, e: Entry)
    requires DistinctIds(list) && e in list
    ensures (forall n :: n in Expired(list, timeout, now) ==> n.id != e.node.id) <==> now - e.since < timeout
  {
    var removed, at := Expired(list, timeout, now), ExpiredAt(list, timeout, now);
    ExpiredInOrder(list, timeout, now);
    ExpiredPositions(list, timeout, now);
    var i :| 0 <= i < |list| && list[i] == e;
    if now - e.since >= timeout {
      var k :| 0 <= k < |at| && at[k] == i;
      assert removed[k] == e.node;
    } else {
      forall n | n in removed
        ensures n.id != e.node.id
      {
        var k :| 0 <= k < |removed| && removed[k] == n;
        assert at[k] in at && at[k] != i;
      }
    }
  }

  // With one clock reading and a non-zero timeout the removal returns exactly
  // the expired nodes, in their list order, and keeps exactly the other entries,
  // although deleting by swapping reorders the list it works on.
  lemma RemoveTimeoutsExact(ix: Index, timeout: int, now: int)
    requires Agree(ix)
    ensures var (ix', removed) := RemoveTimeouts(ix, timeout, now);
      var at := ExpiredAt(ix.list, timeout, now);
      && Agree(ix')
      && (timeout == 0 ==> ix' == ix && removed == [])
      && (timeout != 0 ==>
            && PicksInOrder(ix.list, removed, at)
            && (forall i :: i in at <==> 0 <= i < |ix.list| && now - ix.list[i].since >= timeout)
            && forall e :: e in ix'.list <==> e in ix.list && now - e.since < timeout)
  {
    if timeout != 0 {
      var removed := Expired(ix.list, timeout, now);
      ExpiredInOrder(ix.list, timeout, now);
      ExpiredPositions(ix.list, timeout, now);
      RemoveEachAgrees(ix, removed);
      forall e
        ensures e in RemoveEach(ix, removed).list <==> e in ix.list && now - e.since < timeout
      {
        RemoveEachKeeps(ix, removed, e);
        if e in ix.list {
          ExpiredIds(ix.list, timeout, now, e);
        }
      }
    }
  }

  // --- Batches -------------------------------------------------------------------

  // How many nodes of a batch are added: those before the first that is known,
  // or repeats an earlier one of the batch.
  ghost predicate Fresh(ix: Index, nodes: seq<Node>, k: nat)
    requires k <= |nodes|
  {
    && (forall i :: 0 <= i < k ==> nodes[i].id !in ix.known)
    && forall i, j :: 0 <= i < j < k ==> nodes[i].id != nodes[j].id
  }

  function Entries(nodes: seq<Node>, now: int): seq<Entry> {
    seq(|nodes|, i requires 0 <= i < |nodes| => Entry(nodes[i], now))
  }

  // How many of a batch are added.
  function Added(ix: Index, nodes: seq<Node>, now: int): (k: nat)
    ensures k <= |nodes|
    decreases |nodes|
  {
    if nodes == [] || Known(ix.known, nodes[0].id) then 0
    else 1 + Added(Add(ix, Entry(nodes[0], now)), nodes[1..], now)
  }

  lemma {:induction false} BatchAgrees(ix: Index, nodes: seq<Node>, now: int)
    requires Agree(ix)
    ensures Agree(AddBatch(ix, nodes, now))
    decreases |nodes|
  {
    if nodes != [] && !Known(ix.known, nodes[0].id) {
      AddAgrees(ix, Entry(nodes[0], now));
      BatchAgrees(Add(ix, Entry(nodes[0], now)), nodes[1..], now);
    }
  }

  lemma EntriesShift(nodes: seq<Node>, now: int, k: nat)
    requires k < |nodes|
    ensures Entries(nodes[..k + 1], now) == [Entry(nodes[0], now)] + Entries(nodes[1..][..k], now)
  {
  }

  lemma {:induction false} BatchAdds(ix: Index, nodes: seq<Node>, now: int)
    ensures AddBatch(ix, nodes, now).list == ix.list + Entries(nodes[..Added(ix, nodes, now)], now)
    decreases |nodes|
  {
    if nodes == [] || Known(ix.known, nodes[0].id) {
      assert Entries(nodes[..0], now) == [];
    } else {
      var ix' := Add(ix, Entry(nodes[0], now));
      var k := Added(ix', nodes[1..], now);
      BatchAdds(ix', nodes[1..], now);
      EntriesShift(nodes, now, k);
    }
  }

  lemma {:induction false} AddedIsLongestFresh(ix: Index, nodes: seq<Node>, now: int)
    requires Agree(ix)
    ensures Fresh(ix, nodes, Added(ix, nodes, now))
    ensures Added(ix, nodes, now) < |nodes| ==> !Fresh(ix, nodes, Added(ix, nodes, now) + 1)
    decreases |nodes|
  {
    if nodes != [] && !Known(ix.known, nodes[0].id) {
      var e, rest := Entry(nodes[0], now), nodes[1..];
      var k := Added(Add(ix, e), rest, now);
      AddAgrees(ix, e);
      AddedIsLongestFresh(Add(ix, e), rest, now);
      FreshShift(ix, nodes, now, k);
      if k < |rest| {
        FreshShift(ix, nodes, now, k + 1);
      }
    }
  }

  // A batch adds its longest fresh prefix and nothing after it; so all of it is
  // added exactly if no id in it is known or repeated.
  lemma BatchAddsFreshPrefix(ix: Index, nodes: seq<Node>, now: int)
    requires Agree(ix)
    ensures var k := Added(ix, nodes, now);
      && Agree(AddBatch(ix, nodes, now))
      && AddBatch(ix, nodes, now).list == ix.list + Entries(nodes[..k], now)
      && Fresh(ix, nodes, k) && (k < |nodes| ==> !Fresh(ix, nodes, k + 1))
      && (AddBatch(ix, nodes, now).list == ix.list + Entries(nodes, now) <==> Fresh(ix, nodes, |nodes|))
  {
    BatchAgrees(ix, nodes, now);
    BatchAdds(ix, nodes, now);
    AddedIsLongestFresh(ix, nodes, now);
    var k := Added(ix, nodes, now);
    if k == |nodes| {
      assert nodes[..k] == nodes;
    } else {
      assert |AddBatch(ix, nodes, now).list| == |ix.list| + k;
    }
  }

  lemma FreshShift(ix: Index, nodes: seq<Node>, now: int, k: nat)
    requires nodes != [] && nodes[0].id !in ix.known && k < |nodes|
    ensures Fresh(ix, nodes, k + 1) <==> Fresh(Add(ix, Entry(nodes[0], now)), nodes[1..], k)
  {
    var rest := nodes[1..];
    var ix' := Add(ix, Entry(nodes[0], now));
    if Fresh(ix', rest, k) {
      forall i | 0 <= i < k + 1
        ensures nodes[i].id !in ix.known && (i > 0 ==> nodes[i].id != nodes[0].id)
      {
        if i > 0 {
          assert rest[i - 1] == nodes[i];
        }
      }
      forall i, j | 0 <= i < j < k + 1
        ensures nodes[i].id != nodes[j].id
      {
        if i > 0 {
          assert rest[i - 1] == nodes[i] && rest[j - 1] == nodes[j];
        }
      }
    }
    if Fresh(ix, nodes, k + 1) {
      assert forall i :: 0 <= i < k ==> rest[i] == nodes[i + 1];
    }
  }

  // --- Both lists together -------------------------------------------------------

  datatype Lists = Lists(failed: Index, left: Index, failedTimeout: int, leftTimeout: int)

  datatype Op =
    | AddFail(n: Node, now: int)
    | AddLeft(n: Node, now: int)
    | AddLeftBatch(nodes: seq<Node>, now: int)
    | RemoveFailed(id: string)
    | HandleAlive(id: string)
    | Reap(now: int)

  function ReapBoth(s: Lists, now: int): (Lists, seq<Node>) {
    var (failed, f) := RemoveTimeouts(s.failed, s.failedTimeout, now);
    var (left, l) := RemoveTimeouts(s.left, s.leftTimeout, now);
    (s.(failed := failed, left := left), f + l)
  }

  function Step(s: Lists, op: Op): Lists {
    match op
    case AddFail(n, now) => s.(failed := Add(s.failed, Entry(n, now)))
    case AddLeft(n, now) => s.(left := Add(s.left, Entry(n, now)))
    case AddLeftBatch(nodes, now) => s.(left := AddBatch(s.left, nodes, now))
    case RemoveFailed(id) => s.(failed := Remove(s.failed, id))
    case HandleAlive(id) => s.(failed := Remove(s.failed, id), left := Remove(s.left, id))
    case Reap(now) => ReapBoth(s, now).0
  }

  function Run(s: Lists, ops: seq<Op>): Lists {
    if ops == [] then s else Step(Run(s, ops[..|ops| - 1]), ops[|ops| - 1])
  }

  function NewLists(failedTimeout: int, leftTimeout: int): Lists {
    Lists(Index([], map[]), Index([], map[]), failedTimeout, leftTimeout)
  }

  // Through every sequence of operations both maps agree with their lists.
  lemma {:induction false} IndexesAlwaysAgree(failedTimeout: int, leftTimeout: int, ops: seq<Op>)
    ensures var s := Run(NewLists(failedTimeout, leftTimeout), ops);
      Agree(s.failed) && Agree(s.left) && s.failedTimeout == failedTimeout && s.leftTimeout == leftTimeout
  {
    if ops != [] {
      IndexesAlwaysAgree(failedTimeout, leftTimeout, ops[..|ops| - 1]);
      StepAgrees(Run(NewLists(failedTimeout, leftTimeout), ops[..|ops| - 1]), ops[|ops| - 1]);
    }
  }

  lemma StepAgrees(s: Lists, op: Op)
    requires Agree(s.failed) && Agree(s.left)
    ensures Agree(Step(s, op).failed) && Agree(Step(s, op).left)
  {
    match op
    case AddFail(n, now) => AddAgrees(s.failed, Entry(n, now));
    case AddLeft(n, now) => AddAgrees(s.left, Entry(n, now));
    case AddLeftBatch(nodes, now) => BatchAgrees(s.left, nodes, now);
    case RemoveFailed(id) => DropAgrees(s.failed, id);
    case HandleAlive(id) =>
      DropAgrees(s.failed, id);
      DropAgrees(s.left, id);
    case Reap(now) =>
      RemoveTimeoutsExact(s.failed, s.failedTimeout, now);
      RemoveTimeoutsExact(s.left, s.leftTimeout, now);
  }

  // After a node is seen alive it is in neither list and in neither map, and
  // every other entry is still there.
  lemma AliveForgets(s: Lists, id: string)
    requires Agree(s.failed) && Agree(s.left)
    ensures var s' := Step(s, HandleAlive(id));
      && id !in s'.failed.known && id !in s'.left.known
      && (forall e :: e in s'.failed.list <==> e in s.failed.list && e.node.id != id)
      && (forall e :: e in s'.left.list <==> e in s.left.list && e.node.id != id)
  {
    SwapDeleteExact(s.failed.list, id);
    SwapDeleteExact(s.left.list, id);
  }

  // What an entry's membership becomes when a node is added or removed.
  ghost predicate Gains(list: seq<Entry>, list': seq<Entry>, e: Entry) {
    forall f :: f in list' <==> f in list || (f == e && e.node.id !in Ids(list))
  }

  ghost predicate Loses(list: seq<Entry>, list': seq<Entry>, id: string) {
    forall f :: f in list' <==> f in list && f.node.id != id
  }

  // Each operation on one node changes the list it names, in that node only, and
  // leaves the other list alone; a node already listed keeps its old time.
  lemma OneNodeOnly(s: Lists, n: Node, now: int)
    requires Agree(s.failed) && Agree(s.left)
    ensures var s' := Step(s, AddFail(n, now));
      s'.left == s.left && Gains(s.failed.list, s'.failed.list, Entry(n, now))
    ensures var s' := Step(s, AddLeft(n, now));
      s'.failed == s.failed && Gains(s.left.list, s'.left.list, Entry(n, now))
    ensures var s' := Step(s, RemoveFailed(n.id));
      s'.left == s.left && Loses(s.failed.list, s'.failed.list, n.id)
  {
    AddAgrees(s.failed, Entry(n, now));
    AddAgrees(s.left, Entry(n, now));
    SwapDeleteExact(s.failed.list, n.id);
  }

  // A batch goes to the list of left nodes, all of it with the time of the call.
  lemma BatchIsLeft(s: Lists, nodes: seq<Node>, now: int)
    requires Agree(s.left)
    ensures var s' := Step(s, AddLeftBatch(nodes, now));
      && s'.failed == s.failed && s.left.list <= s'.left.list && |s'.left.list| <= |s.left.list| + |nodes|
      && forall i :: |s.left.list| <= i < |s'.left.list| ==> s'.left.list[i] == Entry(nodes[i - |s.left.list|], now)
  {
    BatchAddsFreshPrefix(s.left, nodes, now);
  }

  // The nodes of a list that have been in it for the timeout, in list order, and
  // what stays; a timeout of zero removes nothing.
  ghost predicate Reaped(list: seq<Entry>, list': seq<Entry>, removed: seq<Node>, at: seq<nat>, timeout: int, now: int) {
    if timeout == 0 then list' == list && removed == []
    else
      && PicksInOrder(list, removed, at)
      && (forall i :: i in at <==> 0 <= i < |list| && now - list[i].since >= timeout)
      && forall e :: e in list' <==> e in list && now - e.since < timeout
  }

  // A reap takes the failed nodes by the one timeout and the left nodes by the
  // other, and returns the failed ones first.
  lemma ReapExact(s: Lists, now: int)
    requires Agree(s.failed) && Agree(s.left)
    ensures var (s', removed) := ReapBoth(s, now);
      exists f, l, atF, atL ::
        && removed == f + l
        && Reaped(s.failed.list, s'.failed.list, f, atF, s.failedTimeout, now)
        && Reaped(s.left.list, s'.left.list, l, atL, s.leftTimeout, now)
  {
    RemoveTimeoutsExact(s.failed, s.failedTimeout, now);
    RemoveTimeoutsExact(s.left, s.leftTimeout, now);
    var (s', removed) := ReapBoth(s, now);
    var f, l := RemoveTimeouts(s.failed, s.failedTimeout, now).1, RemoveTimeouts(s.left, s.leftTimeout, now).1;
    assert removed == f + l;
    assert Reaped(s.failed.list, s'.failed.list, f, ExpiredAt(s.failed.list, s.failedTimeout, now), s.failedTimeout, now);
    assert Reaped(s.left.list, s'.left.list, l, ExpiredAt(s.left.list, s.leftTimeout, now), s.leftTimeout, now);
  }
}
