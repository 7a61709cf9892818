// The object that keeps the failed and the left nodes.
module InactiveNodes {
  import opened Inactive

  // The search loop, the swap and the cut.
  method RemoveFromList(nodes: seq<Entry>, id: string) returns (rest: seq<Entry>)
    ensures rest == SwapDelete(nodes, id)
  {
    if |nodes| == 0 {
      return nodes;
    }
    var i := 0;
    while i < |nodes| && nodes[i].node.id != id
      invariant i <= |nodes|
      invariant forall k :: 0 <= k < i ==> nodes[k].node.id != id
    {
      i := i + 1;
    }
    assert i == Position(nodes, id);
    if i == |nodes| {
      return nodes;
    }
    rest := nodes[i := nodes[|nodes| - 1]][|nodes| - 1 := nodes[i]];
    rest := rest[..|rest| - 1];
  }

  method CollectAndRemove(nodes: seq<Entry>, m: map<string, bool>, timeout: int, now: int)
    returns (nodes': seq<Entry>, m': map<string, bool>, removed: seq<Node>)
    ensures (Index(nodes', m'), removed) == RemoveTimeouts(Index(nodes, m), timeout, now)
  {
    nodes', m', removed := nodes, m, [];
    if timeout == 0 {
      return;
    }
    for i := 0 to |nodes|
      invariant removed == Expired(nodes[..i], timeout, now)
    {
      assert nodes[..i + 1][..i] == nodes[..i];
      if now - nodes[i].since >= timeout {
        removed := removed + [nodes[i].node];
      }
    }
    assert nodes[..|nodes|] == nodes;
    for i := 0 to |removed|
      invariant Index(nodes', m') == RemoveEach(Index(nodes, m), removed[..i])
    {
      assert removed[..i + 1][..i] == removed[..i];
      nodes' := RemoveFromList(nodes', removed[i].id);
      m' := m' - {removed[i].id};
    }
    assert removed[..|removed|] == removed;
  }

  class InactiveNodes {
    const failedTimeout: int
    var failed: seq<Entry>
    var failedMap: map<string, bool>
    const leftTimeout: int
    var left: seq<Entry>
    var leftMap: map<string, bool>

    function View(): Lists
      reads this
    {
      Lists(Index(failed, failedMap), Index(left, leftMap), failedTimeout, leftTimeout)
    }

    constructor (failedTimeout: int, leftTimeout: int)
      ensures View() == NewLists(failedTimeout, leftTimeout)
    {
      this.failedTimeout, this.leftTimeout := failedTimeout, leftTimeout;
      failed, failedMap, left, leftMap := [], map[], [], map[];
    }

    method AddFail(n: Node, now: int)
      modifies `failed, `failedMap
      ensures View() == Step(old(View()), Op.AddFail(n, now))
    {
      var f := Entry(n, now);
      if Known(failedMap, n.id) {
        return;
      }
      failed := failed + [f];
      failedMap := failedMap[n.id := true];
    }

    method RemoveFailed(id: string)
      modifies `failed, `failedMap
      ensures View() == Step(old(View()), Op.RemoveFailed(id))
    {
      if !Known(failedMap, id) {
        return;
      }
      failedMap := failedMap - {id};
      failed := RemoveFromList(failed, id);
    }

    method AddLeft(n: Node, now: int)
      modifies `left, `leftMap
      ensures View() == Step(old(View()), Op.AddLeft(n, now))
    {
      if Known(leftMap, n.id) {
        return;
      }
      left := left + [Entry(n, now)];
      leftMap := leftMap[n.id := true];
    }

    method AddLeftBatch(nodes: seq<Node>, now: int)
      modifies `left, `leftMap
      ensures View() == Step(old(View()), Op.AddLeftBatch(nodes, now))
    {
      for i := 0 to |nodes|
        invariant AddBatch(Index(left, leftMap), nodes[i..], now) ==
                  AddBatch(old(Index(left, leftMap)), nodes, now)
        invariant failed == old(failed) && failedMap == old(failedMap)
      {
        assert nodes[i..][0] == nodes[i] && nodes[i..][1..] == nodes[i + 1..];
        if Known(leftMap, nodes[i].id) {
          return;
        }
        left := left + [Entry(nodes[i], now)];
        leftMap := leftMap[nodes[i].id := true];
      }
    }

    method HandleAlive(id: string)
      modifies this
      ensures View() == Step(old(View()), Op.HandleAlive(id))
    {
      if Known(failedMap, id) {
        failedMap := failedMap - {id};
        failed := RemoveFromList(failed, id);
      }
      if Known(leftMap, id) {
        leftMap := leftMap - {id};
        left := RemoveFromList(left, id);
      }
    }

    method Reap(now: int) returns (removed: seq<Node>)
      modifies this
      ensures (View(), removed) == ReapBoth(old(View()), now)
    {
      var fRemoved, lRemoved;
      failed, failedMap, fRemoved := CollectAndRemove(failed, failedMap, failedTimeout, now);
      left, leftMap, lRemoved := CollectAndRemove(left, leftMap, leftTimeout, now);
      removed := fRemoved + lRemoved;
    }
  }
}
