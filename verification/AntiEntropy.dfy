// The state exchange as a join: what a merge leaves a node knowing.
module AntiEntropy {
  import opened Lamport
  import opened Buffer
  import opened History
  import opened Gossip
  import opened NodeRuns

  predicate InWindow(n: nat, clock: nat, t: LTime) {
    t + n >= clock
  }

  ghost function RingItems(r: Ring): set<Item> {
    set i, x | 0 <= i < |r| && r[i].Some? && x in r[i].value.items :: x
  }

  // What a node knows of the actions: its clock and the items still in its window.
  datatype View = View(clock: nat, items: set<Item>)

  ghost function ViewOf(g: Gate): View {
    View(g.clock, set x | x in RingItems(g.ring) && InWindow(|g.ring|, g.clock, x.ltime))
  }

  ghost function Cut(n: nat, clock: nat, items: set<Item>): set<Item> {
    set x | x in items && InWindow(n, clock, x.ltime)
  }

  ghost function Join(n: nat, v: View, w: View): View {
    var clock := Max(v.clock, w.clock);
    View(clock, Cut(n, clock, v.items + w.items))
  }

  // The ring still holds every accepted item of the window, and nothing that
  // was not accepted.
  lemma ViewIsRecentHistory(g: Gate, h: seq<Item>)
    requires Refines(g, h)
    ensures forall x :: x in RingItems(g.ring) ==> x in h
    ensures forall x :: x in ViewOf(g).items <==> x in h && InWindow(|g.ring|, g.clock, x.ltime)
  {
    var n := |g.ring|;
    forall x | x in RingItems(g.ring)
      ensures x in h
    {
      var i :| 0 <= i < n && g.ring[i].Some? && x in g.ring[i].value.items;
      AtTimeMembers(h, Latest(n, h, i).value);
    }
    forall x | x in h && InWindow(n, g.clock, x.ltime)
      ensures x in RingItems(g.ring)
    {
      var i := x.ltime % n;
      LatestIsLatest(n, h, i);
      var t := Latest(n, h, i).value;
      if x.ltime < t {
        CongruentTimes(n, x.ltime, t);
        assert false;
      }
      AtTimeMembers(h, t);
      assert x in g.ring[i].value.items;
    }
  }

  lemma {:induction false} AtTimeNoneEqual(h: seq<Item>, t: LTime)
    requires NoneEqual(h)
    ensures NoneEqual(AtTime(h, t))
  {
    if h != [] {
      var front, x := h[..|h| - 1], h[|h| - 1];
      AtTimeNoneEqual(front, t);
      AtTimeMembers(front, t);
      var s := AtTime(front, t);
      forall k | 0 <= k < |s|
        ensures !Equal(s[k], x)
      {
        assert s[k] in front;
        var j :| 0 <= j < |front| && front[j] == s[k];
        assert h[j] == s[k];
      }
    }
  }

  // The items a peer offers when it replays the first k slots of a ring.
  function Offered(r: Ring, k: nat): seq<Item>
    requires k <= |r|
  {
    ActionItems(ReplayMsgs(CopyRing(r)[..k]))
  }

  lemma OfferedNext(r: Ring, k: nat)
    requires k < |r|
    requires r[k].Some? ==> forall x :: x in r[k].value.items ==> x.id == 0 && x.ltime == r[k].value.ltime
    ensures Offered(r, k + 1) == Offered(r, k) + if r[k].Some? then r[k].value.items else []
  {
    var copy := CopyRing(r);
    assert copy[..k + 1][..k] == copy[..k];
    var msgs := GroupMsgs(copy[k]);
    assert ActionItems(ReplayMsgs(copy[..k]) + msgs) == ActionItems(ReplayMsgs(copy[..k])) + ActionItems(msgs);
    if r[k].Some? {
      var items := r[k].value.items;
      forall j | 0 <= j < |items|
        ensures ActionItems(msgs)[j] == items[j]
      {
        assert items[j] in items;
      }
      assert ActionItems(msgs) == items;
    }
  }

  // Replaying a ring offers its items, each once and none blocking another.
  lemma {:induction false} OfferedItems(g: Gate, h: seq<Item>, k: nat)
    requires Refines(g, h) && k <= |g.ring|
    requires forall x :: x in h ==> x.id == 0
    ensures NoneEqual(Offered(g.ring, k))
    ensures forall x :: x in Offered(g.ring, k) <==>
              exists i :: 0 <= i < k && g.ring[i].Some? && x in g.ring[i].value.items
    ensures forall x :: x in Offered(g.ring, k) ==> x in h && x.ltime % |g.ring| < k
  {
    if k > 0 {
      var i := k - 1;
      OfferedItems(g, h, i);
      if g.ring[i].Some? {
        LatestIsLatest(|g.ring|, h, i);
        var t := Latest(|g.ring|, h, i).value;
        AtTimeMembers(h, t);
        AtTimeNoneEqual(h, t);
      }
      OfferedNext(g.ring, i);
    }
  }

  function OfferAll(items: seq<Item>): seq<GateOp> {
    seq(|items|, k requires 0 <= k < |items| => OfferItem(items[k]))
  }

  lemma EarlierOffersDoNotBlock(h: seq<Item>, taken: seq<Item>, items: seq<Item>)
    requires items != [] && NoneEqual(items)
    requires forall y :: y in taken ==> y in items[..|items| - 1]
    ensures Blocked(h + taken, items[|items| - 1]) <==> Blocked(h, items[|items| - 1])
  {
    var front, x := items[..|items| - 1], items[|items| - 1];
    forall y | y in taken
      ensures !Equal(y, x)
    {
      var j :| 0 <= j < |front| && front[j] == y;
      assert items[j] == y;
    }
    assert forall y :: y in h ==> y in h + taken;
  }

  // The gate g became g1 by taking exactly those of the items it would have
  // taken one by one at the start.
  ghost predicate Took(g: Gate, h: seq<Item>, items: seq<Item>, g1: Gate, taken: seq<Item>) {
    && g1.clock == g.clock && g1.minTime == g.minTime && |g1.ring| == |g.ring|
    && Refines(g1, h + taken)
    && forall x :: x in taken <==> x in items && Admits(|g.ring|, g.clock, g.minTime, h, x)
  }

  lemma ReplayOneMore(g: Gate, h: seq<Item>, items: seq<Item>, g1: Gate, taken: seq<Item>)
    requires items != [] && NoneEqual(items) && items[|items| - 1].ltime < g.clock
    requires Took(g, h, items[..|items| - 1], g1, taken)
    ensures var (g2, last) := Apply(g1, OfferItem(items[|items| - 1]));
      Took(g, h, items, g2, taken + last)
  {
    var front, x := items[..|items| - 1], items[|items| - 1];
    OfferRefinesHistory(g1, h + taken, x);
    EarlierOffersDoNotBlock(h, taken, items);
    assert (h + taken) + [x] == h + (taken + [x]) && taken + [] == taken;
    assert items == front + [x];
  }

  // A gate that is offered mutually distinct items from its past takes exactly
  // those it would have taken one by one at the start.
  lemma {:induction false} ReplayTakes(g: Gate, h: seq<Item>, items: seq<Item>)
    requires Refines(g, h) && NoneEqual(items)
    requires forall x :: x in items ==> x.ltime < g.clock
    ensures var (g', taken) := RunGate(g, OfferAll(items)); Took(g, h, items, g', taken)
  {
    if items == [] {
      assert h + [] == h;
    } else {
      var front := items[..|items| - 1];
      ReplayTakes(g, h, front);
      assert OfferAll(items)[..|items| - 1] == OfferAll(front);
      var (g1, t1) := RunGate(g, OfferAll(front));
      ReplayOneMore(g, h, items, g1, t1);
    }
  }

  // --- One merge -------------------------------------------------------------

  predicate Ignoring(s: NodeState, from: string) {
    IsSet(s.joining, from) && IsSet(s.ignoreActOnJoin, from)
  }

  // The minimum time during and after a merge.
  function FloorAfter(s: NodeState, m: UserState): LTime {
    if Ignoring(s, m.from) && m.actionLTime > s.action.minTime then m.actionLTime else s.action.minTime
  }

  lemma MergeClocksRefines(a: NodeState, m: UserState)
    requires Refines(a.action, ActionItems(a.actionsQueued))
    ensures var s := MergeClocks(a, m);
      && Refines(s.action, ActionItems(s.actionsQueued)) && s.actionsQueued == a.actionsQueued
      && s.action == Gate(Max(a.action.clock, m.actionLTime), FloorAfter(a, m), a.action.ring)
  {
    if m.actionLTime > 0 {
      WitnessedIsMax(a.action.clock, m.actionLTime - 1);
    }
  }

  // On top of its own history the node takes from the peer's ring what a gate
  // with the merged clock and minimum time admits.
  lemma MergeTakes(a: NodeState, b: NodeState, n: nat) returns (taken: seq<Item>)
    requires NodeInv(a) && NodeInv(b) && |a.action.ring| == |b.action.ring| == n
    ensures var m := Merge(a, LocalState(b));
      && m.action.clock == Max(a.action.clock, b.action.clock)
      && m.action.minTime == FloorAfter(a, LocalState(b))
      && |m.action.ring| == n
      && ActionItems(m.actionsQueued) == ActionItems(a.actionsQueued) + taken
      && Refines(m.action, ActionItems(a.actionsQueued) + taken)
      && forall x :: x in taken <==>
           (x in RingItems(b.action.ring) &&
            Admits(n, m.action.clock, m.action.minTime, ActionItems(a.actionsQueued), x))
  {
    var p := LocalState(b);
    var s := MergeClocks(a, p);
    var ha := ActionItems(a.actionsQueued);
    MergeClocksRefines(a, p);
    var items := Offered(b.action.ring, n);
    assert CopyRing(b.action.ring)[..n] == CopyRing(b.action.ring);
    OfferedItems(b.action, ActionItems(b.actionsQueued), n);
    ReplayTakes(s.action, ha, items);
    HandleActionsFollow(s, ReplayMsgs(p.actionBuffer));
    assert Offers(ReplayMsgs(p.actionBuffer)) == OfferAll(items);
    taken := RunGate(s.action, OfferAll(items)).1;
    assert forall x :: x in items <==> x in RingItems(b.action.ring);
  }

  // A sent state offers only items below its clock.
  lemma SentItemsDoNotWrap(b: NodeState)
    requires NodeInv(b)
    ensures NoWraps(Offers(ReplayMsgs(LocalState(b).actionBuffer)))
  {
    var n := |b.action.ring|;
    var items := Offered(b.action.ring, n);
    assert CopyRing(b.action.ring)[..n] == CopyRing(b.action.ring);
    OfferedItems(b.action, ActionItems(b.actionsQueued), n);
    var ops := Offers(ReplayMsgs(LocalState(b).actionBuffer));
    forall k | 0 <= k < |ops|
      ensures ops[k].NoWrap()
    {
      assert ops[k].x == items[k] && items[k] in items;
    }
  }

  lemma MergeKeepsInv(a: NodeState, b: NodeState)
    requires NodeInv(a) && NodeInv(b)
    ensures NodeInv(Merge(a, LocalState(b)))
  {
    var op := DoMerge(LocalState(b));
    SentItemsDoNotWrap(b);
    assert NoWrapStep(a, op);
    RunOne(a, op);
    RunKeepsInv(a, [op]);
  }

  // A merge sets the clock to the larger of the two and adds exactly those
  // items of the peer's view that are still in the new window, not below the
  // minimum time, and not blocked by an item already in the node's own view.
  lemma MergeExact(a: NodeState, b: NodeState)
    requires NodeInv(a) && NodeInv(b) && |a.action.ring| == |b.action.ring|
    ensures var m := Merge(a, LocalState(b));
      var n := |a.action.ring|;
      && NodeInv(m) && |m.action.ring| == n
      && (forall x :: x in ActionItems(m.actionsQueued) ==>
            x in ActionItems(a.actionsQueued) || x in ActionItems(b.actionsQueued))
      && m.action.minTime == FloorAfter(a, LocalState(b))
      && m.action.clock == Max(a.action.clock, b.action.clock)
      && forall x :: x in ViewOf(m.action).items <==>
           && InWindow(n, m.action.clock, x.ltime)
           && (x in ViewOf(a.action).items ||
               (x in ViewOf(b.action).items && x.ltime >= m.action.minTime && NotBlockedBy(ViewOf(a.action), x)))
  {
    var n := |a.action.ring|;
    var ha, hb := ActionItems(a.actionsQueued), ActionItems(b.actionsQueued);
    MergeKeepsInv(a, b);
    var taken := MergeTakes(a, b, n);
    ViewsCompose(a.action, ha, b.action, hb, Merge(a, LocalState(b)).action, taken);
  }

  lemma ViewsCompose(a: Gate, ha: seq<Item>, b: Gate, hb: seq<Item>, m: Gate, taken: seq<Item>)
    requires Refines(a, ha) && Refines(b, hb) && Refines(m, ha + taken)
    requires |a.ring| == |b.ring| == |m.ring| && m.clock == Max(a.clock, b.clock)
    requires forall x :: x in taken <==> x in RingItems(b.ring) && Admits(|m.ring|, m.clock, m.minTime, ha, x)
    ensures forall x :: x in taken ==> x in hb
    ensures forall x :: x in ViewOf(m).items <==>
              && InWindow(|m.ring|, m.clock, x.ltime)
              && (x in ViewOf(a).items ||
                  (x in ViewOf(b).items && x.ltime >= m.minTime && NotBlockedBy(ViewOf(a), x)))
  {
    ViewIsRecentHistory(a, ha);
    ViewIsRecentHistory(b, hb);
    ViewIsRecentHistory(m, ha + taken);
    forall x: Item | InWindow(|m.ring|, m.clock, x.ltime)
      ensures Blocked(ha, x) <==> !NotBlockedBy(ViewOf(a), x)
    {
    }
  }

  ghost predicate NotBlockedBy(v: View, x: Item) {
    forall y :: y in v.items ==> !Equal(y, x)
  }

  // A stored nil payload hides every other payload of its time, and a stored
  // empty one hides nil.
  predicate Masks(stored: Item, offered: Item) {
    stored.ltime == offered.ltime &&
    (stored.payload == Nil || (stored.payload == Bytes([]) && offered.payload == Nil))
  }

  // Nothing stands in the way of b's news at a: every item of b's view that a
  // does not have and that is still in the window of the later clock is at or
  // above a's minimum time and not masked by an item of a's view.
  ghost predicate Unhindered(a: NodeState, b: NodeState) {
    forall y :: y in ViewOf(b.action).items && y !in ViewOf(a.action).items &&
                InWindow(|a.action.ring|, Max(a.action.clock, b.action.clock), y.ltime) ==>
      y.ltime >= FloorAfter(a, LocalState(b)) && forall x :: x in ViewOf(a.action).items ==> !Masks(x, y)
  }

  // A merge is the join of the two views if and only if nothing stands in the
  // way of the peer's news.
  lemma MergeIsJoinIff(a: NodeState, b: NodeState)
    requires NodeInv(a) && NodeInv(b) && |a.action.ring| == |b.action.ring|
    ensures ViewOf(Merge(a, LocalState(b)).action) == Join(|a.action.ring|, ViewOf(a.action), ViewOf(b.action))
            <==> Unhindered(a, b)
  {
    MergeExact(a, b);
    ViewIsRecentHistory(a.action, ActionItems(a.actionsQueued));
    ViewIsRecentHistory(b.action, ActionItems(b.actionsQueued));
    JoinIff(|a.action.ring|, ViewOf(a.action), ViewOf(b.action), ViewOf(Merge(a, LocalState(b)).action),
            FloorAfter(a, LocalState(b)));
  }

  // A merge keeps what is its own and in the window, and takes nothing from
  // outside the join.
  ghost predicate Within(n: nat, own: View, peer: View, merged: View) {
    var clock := Max(own.clock, peer.clock);
    merged.clock == clock && Cut(n, clock, own.items) <= merged.items <= Cut(n, clock, own.items + peer.items)
  }

  lemma MergeIsWithin(a: NodeState, b: NodeState)
    requires NodeInv(a) && NodeInv(b) && |a.action.ring| == |b.action.ring|
    ensures Within(|a.action.ring|, ViewOf(a.action), ViewOf(b.action), ViewOf(Merge(a, LocalState(b)).action))
  {
    MergeExact(a, b);
  }

  lemma SameIffJoins(n: nat, v: View, w: View, vw: View, wv: View)
    requires Within(n, v, w, vw) && Within(n, w, v, wv)
    ensures vw == wv <==> vw == Join(n, v, w) && wv == Join(n, w, v)
  {
    var clock := Max(v.clock, w.clock);
    JoinCommutes(n, v, w);
    assert Cut(n, clock, v.items) + Cut(n, clock, w.items) == Cut(n, clock, v.items + w.items);
  }

  // A two-way exchange leaves both sides with the same view if and only if
  // nothing stands in the way of either side's news.
  lemma ExchangeAgreesIff(a: NodeState, b: NodeState)
    requires NodeInv(a) && NodeInv(b) && |a.action.ring| == |b.action.ring|
    ensures ViewOf(Merge(a, LocalState(b)).action) == ViewOf(Merge(b, LocalState(a)).action)
            <==> Unhindered(a, b) && Unhindered(b, a)
  {
    MergeIsJoinIff(a, b);
    MergeIsJoinIff(b, a);
    MergeIsWithin(a, b);
    MergeIsWithin(b, a);
    SameIffJoins(|a.action.ring|, ViewOf(a.action), ViewOf(b.action),
                 ViewOf(Merge(a, LocalState(b)).action), ViewOf(Merge(b, LocalState(a)).action));
  }

  lemma JoinIff(n: nat, va: View, vb: View, vm: View, floor: LTime)
    requires vm.clock == Max(va.clock, vb.clock)
    requires forall x :: x in va.items || x in vb.items ==> x.id == 0
    requires forall x :: x in vm.items <==>
               && InWindow(n, vm.clock, x.ltime)
               && (x in va.items || (x in vb.items && x.ltime >= floor && NotBlockedBy(va, x)))
    ensures vm == Join(n, va, vb) <==>
      forall y :: y in vb.items && y !in va.items && InWindow(n, vm.clock, y.ltime) ==>
        y.ltime >= floor && forall x :: x in va.items ==> !Masks(x, y)
  {
    forall x, y | x in va.items && y in vb.items && y !in va.items
      ensures Masks(x, y) <==> Equal(x, y)
    {
    }
    forall y | y in vb.items && y !in va.items
      ensures NotBlockedBy(va, y) <==> forall x :: x in va.items ==> !Masks(x, y)
    {
    }
    var j := Join(n, va, vb);
    assert vm == j <==> vm.items == j.items;
  }

  // An item masked on one side only makes an exchange end in disagreement.
  lemma MaskedItemDiverges(a: NodeState, b: NodeState, x: Item, y: Item)
    requires NodeInv(a) && NodeInv(b) && |a.action.ring| == |b.action.ring|
    requires x in ViewOf(a.action).items && y in ViewOf(b.action).items && y !in ViewOf(a.action).items
    requires InWindow(|a.action.ring|, a.action.clock, y.ltime) && Masks(x, y)
    ensures y !in ViewOf(Merge(a, LocalState(b)).action).items
    ensures y in ViewOf(Merge(b, LocalState(a)).action).items
  {
    MergeExact(a, b);
    MergeExact(b, a);
    ViewIsRecentHistory(a.action, ActionItems(a.actionsQueued));
    ViewIsRecentHistory(b.action, ActionItems(b.actionsQueued));
    assert Equal(x, y);
  }

  // --- Laws --------------------------------------------------------------------

  // A node whose actions all carry a payload, whose minimum time bars none of
  // the actions in play, and that is not ignoring a peer.
  ghost predicate Ordinary(s: NodeState, n: nat, floor: LTime) {
    && NodeInv(s) && |s.action.ring| == n && s.action.minTime <= floor
    && (forall x :: x in ActionItems(s.actionsQueued) ==> x.payload.Bytes? && x.ltime >= floor)
    && forall addr :: !Ignoring(s, addr)
  }

  lemma MergeIsJoin(a: NodeState, b: NodeState, n: nat, floor: LTime)
    requires Ordinary(a, n, floor) && Ordinary(b, n, floor)
    ensures Ordinary(Merge(a, LocalState(b)), n, floor)
    ensures ViewOf(Merge(a, LocalState(b)).action) == Join(n, ViewOf(a.action), ViewOf(b.action))
  {
    MergeIsJoinIff(a, b);
    MergeExact(a, b);
    ViewIsRecentHistory(a.action, ActionItems(a.actionsQueued));
    ViewIsRecentHistory(b.action, ActionItems(b.actionsQueued));
    var m := Merge(a, LocalState(b));
    assert m.joining == a.joining - {b.addr} && m.ignoreActOnJoin == a.ignoreActOnJoin - {b.addr} by {
      HandleActionsKeepRest(MergeClocks(a, LocalState(b)), ReplayMsgs(LocalState(b).actionBuffer));
    }
    assert forall addr :: Ignoring(m, addr) ==> Ignoring(a, addr);
  }

  // Of queries a merge passes on the clock only.
  lemma MergeJoinsQueryClocks(a: NodeState, b: NodeState)
    ensures var m := Merge(a, LocalState(b));
      && m.query == a.query.(clock := Max(a.query.clock, b.query.clock))
      && m.queriesQueued == a.queriesQueued
  {
    HandleActionsKeepRest(MergeClocks(a, LocalState(b)), ReplayMsgs(LocalState(b).actionBuffer));
    if b.query.clock > 0 {
      WitnessedIsMax(a.query.clock, b.query.clock - 1);
    }
  }

  // A merge ends the joining of its sender and of nobody else, so a second state
  // from the same address no longer raises the minimum time.
  lemma MergeEndsJoining(s: NodeState, m: UserState, again: UserState, addr: string)
    requires again.from == m.from
    ensures addr != m.from ==> (Ignoring(Merge(s, m), addr) <==> Ignoring(s, addr))
    ensures Merge(s, m).action.minTime == FloorAfter(s, m)
    ensures Merge(Merge(s, m), again).action.minTime == Merge(s, m).action.minTime
  {
    HandleActionsKeepRest(MergeClocks(s, m), ReplayMsgs(m.actionBuffer));
    HandleActionsKeepRest(MergeClocks(Merge(s, m), again), ReplayMsgs(again.actionBuffer));
  }

  lemma JoinCommutes(n: nat, v: View, w: View)
    ensures Join(n, v, w) == Join(n, w, v)
  {
    assert v.items + w.items == w.items + v.items;
  }

  lemma JoinAbsorbs(n: nat, v: View, w: View)
    ensures Join(n, Join(n, v, w), w) == Join(n, v, w)
  {
    assert Join(n, Join(n, v, w), w).items == Join(n, v, w).items;
  }

  lemma JoinAssociates(n: nat, u: View, v: View, w: View)
    ensures Join(n, Join(n, u, v), w) == Join(n, u, Join(n, v, w))
  {
    assert Join(n, Join(n, u, v), w).items == Join(n, u, Join(n, v, w)).items;
  }

  // Merging the same state again changes nothing, masked and barred items
  // included: what the first merge refused, the second refuses too.
  lemma MergeIsIdempotent(a: NodeState, b: NodeState)
    requires NodeInv(a) && NodeInv(b) && |a.action.ring| == |b.action.ring|
    ensures var m := Merge(a, LocalState(b));
      ViewOf(Merge(m, LocalState(b)).action) == ViewOf(m.action)
  {
    var m := Merge(a, LocalState(b));
    MergeExact(a, b);
    MergeExact(m, b);
    AgainAddsNothing(|a.action.ring|, ViewOf(a.action), ViewOf(b.action), ViewOf(m.action),
                     ViewOf(Merge(m, LocalState(b)).action), m.action.minTime,
                     Merge(m, LocalState(b)).action.minTime);
  }

  lemma AgainAddsNothing(n: nat, va: View, vb: View, vm: View, vm': View, floor: LTime, floor': LTime)
    requires vm.clock == Max(va.clock, vb.clock) && vm'.clock == Max(vm.clock, vb.clock) && floor <= floor'
    requires forall x :: x in vm.items <==>
               InWindow(n, vm.clock, x.ltime) &&
               (x in va.items || (x in vb.items && x.ltime >= floor && NotBlockedBy(va, x)))
    requires forall x :: x in vm'.items <==>
               InWindow(n, vm'.clock, x.ltime) &&
               (x in vm.items || (x in vb.items && x.ltime >= floor' && NotBlockedBy(vm, x)))
    ensures vm' == vm
  {
    forall x: Item | InWindow(n, vm.clock, x.ltime) && NotBlockedBy(vm, x)
      ensures NotBlockedBy(va, x)
    {
      forall y | y in va.items
        ensures !Equal(y, x)
      {
        assert y.ltime == x.ltime ==> y in vm.items;
      }
    }
    assert vm'.items == vm.items;
  }

  // Between ordinary nodes merging is also commutative and associative in what it
  // leaves a node knowing.
  lemma MergeCommutes(a: NodeState, b: NodeState, n: nat, floor: LTime)
    requires Ordinary(a, n, floor) && Ordinary(b, n, floor)
    ensures ViewOf(Merge(a, LocalState(b)).action) == ViewOf(Merge(b, LocalState(a)).action)
  {
    MergeIsJoin(a, b, n, floor);
    MergeIsJoin(b, a, n, floor);
    JoinCommutes(n, ViewOf(a.action), ViewOf(b.action));
  }

  lemma MergeAssociates(a: NodeState, b: NodeState, c: NodeState, n: nat, floor: LTime)
    requires Ordinary(a, n, floor) && Ordinary(b, n, floor) && Ordinary(c, n, floor)
    ensures ViewOf(Merge(Merge(a, LocalState(b)), LocalState(c)).action) ==
            ViewOf(Merge(a, LocalState(Merge(b, LocalState(c)))).action)
  {
    MergeIsJoin(a, b, n, floor);
    MergeIsJoin(b, c, n, floor);
    MergeIsJoin(Merge(a, LocalState(b)), c, n, floor);
    MergeIsJoin(a, Merge(b, LocalState(c)), n, floor);
    JoinAssociates(n, ViewOf(a.action), ViewOf(b.action), ViewOf(c.action));
  }

  // A push/pull leaves both sides with the same view, whether the second side
  // merges the state taken before or after the first side's merge.
  lemma ExchangeAgrees(a: NodeState, b: NodeState, n: nat, floor: LTime)
    requires Ordinary(a, n, floor) && Ordinary(b, n, floor)
    ensures var a' := Merge(a, LocalState(b));
      && ViewOf(a'.action) == ViewOf(Merge(b, LocalState(a)).action)
      && ViewOf(a'.action) == ViewOf(Merge(b, LocalState(a')).action)
  {
    MergeCommutes(a, b, n, floor);
    MergeIsJoin(a, b, n, floor);
    MergeIsJoin(b, Merge(a, LocalState(b)), n, floor);
    JoinAbsorbs(n, ViewOf(a.action), ViewOf(b.action));
    JoinCommutes(n, ViewOf(b.action), Join(n, ViewOf(a.action), ViewOf(b.action)));
  }

  // --- Any number of merges --------------------------------------------------

  function MergeAll(s: NodeState, peers: seq<NodeState>): NodeState {
    if peers == [] then s else Merge(MergeAll(s, peers[..|peers| - 1]), LocalState(peers[|peers| - 1]))
  }

  function Involved(s: NodeState, peers: seq<NodeState>): set<NodeState> {
    {s} + (set p | p in peers)
  }

  // The closed form: the largest clock, and every item known to one of the
  // nodes and still inside that clock's window.
  ghost predicate Pooled(n: nat, nodes: set<NodeState>, v: View) {
    && (exists p :: p in nodes && v.clock == p.action.clock)
    && (forall p :: p in nodes ==> p.action.clock <= v.clock)
    && forall x :: x in v.items <==>
         InWindow(n, v.clock, x.ltime) && exists p :: p in nodes && x in ViewOf(p.action).items
  }

  lemma {:induction false} MergeAllPools(s: NodeState, peers: seq<NodeState>, n: nat, floor: LTime)
    requires Ordinary(s, n, floor) && forall p :: p in peers ==> Ordinary(p, n, floor)
    ensures Ordinary(MergeAll(s, peers), n, floor)
    ensures Pooled(n, Involved(s, peers), ViewOf(MergeAll(s, peers).action))
  {
    if peers == [] {
      assert s in Involved(s, peers);
    } else {
      var front, last := peers[..|peers| - 1], peers[|peers| - 1];
      assert peers == front + [last];
      MergeAllPools(s, front, n, floor);
      MergeIsJoin(MergeAll(s, front), last, n, floor);
      var before, after := Involved(s, front), Involved(s, peers);
      assert after == before + {last};
      PoolOneMore(n, before, ViewOf(MergeAll(s, front).action), last);
    }
  }

  lemma PoolOneMore(n: nat, nodes: set<NodeState>, v: View, p: NodeState)
    requires Pooled(n, nodes, v) && |p.action.ring| == n
    ensures Pooled(n, nodes + {p}, Join(n, v, ViewOf(p.action)))
  {
    var nodes' := nodes + {p};
    var w := Join(n, v, ViewOf(p.action));
    assert exists q :: q in nodes' && w.clock == q.action.clock by {
      var q :| q in nodes && v.clock == q.action.clock;
      assert q in nodes' && p in nodes';
    }
    forall x | x in w.items
      ensures exists q :: q in nodes' && x in ViewOf(q.action).items
    {
      if x in v.items {
        var q :| q in nodes && x in ViewOf(q.action).items;
        assert q in nodes';
      } else {
        assert p in nodes';
      }
    }
  }

  // Nodes that have merged the same set of states - in any order, grouping and
  // number of repetitions, each counting its own - know the same.
  lemma SameStatesSameView(s: NodeState, ps: seq<NodeState>, t: NodeState, qs: seq<NodeState>, n: nat, floor: LTime)
    requires Ordinary(s, n, floor) && forall p :: p in ps ==> Ordinary(p, n, floor)
    requires Ordinary(t, n, floor) && forall q :: q in qs ==> Ordinary(q, n, floor)
    requires Involved(s, ps) == Involved(t, qs)
    ensures ViewOf(MergeAll(s, ps).action) == ViewOf(MergeAll(t, qs).action)
  {
    MergeAllPools(s, ps, n, floor);
    MergeAllPools(t, qs, n, floor);
    var v, w := ViewOf(MergeAll(s, ps).action), ViewOf(MergeAll(t, qs).action);
    assert v.clock == w.clock;
    assert v.items == w.items;
  }

  // --- Ignoring old actions on join ------------------------------------------

  // Join marks the address it joins, for ignoring exactly if asked to, and no
  // other; its end unmarks it.
  lemma JoinMarks(s: NodeState, addr: string, ignore: bool, other: string)
    ensures Ignoring(SetJoin(s, addr, ignore), other) <==> if other == addr then ignore else Ignoring(s, other)
    ensures Ignoring(UnsetJoin(s, addr), other) <==> other != addr && Ignoring(s, other)
  {
  }

  // The address a node was created with stays its own.
  lemma {:induction false} AddressStays(s: NodeState, ops: seq<NodeOp>)
    ensures Run(s, ops).addr == s.addr
  {
    if ops != [] {
      var s1, op := Run(s, ops[..|ops| - 1]), ops[|ops| - 1];
      AddressStays(s, ops[..|ops| - 1]);
      if op.DoMerge? {
        HandleActionsKeepRest(MergeClocks(s1, op.m), ReplayMsgs(op.m.actionBuffer));
      }
    }
  }

  // A node's ring holds items of id 0 only, so a copy loses nothing; an empty
  // slot becomes a group of time 0 without items.
  lemma CopyIsRing(g: Gate, h: seq<Item>, i: nat)
    requires Refines(g, h) && (forall x :: x in h ==> x.id == 0) && i < |g.ring|
    ensures |CopyRing(g.ring)| == |g.ring|
    ensures CopyRing(g.ring)[i] == if g.ring[i].None? then Group(0, []) else g.ring[i].value
  {
    if g.ring[i].Some? {
      var items := g.ring[i].value.items;
      AtTimeMembers(h, Latest(|g.ring|, h, i).value);
      forall j | 0 <= j < |items|
        ensures Item(items[j].ltime, 0, items[j].payload) == items[j]
      {
        assert items[j] in items && items[j] in h;
      }
    }
  }

  // Whatever a node has been through, the state it sends carries its own address,
  // both its clocks, and all it has queued that is still in its window.
  lemma SentStateIsOwn(addr: string, n: nat, last: LTime, ops: seq<NodeOp>)
    requires n > 0 && NoWrapRun(NewNode(addr, n, last), ops)
    ensures var s := Run(NewNode(addr, n, last), ops);
      var m := LocalState(s);
      && m.from == addr && m.actionLTime == s.action.clock && m.queryLTime == s.query.clock
      && |m.actionBuffer| == n
      && (forall x :: x in ActionItems(ReplayMsgs(m.actionBuffer)) ==> x in ActionItems(s.actionsQueued))
      && forall x :: x in ActionItems(s.actionsQueued) && x.ltime + n >= s.action.clock ==>
           x in ActionItems(ReplayMsgs(m.actionBuffer))
  {
    var s0 := NewNode(addr, n, last);
    var s := Run(s0, ops);
    NewNodeInv(addr, n, last);
    RunKeepsInv(s0, ops);
    AddressStays(s0, ops);
    var h := ActionItems(s.actionsQueued);
    assert CopyRing(s.action.ring)[..n] == CopyRing(s.action.ring);
    OfferedItems(s.action, h, n);
    ViewIsRecentHistory(s.action, h);
  }

  // Joining b, at its own address, and then merging the state b sends: if told
  // to ignore, a raises its minimum time to b's clock and never queues or emits
  // anything below that, in this merge or ever after; otherwise the minimum
  // stays. Either way b is no longer being joined, and every other address is as
  // it was.
  lemma JoiningIgnoresOldActions(a: NodeState, b: NodeState, ignore: bool, ops: seq<NodeOp>)
    ensures var m := Merge(SetJoin(a, b.addr, ignore), LocalState(b));
      && m.action.minTime == (if ignore && b.action.clock > a.action.minTime then b.action.clock else a.action.minTime)
      && b.addr !in m.joining && b.addr !in m.ignoreActOnJoin
      && (forall other :: other != b.addr ==> (Ignoring(m, other) <==> Ignoring(a, other)))
    ensures ignore ==> var s := Run(Merge(SetJoin(a, b.addr, ignore), LocalState(b)), ops);
      && (forall k :: |a.actionsQueued| <= k < |s.actionsQueued| ==> s.actionsQueued[k].ltime >= b.action.clock)
      && (forall k :: |a.events| <= k < |s.events| && s.events[k].ActionEvent? ==> s.events[k].ltime >= b.action.clock)
  {
    var j, p := SetJoin(a, b.addr, ignore), LocalState(b);
    HandleActionsKeepRest(MergeClocks(j, p), ReplayMsgs(p.actionBuffer));
    if ignore {
      IgnoredOnJoin(j, p, ops);
    }
  }

  // Joining another address changes nothing about b's state.
  lemma JoiningAnotherIgnoresNothing(a: NodeState, b: NodeState, addr: string, ignore: bool)
    requires addr != b.addr && !Ignoring(a, b.addr)
    ensures Merge(SetJoin(a, addr, ignore), LocalState(b)).action.minTime == a.action.minTime
  {
    var j, p := SetJoin(a, addr, ignore), LocalState(b);
    HandleActionsKeepRest(MergeClocks(j, p), ReplayMsgs(p.actionBuffer));
  }

  // --- What a merge emits ----------------------------------------------------

  // Nameless actions of these items, and the events that report them.
  ghost predicate Nameless(queued: seq<ActionMsg>, events: seq<Event>, items: seq<Item>) {
    |events| == |queued| && forall k :: 0 <= k < |queued| ==>
      && queued[k].name == "" && Item(queued[k].ltime, 0, queued[k].payload) in items
      && events[k] == ActionEvent(queued[k].ltime, "", queued[k].payload)
  }

  ghost predicate EmitsNameless(s: NodeState, s': NodeState, items: seq<Item>) {
    && s.actionsQueued <= s'.actionsQueued && s.events <= s'.events
    && Nameless(s'.actionsQueued[|s.actionsQueued|..], s'.events[|s.events|..], items)
  }

  lemma {:induction false} HandleNameless(s: NodeState, msgs: seq<ActionMsg>, items: seq<Item>)
    requires forall k :: 0 <= k < |msgs| ==> msgs[k].name == "" && Item(msgs[k].ltime, 0, msgs[k].payload) in items
    ensures EmitsNameless(s, HandleActions(s, msgs), items)
  {
    if msgs != [] {
      HandleNameless(s, msgs[..|msgs| - 1], items);
    }
  }

  lemma {:induction false} ReplayIsNameless(groups: seq<Group>)
    ensures forall k :: 0 <= k < |ReplayMsgs(groups)| ==> ReplayMsgs(groups)[k].name == ""
  {
    if groups != [] {
      ReplayIsNameless(groups[..|groups| - 1]);
    }
  }

  // What a merge emits has lost its name, and is of the peer's ring.
  lemma MergeEmitsNameless(a: NodeState, b: NodeState)
    requires NodeInv(b)
    ensures EmitsNameless(a, Merge(a, LocalState(b)), ActionItems(b.actionsQueued))
  {
    var p, n := LocalState(b), |b.action.ring|;
    assert CopyRing(b.action.ring)[..n] == CopyRing(b.action.ring);
    OfferedItems(b.action, ActionItems(b.actionsQueued), n);
    ReplayIsNameless(p.actionBuffer);
    var msgs := ReplayMsgs(p.actionBuffer);
    forall k | 0 <= k < |msgs|
      ensures Item(msgs[k].ltime, 0, msgs[k].payload) in ActionItems(b.actionsQueued)
    {
      assert ActionItems(msgs)[k] in ActionItems(msgs);
    }
    HandleNameless(MergeClocks(a, p), msgs, ActionItems(b.actionsQueued));
  }
}
