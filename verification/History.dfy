// One deduplicating gate - a clock, a minimum time and a ring - and its
// refinement of a gate that never forgets an accepted item.
module History {
  import opened Wrappers
  import opened Lamport
  import opened Buffer

  datatype Gate = Gate(clock: LTime, minTime: LTime, ring: Ring)

  // Witness, then check the minimum time, then offer to the ring.
  function Offer(g: Gate, x: Item): (Gate, bool) {
    var clock := Witnessed(g.clock, x.ltime);
    if x.ltime < g.minTime then (g.(clock := clock), false)
    else
      var (ring, added) := RingAdd(g.ring, clock, x);
      (Gate(clock, g.minTime, ring), added)
  }

  // --- The ring as a function of the accepted history -----------------------

  // The largest accepted time that falls on slot i of n.
  function Latest(n: nat, h: seq<Item>, i: nat): Option<LTime>
    requires n > 0
  {
    if h == [] then None
    else
      var x := h[|h| - 1];
      var t := Latest(n, h[..|h| - 1], i);
      if x.ltime % n == i && (t.None? || t.value < x.ltime) then Some(x.ltime) else t
  }

  lemma {:induction false} LatestIsLatest(n: nat, h: seq<Item>, i: nat)
    requires n > 0
    ensures var t := Latest(n, h, i);
      && (t.Some? ==> t.value % n == i && exists x :: x in h && x.ltime == t.value)
      && forall x :: x in h && x.ltime % n == i ==> t.Some? && x.ltime <= t.value
  {
    if h != [] {
      var front := h[..|h| - 1];
      assert h == front + [h[|h| - 1]];
      LatestIsLatest(n, front, i);
    }
  }

  // The accepted items of one time, oldest first.
  function AtTime(h: seq<Item>, t: LTime): seq<Item> {
    if h == [] then []
    else
      var x := h[|h| - 1];
      if x.ltime == t then AtTime(h[..|h| - 1], t) + [x] else AtTime(h[..|h| - 1], t)
  }

  lemma {:induction false} AtTimeMembers(h: seq<Item>, t: LTime)
    ensures forall x :: x in AtTime(h, t) <==> x in h && x.ltime == t
  {
    if h != [] {
      assert h == h[..|h| - 1] + [h[|h| - 1]];
      AtTimeMembers(h[..|h| - 1], t);
    }
  }

  // What slot i of a ring of n must hold once exactly h has been accepted.
  function SlotOf(n: nat, h: seq<Item>, i: nat): Option<Group>
    requires n > 0
  {
    match Latest(n, h, i)
    case None => None
    case Some(t) => Some(Group(t, AtTime(h, t)))
  }

  // An accepted item blocks later ones for as long as it is remembered.
  ghost predicate Blocked(h: seq<Item>, x: Item) {
    exists y :: y in h && Equal(y, x)
  }

  ghost predicate NoneEqual(h: seq<Item>) {
    forall i, j :: 0 <= i < j < |h| ==> !Equal(h[i], h[j])
  }

  // The gate has accepted exactly h, in this order.
  ghost predicate Refines(g: Gate, h: seq<Item>) {
    && (forall x :: x in h ==> x.ltime < g.clock)
    && NoneEqual(h)
    && forall i :: 0 <= i < |g.ring| ==> g.ring[i] == SlotOf(|g.ring|, h, i)
  }

  lemma CongruentTimes(n: nat, a: nat, b: nat)
    requires n > 0 && a < b && a % n == b % n
    ensures a + n <= b
  {
    assert a / n < b / n;
    assert n * (a / n + 1) <= n * (b / n);
  }

  lemma LatestAfter(n: nat, h: seq<Item>, x: Item, i: nat)
    requires n > 0
    ensures var t := Latest(n, h, i);
      Latest(n, h + [x], i) == if x.ltime % n == i && (t.None? || t.value < x.ltime) then Some(x.ltime) else t
  {
    assert (h + [x])[..|h + [x]| - 1] == h;
  }

  lemma AtTimeAfter(h: seq<Item>, x: Item, t: LTime)
    ensures AtTime(h + [x], t) == if x.ltime == t then AtTime(h, t) + [x] else AtTime(h, t)
  {
    assert (h + [x])[..|h + [x]| - 1] == h;
  }

  lemma {:induction false} AtTimeEmpty(h: seq<Item>, t: LTime)
    requires forall x :: x in h ==> x.ltime != t
    ensures AtTime(h, t) == []
  {
    if h != [] {
      AtTimeEmpty(h[..|h| - 1], t);
    }
  }

  lemma OtherSlotAfter(n: nat, h: seq<Item>, x: Item, i: nat)
    requires n > 0 && x.ltime % n != i
    ensures SlotOf(n, h + [x], i) == SlotOf(n, h, i)
  {
    LatestAfter(n, h, x, i);
    LatestIsLatest(n, h, i);
    if Latest(n, h, i).Some? {
      AtTimeAfter(h, x, Latest(n, h, i).value);
    }
  }

  lemma OwnSlotAfter(n: nat, h: seq<Item>, x: Item)
    requires n > 0
    ensures var i := x.ltime % n;
      var t := Latest(n, h, i);
      SlotOf(n, h + [x], i) ==
        if t.None? || t.value < x.ltime then Some(Group(x.ltime, [x]))
        else if t.value == x.ltime then Some(Group(x.ltime, AtTime(h, x.ltime) + [x]))
        else SlotOf(n, h, i)
  {
    var i := x.ltime % n;
    LatestAfter(n, h, x, i);
    var t := Latest(n, h, i);
    if t.None? || t.value < x.ltime {
      LatestIsLatest(n, h, i);
      AtTimeEmpty(h, x.ltime);
      AtTimeAfter(h, x, x.ltime);
    } else {
      AtTimeAfter(h, x, t.value);
    }
  }

  // Offering an item makes the same decision as a gate that keeps every
  // accepted item for ever: refuse what is below the minimum time, below the
  // window, or blocked by something accepted before.
  ghost predicate Admits(n: nat, clock: LTime, minTime: LTime, h: seq<Item>, x: Item) {
    x.ltime >= minTime && !TooOld(n, clock, x.ltime) && !Blocked(h, x)
  }

  lemma OfferRefinesHistory(g: Gate, h: seq<Item>, x: Item)
    requires Refines(g, h) && x.ltime < MAX_LTIME
    ensures var (g', added) := Offer(g, x);
      && g'.clock == Max(g.clock, x.ltime + 1)
      && (added <==> Admits(|g.ring|, g'.clock, g.minTime, h, x))
      && Refines(g', if added then h + [x] else h)
  {
    var (g', added) := Offer(g, x);
    var n := |g.ring|;
    var i := x.ltime % n;
    WitnessedIsMax(g.clock, x.ltime);
    if x.ltime >= g.minTime && !TooOld(n, g'.clock, x.ltime) {
      var t := Latest(n, h, i);
      LatestIsLatest(n, h, i);
      if t.Some? && t.value > x.ltime {
        CongruentTimes(n, x.ltime, t.value);
        assert false;
      }
      SameTimeBlocks(h, x);
      if added {
        forall j | 0 <= j < n
          ensures g'.ring[j] == SlotOf(n, h + [x], j)
        {
          if j == i {
            OwnSlotAfter(n, h, x);
          } else {
            OtherSlotAfter(n, h, x, j);
          }
        }
      }
    }
  }

  // Only items of the same time can block.
  lemma SameTimeBlocks(h: seq<Item>, x: Item)
    ensures Blocked(h, x) <==> HasEqual(AtTime(h, x.ltime), x)
  {
    AtTimeMembers(h, x.ltime);
    var same := AtTime(h, x.ltime);
    if HasEqual(same, x) {
      var k :| 0 <= k < |same| && Equal(same[k], x);
      assert same[k] in h;
    }
  }

  // --- Whole runs ------------------------------------------------------------

  // What can happen to a gate: an item is offered, a time is witnessed, or the
  // minimum time is raised.
  datatype GateOp = OfferItem(x: Item) | See(t: LTime) | Raise(t: LTime) {
    predicate NoWrap() {
      match this
      case OfferItem(x) => x.ltime < MAX_LTIME
      case See(t) => t < MAX_LTIME
      case Raise(_) => true
    }
  }

  predicate NoWraps(ops: seq<GateOp>) {
    forall k :: 0 <= k < |ops| ==> ops[k].NoWrap()
  }

  function FreshGate(n: nat, minTime: LTime): Gate
    requires n > 0
  {
    Gate(1, minTime, seq(n, i => None))
  }

  function Raised(g: Gate, t: LTime): Gate {
    if t > g.minTime then g.(minTime := t) else g
  }

  // The gate after one operation, and the items it accepted.
  function Apply(g: Gate, op: GateOp): (Gate, seq<Item>) {
    match op
    case OfferItem(x) => var (g', added) := Offer(g, x); (g', if added then [x] else [])
    case See(t) => (g.(clock := Witnessed(g.clock, t)), [])
    case Raise(t) => (Raised(g, t), [])
  }

  function RunGate(g: Gate, ops: seq<GateOp>): (Gate, seq<Item>) {
    if ops == [] then (g, [])
    else
      var (g1, first) := RunGate(g, ops[..|ops| - 1]);
      var (g2, last) := Apply(g1, ops[|ops| - 1]);
      (g2, first + last)
  }

  // The reference gate: it has no ring and keeps everything it accepted.
  datatype Unbounded = Unbounded(clock: nat, minTime: LTime, accepted: seq<Item>)

  ghost function ApplyUnbounded(n: nat, u: Unbounded, op: GateOp): Unbounded {
    match op
    case OfferItem(x) =>
      var clock := Max(u.clock, x.ltime + 1);
      var takes := x.ltime >= u.minTime && x.ltime + n >= clock && !Blocked(u.accepted, x);
      Unbounded(clock, u.minTime, if takes then u.accepted + [x] else u.accepted)
    case See(t) => u.(clock := Max(u.clock, t + 1))
    case Raise(t) => u.(minTime := Max(u.minTime, t))
  }

  ghost function RunUnbounded(n: nat, u: Unbounded, ops: seq<GateOp>): Unbounded {
    if ops == [] then u else ApplyUnbounded(n, RunUnbounded(n, u, ops[..|ops| - 1]), ops[|ops| - 1])
  }

  lemma FreshGateRefines(n: nat, minTime: LTime)
    requires n > 0
    ensures Refines(FreshGate(n, minTime), [])
  {
  }

  lemma ApplyRefines(g: Gate, h: seq<Item>, op: GateOp)
    requires Refines(g, h) && op.NoWrap()
    ensures var (g', taken) := Apply(g, op);
      && Refines(g', h + taken)
      && |g'.ring| == |g.ring|
      && g'.clock >= g.clock && g'.minTime >= g.minTime
      && Unbounded(g'.clock, g'.minTime, h + taken) ==
           ApplyUnbounded(|g.ring|, Unbounded(g.clock, g.minTime, h), op)
  {
    match op
    case OfferItem(x) =>
      OfferRefinesHistory(g, h, x);
      assert h + [] == h;
    case See(t) =>
      WitnessedIsMax(g.clock, t);
      assert h + [] == h;
    case Raise(_) =>
      assert h + [] == h;
  }

  // Over every run the ring accepts the same items, in the same order, as the
  // gate that forgets nothing.
  lemma {:induction false} RunRefinesHistory(g: Gate, h: seq<Item>, ops: seq<GateOp>)
    requires Refines(g, h) && NoWraps(ops)
    ensures var (g', taken) := RunGate(g, ops);
      && Refines(g', h + taken)
      && |g'.ring| == |g.ring|
      && g'.clock >= g.clock && g'.minTime >= g.minTime
      && Unbounded(g'.clock, g'.minTime, h + taken) ==
           RunUnbounded(|g.ring|, Unbounded(g.clock, g.minTime, h), ops)
  {
    if ops == [] {
      assert h + [] == h;
    } else {
      var front, op := ops[..|ops| - 1], ops[|ops| - 1];
      RunRefinesHistory(g, h, front);
      var (g1, first) := RunGate(g, front);
      ApplyRefines(g1, h + first, op);
      var (g2, last) := Apply(g1, op);
      assert (h + first) + last == h + (first + last);
    }
  }

  // --- Consequences ----------------------------------------------------------

  lemma {:induction false} RunConcat(g: Gate, a: seq<GateOp>, b: seq<GateOp>)
    ensures var (g1, t1) := RunGate(g, a);
      var (g2, t2) := RunGate(g1, b);
      RunGate(g, a + b) == (g2, t1 + t2)
  {
    var (g1, t1) := RunGate(g, a);
    if b == [] {
      assert a + b == a;
      assert t1 + [] == t1;
    } else {
      var front, op := b[..|b| - 1], b[|b| - 1];
      RunConcat(g, a, front);
      assert (a + b)[..|a + b| - 1] == a + front;
      var (g2, t2) := RunGate(g1, front);
      var (g3, t3) := Apply(g2, op);
      assert (t1 + t2) + t3 == t1 + (t2 + t3);
    }
  }

  // An item that will be refused now and for ever.
  ghost predicate Spent(g: Gate, h: seq<Item>, x: Item) {
    x.ltime < g.clock && !Admits(|g.ring|, g.clock, g.minTime, h, x)
  }

  // Whatever a gate has processed once, accepted or not, it refuses in every
  // later state, whatever happens in between.
  lemma OnceHandledAlwaysRefused(g: Gate, h: seq<Item>, x: Item, ops: seq<GateOp>)
    requires Refines(g, h) && NoWraps(ops) && x.ltime < MAX_LTIME
    ensures var g1 := RunGate(Offer(g, x).0, ops).0;
      !Offer(g1, x).1
  {
    OfferRefinesHistory(g, h, x);
    var (g0, added) := Offer(g, x);
    var h0 := if added then h + [x] else h;
    if added {
      assert h0[|h0| - 1] == x && Equal(x, x);
    }
    RunRefinesHistory(g0, h0, ops);
    var (g1, taken) := RunGate(g0, ops);
    assert forall y :: y in h0 ==> y in h0 + taken;
    assert Spent(g0, h0, x) && Spent(g1, h0 + taken, x);
    OfferRefinesHistory(g1, h0 + taken, x);
  }

  // No item is accepted twice.
  lemma {:induction false} AcceptedOnce(h: seq<Item>, x: Item)
    requires NoneEqual(h)
    ensures multiset(h)[x] <= 1
  {
    if h != [] {
      var front, last := h[..|h| - 1], h[|h| - 1];
      assert h == front + [last];
      AcceptedOnce(front, x);
      assert forall k :: 0 <= k < |front| ==> front[k] == h[k] && !Equal(h[k], last);
    }
  }

  // Everything a run accepts is at or above the minimum time it started with.
  lemma {:induction false} AcceptedRespectMinTime(g: Gate, ops: seq<GateOp>)
    ensures var (g', taken) := RunGate(g, ops);
      g'.minTime >= g.minTime && forall x :: x in taken ==> x.ltime >= g.minTime
  {
    if ops != [] {
      AcceptedRespectMinTime(g, ops[..|ops| - 1]);
    }
  }
}
