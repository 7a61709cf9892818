// A node's coordinate updates: the sample ring, relaxation, adjustment and the
// pull towards the centre.
module Vivaldi {
  import opened Coordinate

  const MAX_RTT: int := 10_000_000_000

  datatype Config = Config(
    dimensionality: nat,
    errorMax: real,
    ce: real,
    cc: real,
    windowSize: nat,
    heightMin: real,
    filterSize: nat,
    gravityRho: real)

  // What a node needs to run at all over the reals.
  predicate ValidConfig(c: Config) {
    c.dimensionality > 0 && c.gravityRho != 0.0
  }

  function NewCoordinate(c: Config): Coord {
    Coord(seq(c.dimensionality, i => 0.0), c.heightMin, c.errorMax, 0.0)
  }

  // --- The sample ring -----------------------------------------------------------

  // `idx` is the position written last, -1 at first.
  datatype Ring = Ring(idx: int, size: nat, samples: seq<real>) {
    predicate Valid() {
      && -1 <= idx < |samples| <= size
      && (|samples| < size ==> idx == |samples| - 1)
      && (size > 0 && |samples| == size ==> idx >= 0)
    }
  }

  function NewRing(size: nat): Ring {
    Ring(-1, size, [])
  }

  function AddSample(r: Ring, l: real): (r': Ring)
    requires r.Valid()
    ensures r'.Valid() && r'.size == r.size
  {
    if r.size == 0 then r
    else
      var idx := if r.idx + 1 == r.size then 0 else r.idx + 1;
      var samples := if |r.samples| == idx then r.samples + [0.0] else r.samples;
      Ring(idx, r.size, samples[idx := l])
  }

  function Sum(v: seq<real>): real {
    if v == [] then 0.0 else Sum(v[..|v| - 1]) + v[|v| - 1]
  }

  function Share(sum: real, window: nat): real
    requires window > 0
  {
    sum / (window as real * 2.0)
  }

  function Adjustment(r: Ring): real
    requires r.size > 0
  {
    Share(Sum(r.samples), r.size)
  }

  // Ascending order, for the median.
  function Insert(x: real, v: seq<real>): seq<real> {
    if v == [] || x <= v[0] then [x] + v else [v[0]] + Insert(x, v[1..])
  }

  function Sorted(v: seq<real>): (s: seq<real>)
    ensures |s| == |v|
  {
    if v == [] then []
    else
      var rest := Sorted(v[1..]);
      InsertLength(v[0], rest);
      Insert(v[0], rest)
  }

  lemma {:induction false} InsertLength(x: real, v: seq<real>)
    ensures |Insert(x, v)| == |v| + 1
  {
    if !(v == [] || x <= v[0]) {
      InsertLength(x, v[1..]);
    }
  }

  predicate Ascending(v: seq<real>) {
    forall i, j :: 0 <= i < j < |v| ==> v[i] <= v[j]
  }

  lemma {:induction false} InsertPermutes(x: real, v: seq<real>)
    ensures multiset(Insert(x, v)) == multiset([x] + v)
  {
    if v != [] && x > v[0] {
      InsertPermutes(x, v[1..]);
      assert v == [v[0]] + v[1..];
    }
  }

  lemma {:induction false} InsertKeepsOrder(x: real, v: seq<real>)
    requires Ascending(v)
    ensures Ascending(Insert(x, v)) && Insert(x, v) != []
    ensures Insert(x, v)[0] == if v == [] || x <= v[0] then x else v[0]
  {
    if v != [] && x > v[0] {
      var rest := Insert(x, v[1..]);
      InsertKeepsOrder(x, v[1..]);
      forall j | 0 <= j < |rest|
        ensures v[0] <= rest[j]
      {
        assert v[0] <= rest[0] <= rest[j];
      }
    }
  }

  // The median is drawn from the samples themselves, in ascending order.
  lemma {:induction false} SortedSorts(v: seq<real>)
    ensures Ascending(Sorted(v)) && multiset(Sorted(v)) == multiset(v)
  {
    if v != [] {
      SortedSorts(v[1..]);
      InsertKeepsOrder(v[0], Sorted(v[1..]));
      InsertPermutes(v[0], Sorted(v[1..]));
      assert v == [v[0]] + v[1..];
    }
  }

  function Median(r: Ring): real {
    if |r.samples| == 0 then 0.0 else Sorted(r.samples)[|r.samples| / 2]
  }

  function AddAll(r: Ring, history: seq<real>): (r': Ring)
    requires r.Valid()
    ensures r'.Valid() && r'.size == r.size
  {
    if history == [] then r else AddSample(AddAll(r, history[..|history| - 1]), history[|history| - 1])
  }

  function Latest(n: nat, history: seq<real>): seq<real> {
    if |history| <= n then history else history[|history| - n..]
  }

  // The samples from the oldest to the newest.
  function InOrder(r: Ring): seq<real>
    requires r.Valid()
  {
    r.samples[r.idx + 1..] + r.samples[..r.idx + 1]
  }

  // The ring always holds exactly the last samples of its history, counted back
  // from the position written last.
  lemma {:induction false} RingHoldsLatest(size: nat, history: seq<real>)
    ensures var r := AddAll(NewRing(size), history);
      && InOrder(r) == Latest(size, history)
      && |r.samples| == if |history| < size then |history| else size
  {
    if history != [] && size > 0 {
      var front, l := history[..|history| - 1], history[|history| - 1];
      RingHoldsLatest(size, front);
      AddInOrder(AddAll(NewRing(size), front), l);
      LatestNext(size, front, l);
      assert history == front + [l];
    } else if history != [] {
      RingHoldsLatest(size, history[..|history| - 1]);
    }
  }

  lemma AddInOrder(r: Ring, l: real)
    requires r.Valid() && r.size > 0
    ensures InOrder(AddSample(r, l)) == (if |r.samples| == r.size then InOrder(r)[1..] else InOrder(r)) + [l]
    ensures |AddSample(r, l).samples| == if |r.samples| == r.size then r.size else |r.samples| + 1
  {
    var r', n := AddSample(r, l), |r.samples|;
    if n < r.size {
      assert r'.samples == r.samples + [l];
    } else if r.idx + 1 == r.size {
      assert r'.samples == [l] + r.samples[1..];
    } else {
      assert r'.samples[r.idx + 2..] == r.samples[r.idx + 2..];
      assert r'.samples[..r.idx + 2] == r.samples[..r.idx + 1] + [l];
    }
  }

  lemma LatestNext(n: nat, history: seq<real>, l: real)
    requires n > 0
    ensures Latest(n, history + [l]) == (if |history| >= n then Latest(n, history)[1..] else Latest(n, history)) + [l]
  {
  }

  lemma {:induction false} SumConcat(a: seq<real>, b: seq<real>)
    ensures Sum(a + b) == Sum(a) + Sum(b)
  {
    if b == [] {
      assert a + b == a;
    } else {
      SumConcat(a, b[..|b| - 1]);
      assert (a + b)[..|a + b| - 1] == a + b[..|b| - 1];
    }
  }

  lemma SumRotates(v: seq<real>, k: nat)
    requires k <= |v|
    ensures Sum(v[k..] + v[..k]) == Sum(v)
  {
    SumConcat(v[k..], v[..k]);
    SumConcat(v[..k], v[k..]);
    assert v[..k] + v[k..] == v;
  }

  lemma SumIsOfLatest(size: nat, history: seq<real>)
    requires size > 0
    ensures Sum(AddAll(NewRing(size), history).samples) == Sum(Latest(size, history))
  {
    var r := AddAll(NewRing(size), history);
    RingHoldsLatest(size, history);
    SumRotates(r.samples, r.idx + 1);
  }

  // So the adjustment is half the mean, over the whole window, of the latest
  // differences, in whatever order the ring stores them.
  lemma AdjustmentIsOfLatest(size: nat, history: seq<real>)
    requires size > 0
    ensures Adjustment(AddAll(NewRing(size), history)) == Share(Sum(Latest(size, history)), size)
  {
    SumIsOfLatest(size, history);
  }

  // --- One update ------------------------------------------------------------------

  datatype NodeState = NodeState(coord: Coord, diffs: Ring, filters: map<string, Ring>, numResets: nat)

  // One measurement; `random` and `random'` are the unit vectors drawn, if any,
  // `finite` and `drifted` the verdicts on floating-point validity.
  datatype Sample = Sample(
    peer: string, other: Coord, rtt: int, random: Vec, random': Vec, finite: bool, drifted: bool)

  function NewNode(c: Config): NodeState {
    NodeState(NewCoordinate(c), NewRing(c.windowSize), map[], 0)
  }

  // The ring of a peer that has one is updated in place; a new ring is dropped.
  function Filter(s: NodeState, c: Config, peer: string, rtt: real): (map<string, Ring>, real)
    requires forall p :: p in s.filters ==> s.filters[p].Valid()
  {
    var ring := AddSample(if peer in s.filters then s.filters[peer] else NewRing(c.filterSize), rtt);
    (if peer in s.filters then s.filters[peer := ring] else s.filters, Median(ring))
  }

  // The distance a sample is compared with, and its filtered round trip.
  function Compared(sqrt: real -> real, c: Config, s: NodeState, x: Sample): Measurement
    requires Fits(s, c) && Accepted(s, x)
  {
    Measurement(Filter(s, c, x.peer, Seconds(x.rtt)).1, Seconds(DistanceTo(sqrt, s.coord, x.other)))
  }

  function AtLeast(x: real, least: real): real {
    if x < least then least else x
  }

  function Towards(a: real, b: real, share: real): real {
    a + share * (b - a)
  }

  // How far the sample is off, relative to itself.
  function Deviation(dist: real, rtt: real): real {
    Abs(AtLeast(rtt, ZERO_THRESHOLD) - dist) / AtLeast(rtt, ZERO_THRESHOLD)
  }

  // This node's part of the uncertainty of both ends.
  function ErrorShare(error: real, otherError: real): real {
    error / AtLeast(error + otherError, ZERO_THRESHOLD)
  }

  function RelaxedError(c: Config, error: real, otherError: real, dist: real, rtt: real): real {
    var e := Towards(error, Deviation(dist, rtt), c.ce * ErrorShare(error, otherError));
    if e > c.errorMax then c.errorMax else e
  }

  function RelaxForce(c: Config, error: real, otherError: real, dist: real, rtt: real): real {
    c.cc * ErrorShare(error, otherError) * (AtLeast(rtt, ZERO_THRESHOLD) - dist)
  }

  function RelaxStep(sqrt: real -> real, c: Config, coord: Coord, other: Coord, rtt: real, random: Vec): Coord
    requires MatchDim(coord, other) && |random| == |coord.euclide|
  {
    var dist := Seconds(DistanceTo(sqrt, coord, other));
    ApplyForce(sqrt, other, coord.(error := RelaxedError(c, coord.error, other.error, dist, rtt)), c.heightMin,
               RelaxForce(c, coord.error, other.error, dist, rtt), random)
  }

  function NudgeForce(c: Config, dist: real): real
    requires c.gravityRho != 0.0
  {
    var pull := dist / c.gravityRho;
    -(pull * pull)
  }

  function Nudge(sqrt: real -> real, c: Config, coord: Coord, random: Vec): Coord
    requires |coord.euclide| == |random| == c.dimensionality && c.gravityRho != 0.0
  {
    var origin := NewCoordinate(c);
    ApplyForce(sqrt, origin, coord, c.heightMin, NudgeForce(c, Seconds(DistanceTo(sqrt, origin, coord))), random)
  }

  predicate Fits(s: NodeState, c: Config) {
    && |s.coord.euclide| == c.dimensionality
    && s.diffs.Valid() && s.diffs.size == c.windowSize
    && forall p :: p in s.filters ==> s.filters[p].Valid()
  }

  // A sample is refused for its dimension, a non-finite coordinate or a round
  // trip outside the accepted range.
  predicate Accepted(s: NodeState, x: Sample) {
    MatchDim(s.coord, x.other) && x.finite && 0 <= x.rtt <= MAX_RTT
  }

  // The filtered round trip of an accepted sample, and the distance to the peer
  // once the node has relaxed.
  datatype Measurement = Measurement(rtt: real, dist: real)

  function Measured(sqrt: real -> real, c: Config, s: NodeState, x: Sample): Measurement
    requires Fits(s, c) && Accepted(s, x) && |x.random| == c.dimensionality
  {
    var rtt := Filter(s, c, x.peer, Seconds(x.rtt)).1;
    Measurement(rtt, Distance(sqrt, RelaxStep(sqrt, c, s.coord, x.other, rtt, x.random), x.other))
  }

  // The difference an accepted sample adds to the ring.
  function LatencyDiff(sqrt: real -> real, c: Config, s: NodeState, x: Sample): real
    requires Fits(s, c) && Accepted(s, x) && |x.random| == c.dimensionality
  {
    var m := Measured(sqrt, c, s, x);
    m.rtt - m.dist
  }

  function Adjusted(sqrt: real -> real, c: Config, s: NodeState, other: Coord, rtt: real): NodeState
    requires Fits(s, c) && MatchDim(s.coord, other)
  {
    if c.windowSize == 0 then s
    else
      var diffs := AddSample(s.diffs, rtt - Distance(sqrt, s.coord, other));
      s.(diffs := diffs, coord := s.coord.(adjustment := Adjustment(diffs)))
  }

  // A coordinate that has drifted out of the finite range starts again.
  function Settled(c: Config, s: NodeState, drifted: bool): NodeState {
    if drifted then s.(coord := NewCoordinate(c), numResets := s.numResets + 1) else s
  }

  function Relax(sqrt: real -> real, c: Config, s: NodeState, x: Sample): (s': NodeState)
    requires ValidConfig(c) && Fits(s, c) && |x.random| == |x.random'| == c.dimensionality
    ensures Fits(s', c)
  {
    if !Accepted(s, x) then s
    else
      var (filters, rtt) := Filter(s, c, x.peer, Seconds(x.rtt));
      var relaxed := s.(filters := filters, coord := RelaxStep(sqrt, c, s.coord, x.other, rtt, x.random));
      var adjusted := Adjusted(sqrt, c, relaxed, x.other, rtt);
      Settled(c, adjusted.(coord := Nudge(sqrt, c, adjusted.coord, x.random')), x.drifted)
  }

  // --- Whole runs ------------------------------------------------------------------

  predicate ValidSamples(c: Config, samples: seq<Sample>) {
    forall k :: 0 <= k < |samples| ==>
      |samples[k].random| == |samples[k].random'| == c.dimensionality
  }

  function Run(sqrt: real -> real, c: Config, samples: seq<Sample>): (s: NodeState)
    requires ValidConfig(c) && ValidSamples(c, samples)
    ensures Fits(s, c)
  {
    if samples == [] then NewNode(c)
    else Relax(sqrt, c, Run(sqrt, c, samples[..|samples| - 1]), samples[|samples| - 1])
  }

  lemma ErrorShareIsPart(error: real, otherError: real)
    requires error >= 0.0 && otherError >= 0.0
    ensures 0.0 <= ErrorShare(error, otherError) <= 1.0
    ensures error > 0.0 ==> ErrorShare(error, otherError) > 0.0
  {
    var total := AtLeast(error + otherError, ZERO_THRESHOLD);
    QuotientNonNegative(error, total);
    QuotientAtMostOne(error, total);
  }

  // The new error lies between the old one and the deviation of the sample,
  // unless the maximum cuts it off.
  lemma ErrorMovesTowardsSample(c: Config, error: real, otherError: real, dist: real, rtt: real)
    requires 0.0 <= c.ce <= 1.0 && error >= 0.0 && otherError >= 0.0
    ensures var e := RelaxedError(c, error, otherError, dist, rtt);
      var deviation := Deviation(dist, rtt);
      && deviation >= 0.0 && e <= c.errorMax
      && (e <= error || e <= deviation)
      && (e >= error || e >= deviation || e == c.errorMax)
  {
    var r := AtLeast(rtt, ZERO_THRESHOLD);
    var deviation, share := Deviation(dist, rtt), ErrorShare(error, otherError);
    QuotientNonNegative(Abs(r - dist), r);
    ErrorShareIsPart(error, otherError);
    MulNonNegative(c.ce, share);
    MulOrder(c.ce, 1.0, share);
    assert c.ce * share <= 1.0 * share && 1.0 * share == share;
    Between(error, deviation, c.ce * share);
  }

  lemma Between(a: real, b: real, k: real)
    requires 0.0 <= k <= 1.0
    ensures a <= b ==> a <= Towards(a, b, k) <= b
    ensures b <= a ==> b <= Towards(a, b, k) <= a
  {
    var d := b - a;
    ShareOf(d, k);
    assert Towards(a, b, k) == a + k * d;
  }

  lemma ShareOf(d: real, k: real)
    requires 0.0 <= k <= 1.0
    ensures d >= 0.0 ==> 0.0 <= k * d <= d
    ensures d <= 0.0 ==> d <= k * d <= 0.0
  {
    var e := -d;
    assert k * e == -(k * d);
    if d >= 0.0 {
      MulNonNegative(k, d);
      MulOrder(k, 1.0, d);
    } else {
      MulNonNegative(k, e);
      MulOrder(k, 1.0, e);
    }
  }

  // A sample pushes outwards exactly if it was longer than the distance, and by
  // no more than its share of the difference.
  lemma ForceTowardsMeasurement(c: Config, error: real, otherError: real, dist: real, rtt: real)
    requires c.cc > 0.0 && error > 0.0 && otherError >= 0.0
    ensures var r := AtLeast(rtt, ZERO_THRESHOLD);
      var force := RelaxForce(c, error, otherError, dist, rtt);
      && (force > 0.0 <==> r > dist) && (force < 0.0 <==> r < dist)
      && Abs(force) <= c.cc * Abs(r - dist)
  {
    var share := ErrorShare(error, otherError);
    ErrorShareIsPart(error, otherError);
    MulPositive(c.cc, share);
    MulOrder(share, 1.0, c.cc);
    SignedProduct(c.cc * share, c.cc, AtLeast(rtt, ZERO_THRESHOLD) - dist);
  }

  lemma SignedProduct(k: real, most: real, d: real)
    requires 0.0 < k <= most
    ensures (k * d > 0.0 <==> d > 0.0) && (k * d < 0.0 <==> d < 0.0)
    ensures Abs(k * d) <= most * Abs(d)
  {
    var e := -d;
    assert k * e == -(k * d);
    MulOrder(k, most, Abs(d));
    if d > 0.0 {
      MulPositive(k, d);
    } else if d < 0.0 {
      MulPositive(k, e);
    }
  }

  lemma QuotientNonNegative(a: real, b: real)
    requires a >= 0.0 && b > 0.0
    ensures a / b >= 0.0
  {
  }

  lemma QuotientAtMostOne(a: real, b: real)
    requires a <= b && b > 0.0
    ensures a / b <= 1.0
  {
  }

  // The differences the accepted samples of a run added.
  function Differences(sqrt: real -> real, c: Config, samples: seq<Sample>): seq<real>
    requires ValidConfig(c) && ValidSamples(c, samples)
  {
    if samples == [] then []
    else
      var front, x := samples[..|samples| - 1], samples[|samples| - 1];
      var s := Run(sqrt, c, front);
      if Accepted(s, x) then Differences(sqrt, c, front) + [LatencyDiff(sqrt, c, s, x)]
      else Differences(sqrt, c, front)
  }

  lemma RelaxAddsDifference(sqrt: real -> real, c: Config, s: NodeState, x: Sample)
    requires ValidConfig(c) && Fits(s, c) && |x.random| == |x.random'| == c.dimensionality && c.windowSize > 0
    ensures Relax(sqrt, c, s, x).diffs == if Accepted(s, x) then AddSample(s.diffs, LatencyDiff(sqrt, c, s, x)) else s.diffs
  {
  }

  // The ring is always that of all the differences added so far.
  lemma {:induction false} RingIsDifferences(sqrt: real -> real, c: Config, samples: seq<Sample>)
    requires ValidConfig(c) && ValidSamples(c, samples) && c.windowSize > 0
    ensures Run(sqrt, c, samples).diffs == AddAll(NewRing(c.windowSize), Differences(sqrt, c, samples))
  {
    if samples != [] {
      var front, x := samples[..|samples| - 1], samples[|samples| - 1];
      RingIsDifferences(sqrt, c, front);
      RelaxAddsDifference(sqrt, c, Run(sqrt, c, front), x);
      if Accepted(Run(sqrt, c, front), x) {
        var ds := Differences(sqrt, c, samples);
        assert ds[..|ds| - 1] == Differences(sqrt, c, front);
      }
    }
  }

  // After an accepted sample that does not reset the node, the adjustment is the
  // sum of the latest differences over twice the window size.
  lemma AdjustmentOverRun(sqrt: real -> real, c: Config, samples: seq<Sample>)
    requires ValidConfig(c) && ValidSamples(c, samples) && c.windowSize > 0 && samples != []
    requires Accepted(Run(sqrt, c, samples[..|samples| - 1]), samples[|samples| - 1]) && !samples[|samples| - 1].drifted
    ensures Run(sqrt, c, samples).coord.adjustment ==
            Share(Sum(Latest(c.windowSize, Differences(sqrt, c, samples))), c.windowSize)
  {
    var s, x := Run(sqrt, c, samples[..|samples| - 1]), samples[|samples| - 1];
    var s' := Run(sqrt, c, samples);
    assert s'.coord.adjustment == Adjustment(s'.diffs) by {
      AdjustmentIsOfRing(sqrt, c, s, x);
    }
    RingIsDifferences(sqrt, c, samples);
    AdjustmentIsOfLatest(c.windowSize, Differences(sqrt, c, samples));
  }

  lemma AdjustmentIsOfRing(sqrt: real -> real, c: Config, s: NodeState, x: Sample)
    requires ValidConfig(c) && Fits(s, c) && |x.random| == |x.random'| == c.dimensionality
    requires c.windowSize > 0 && Accepted(s, x) && !x.drifted
    ensures var s' := Relax(sqrt, c, s, x); s'.coord.adjustment == Adjustment(s'.diffs)
  {
  }

  // The per-peer latency filter never takes effect: no ring is ever stored, so
  // the filtered round trip is the one just measured - or 0 if the filter has
  // size 0 - whatever came before.
  lemma {:induction false} FilterIsInert(sqrt: real -> real, c: Config, samples: seq<Sample>, peer: string, rtt: real)
    requires ValidConfig(c) && ValidSamples(c, samples)
    ensures Run(sqrt, c, samples).filters == map[]
    ensures Filter(Run(sqrt, c, samples), c, peer, rtt) == (map[], if c.filterSize == 0 then 0.0 else rtt)
  {
    if samples != [] {
      var x := samples[|samples| - 1];
      FilterIsInert(sqrt, c, samples[..|samples| - 1], x.peer, Seconds(x.rtt));
    }
    var ring := AddSample(NewRing(c.filterSize), rtt);
    if c.filterSize > 0 {
      assert ring.samples == [rtt];
      assert Sorted([rtt][1..]) == [];
      assert Sorted([rtt]) == [rtt];
    }
  }
}
