// What a node's coordinate keeps over whole runs: its bounds, with the exact
// condition under which the error stays in its range, and what the adjustment
// makes of a steady round trip.
module VivaldiRuns {
  import opened Coordinate
  import opened Vivaldi

  // --- Bounds --------------------------------------------------------------------

  predicate InRange(c: Config, error: real) {
    0.0 <= error <= c.errorMax
  }

  ghost predicate Bounded(c: Config, coord: Coord) {
    |coord.euclide| == c.dimensionality && coord.height >= c.heightMin && InRange(c, coord.error)
  }

  // Through every run, whatever the peers claim, the dimension is fixed and the
  // height is at least its minimum.
  lemma {:induction false} ShapeStaysBounded(sqrt: real -> real, c: Config, samples: seq<Sample>)
    requires ValidConfig(c) && ValidSamples(c, samples)
    ensures |Run(sqrt, c, samples).coord.euclide| == c.dimensionality
    ensures Run(sqrt, c, samples).coord.height >= c.heightMin
  {
    if samples != [] {
      ShapeStaysBounded(sqrt, c, samples[..|samples| - 1]);
    }
  }

  // Through every run with honest peers the dimension is fixed, the height is at
  // least its minimum and the error stays between zero and its maximum.
  lemma {:induction false} CoordinateStaysBounded(sqrt: real -> real, c: Config, samples: seq<Sample>)
    requires ValidConfig(c) && ValidSamples(c, samples)
    requires c.errorMax >= 0.0 && 0.0 <= c.ce <= 1.0
    requires forall k :: 0 <= k < |samples| ==> samples[k].other.error >= 0.0
    ensures Bounded(c, Run(sqrt, c, samples).coord)
  {
    if samples != [] {
      var s, x := Run(sqrt, c, samples[..|samples| - 1]), samples[|samples| - 1];
      CoordinateStaysBounded(sqrt, c, samples[..|samples| - 1]);
      if Accepted(s, x) {
        var m := Compared(sqrt, c, s, x);
        ErrorMovesTowardsSample(c, s.coord.error, x.other.error, m.dist, m.rtt);
      }
    }
  }

  // What a sample must meet, before it is used, for the error to stay in range:
  // the error does not fall by more than its share of the uncertainty allows.
  predicate ErrorGuard(c: Config, error: real, otherError: real, m: Measurement) {
    error == 0.0 || c.ce * (error - Deviation(m.dist, m.rtt)) <= AtLeast(error + otherError, ZERO_THRESHOLD)
  }

  // a - a / t * q is negative exactly if q is larger than t.
  lemma ShareTaken(a: real, t: real, q: real)
    requires a > 0.0 && t > 0.0
    ensures a - a / t * q >= 0.0 <==> q <= t
  {
    var k := a / t;
    assert k * t == a;
    assert k > 0.0;
    assert a - k * q == k * (t - q);
    if q <= t {
      MulNonNegative(k, t - q);
    } else {
      MulPositive(k, q - t);
      assert k * (t - q) == -(k * (q - t));
    }
  }

  lemma TowardsIs(error: real, deviation: real, ce: real, share: real)
    ensures Towards(error, deviation, ce * share) == error - share * (ce * (error - deviation))
  {
    assert ce * share * (deviation - error) == -(share * (ce * (error - deviation)));
  }

  // One step keeps the error in range if and only if the sample meets the guard.
  lemma ErrorStaysIff(c: Config, error: real, otherError: real, m: Measurement)
    requires InRange(c, error)
    ensures InRange(c, RelaxedError(c, error, otherError, m.dist, m.rtt)) <==> ErrorGuard(c, error, otherError, m)
  {
    var deviation, share := Deviation(m.dist, m.rtt), ErrorShare(error, otherError);
    var total, q := AtLeast(error + otherError, ZERO_THRESHOLD), c.ce * (error - deviation);
    TowardsIs(error, deviation, c.ce, share);
    if error == 0.0 {
      NoErrorNoShare(otherError, q);
    } else {
      ShareTaken(error, total, q);
    }
  }

  lemma NoErrorNoShare(otherError: real, q: real)
    ensures ErrorShare(0.0, otherError) * q == 0.0
  {
    Cancel(ErrorShare(0.0, otherError), 0.0, AtLeast(0.0 + otherError, ZERO_THRESHOLD));
  }

  // Whether the sample keeps the error in range; one that is refused, or ends in
  // a fresh coordinate, does.
  predicate KeepsRange(sqrt: real -> real, c: Config, s: NodeState, x: Sample)
    requires Fits(s, c)
  {
    Accepted(s, x) && !x.drifted ==> ErrorGuard(c, s.coord.error, x.other.error, Compared(sqrt, c, s, x))
  }

  lemma RelaxedNode(sqrt: real -> real, c: Config, s: NodeState, x: Sample)
    requires ValidConfig(c) && Fits(s, c) && |x.random| == |x.random'| == c.dimensionality
    ensures Relax(sqrt, c, s, x).coord.error ==
            if !Accepted(s, x) then s.coord.error
            else if x.drifted then c.errorMax
            else RelaxedError(c, s.coord.error, x.other.error, Compared(sqrt, c, s, x).dist, Compared(sqrt, c, s, x).rtt)
  {
  }

  lemma StepKeepsRangeIff(sqrt: real -> real, c: Config, s: NodeState, x: Sample)
    requires ValidConfig(c) && Fits(s, c) && |x.random| == |x.random'| == c.dimensionality
    requires InRange(c, s.coord.error)
    ensures InRange(c, Relax(sqrt, c, s, x).coord.error) <==> KeepsRange(sqrt, c, s, x)
  {
    RelaxedNode(sqrt, c, s, x);
    if Accepted(s, x) && !x.drifted {
      ErrorStaysIff(c, s.coord.error, x.other.error, Compared(sqrt, c, s, x));
    }
  }

  predicate InRangeAt(sqrt: real -> real, c: Config, samples: seq<Sample>, k: nat)
    requires ValidConfig(c) && ValidSamples(c, samples) && k <= |samples|
  {
    InRange(c, Run(sqrt, c, samples[..k]).coord.error)
  }

  predicate KeepsRangeAt(sqrt: real -> real, c: Config, samples: seq<Sample>, k: nat)
    requires ValidConfig(c) && ValidSamples(c, samples) && k < |samples|
  {
    KeepsRange(sqrt, c, Run(sqrt, c, samples[..k]), samples[k])
  }

  // What holds first, and is kept exactly by what is true of each step, always
  // holds exactly if that is true of every step.
  lemma {:induction false} Stepwise(holds: nat -> bool, kept: nat -> bool, n: nat)
    requires holds(0) && forall k: nat :: k < n && holds(k) ==> (holds(k + 1) <==> kept(k))
    ensures (forall k: nat :: k <= n ==> holds(k)) <==> (forall k: nat :: k < n ==> kept(k))
  {
    if n > 0 {
      Stepwise(holds, kept, n - 1);
      assert holds(n - 1) ==> (holds(n - 1 + 1) <==> kept(n - 1));
      if forall k: nat :: k <= n ==> holds(k) {
        forall k: nat | k < n
          ensures kept(k)
        {
          assert holds(k) && holds(k + 1);
        }
      }
    }
  }

  // The error is in range at every moment of a run if and only if every sample
  // meets the guard when it comes.
  lemma RunKeepsRangeIff(sqrt: real -> real, c: Config, samples: seq<Sample>)
    requires ValidConfig(c) && ValidSamples(c, samples) && c.errorMax >= 0.0
    ensures (forall k: nat :: k <= |samples| ==> InRangeAt(sqrt, c, samples, k)) <==>
            (forall k: nat :: k < |samples| ==> KeepsRangeAt(sqrt, c, samples, k))
  {
    var n := |samples|;
    var holds := (k: nat) => k <= n && InRangeAt(sqrt, c, samples, k);
    var kept := (k: nat) => k < n && KeepsRangeAt(sqrt, c, samples, k);
    assert holds(0) by {
      assert samples[..0] == [];
    }
    forall k: nat | k < n && holds(k)
      ensures holds(k + 1) <==> kept(k)
    {
      NextInRangeIff(sqrt, c, samples, k);
    }
    Stepwise(holds, kept, n);
    assert forall k: nat :: k <= n ==> (holds(k) <==> InRangeAt(sqrt, c, samples, k));
    assert forall k: nat :: k < n ==> (kept(k) <==> KeepsRangeAt(sqrt, c, samples, k));
  }

  lemma NextInRangeIff(sqrt: real -> real, c: Config, samples: seq<Sample>, k: nat)
    requires ValidConfig(c) && ValidSamples(c, samples) && k < |samples| && InRangeAt(sqrt, c, samples, k)
    ensures InRangeAt(sqrt, c, samples, k + 1) <==> KeepsRangeAt(sqrt, c, samples, k)
  {
    assert samples[..k + 1][..k] == samples[..k];
    StepKeepsRangeIff(sqrt, c, Run(sqrt, c, samples[..k]), samples[k]);
  }

  // --- A run that leaves the range -------------------------------------------------

  const DEFAULT := Config(8, 1.5, 0.25, 0.25, 20, 0.00001, 3, 150.0)

  // A peer at the origin that claims a negative error and answers in 20
  // microseconds.
  function Liar(random: Vec): Sample {
    Sample("peer", NewCoordinate(DEFAULT).(error := -1.5), 20000, random, random, true, false)
  }

  lemma OriginDistance(sqrt: real -> real, error: real)
    requires IsSqrt(sqrt)
    ensures DistanceTo(sqrt, NewCoordinate(DEFAULT), NewCoordinate(DEFAULT).(error := error)) == 20000
  {
    var o := NewCoordinate(DEFAULT);
    SumSqOfZeros(Diff(o.euclide, o.euclide));
    RootIsUnique(sqrt(0.0), 0.0);
    assert (0.00002 * SEC_TO_NANO).Floor == 20000;
  }

  // A new node with the default configuration accepts it, and has a negative
  // error afterwards.
  lemma NegativePeerErrorEscapes(sqrt: real -> real, random: Vec)
    requires IsSqrt(sqrt) && |random| == DEFAULT.dimensionality
    ensures Accepted(NewNode(DEFAULT), Liar(random)) && ValidSamples(DEFAULT, [Liar(random)])
    ensures Run(sqrt, DEFAULT, [Liar(random)]).coord.error < 0.0
  {
    var s, x := NewNode(DEFAULT), Liar(random);
    var m := Compared(sqrt, DEFAULT, s, x);
    OriginDistance(sqrt, -1.5);
    FilterIsInert(sqrt, DEFAULT, [], x.peer, Seconds(x.rtt));
    assert m.rtt == m.dist;
    assert Deviation(m.dist, m.rtt) == 0.0;
    StepKeepsRangeIff(sqrt, DEFAULT, s, x);
    RelaxedNode(sqrt, DEFAULT, s, x);
    assert [x][..0] == [];
  }

  // --- Resets and switches -----------------------------------------------------------

  // How many accepted samples of a run ended out of the finite range.
  function Drifts(sqrt: real -> real, c: Config, samples: seq<Sample>): nat
    requires ValidConfig(c) && ValidSamples(c, samples)
  {
    if samples == [] then 0
    else
      var front, x := samples[..|samples| - 1], samples[|samples| - 1];
      Drifts(sqrt, c, front) + if Accepted(Run(sqrt, c, front), x) && x.drifted then 1 else 0
  }

  // Every drift is counted, and a window of size zero switches the adjustment off.
  lemma {:induction false} DriftsAreCounted(sqrt: real -> real, c: Config, samples: seq<Sample>)
    requires ValidConfig(c) && ValidSamples(c, samples)
    ensures Run(sqrt, c, samples).numResets == Drifts(sqrt, c, samples)
    ensures c.windowSize == 0 ==> Run(sqrt, c, samples).coord.adjustment == 0.0
  {
    if samples != [] {
      DriftsAreCounted(sqrt, c, samples[..|samples| - 1]);
    }
  }

  // --- What the adjustment is for ----------------------------------------------

  lemma {:induction false} SumBetween(v: seq<real>, low: real, high: real)
    requires forall k :: 0 <= k < |v| ==> low <= v[k] <= high
    ensures |v| as real * low <= Sum(v) <= |v| as real * high
  {
    if v != [] {
      SumBetween(v[..|v| - 1], low, high);
      assert (|v| - 1) as real * low == |v| as real * low - low;
      assert (|v| - 1) as real * high == |v| as real * high - high;
    }
  }

  lemma QuotientBetween(sum: real, n: real, low: real, high: real)
    requires n > 0.0 && n * low <= sum <= n * high
    ensures low / 2.0 <= sum / (n * 2.0) <= high / 2.0
  {
    var m := n * 2.0;
    assert sum / m * m == sum;
    assert low / 2.0 * m == n * low && high / 2.0 * m == n * high;
    CancelOrder(low / 2.0, sum / m, m);
    CancelOrder(sum / m, high / 2.0, m);
  }

  lemma CancelOrder(x: real, y: real, m: real)
    requires m > 0.0 && x * m <= y * m
    ensures x <= y
  {
    if x > y {
      MulPositive(x - y, m);
    }
  }

  lemma WindowBetween(size: nat, history: seq<real>, low: real, high: real)
    requires 0 < size <= |history|
    requires forall k :: 0 <= k < size ==> low <= Latest(size, history)[k] <= high
    ensures low / 2.0 <= Share(Sum(Latest(size, history)), size) <= high / 2.0
  {
    var window := Latest(size, history);
    assert |window| == size;
    SumBetween(window, low, high);
    QuotientBetween(Sum(window), size as real, low, high);
  }

  // What the accepted samples of a run measured.
  function Measurements(sqrt: real -> real, c: Config, samples: seq<Sample>): seq<Measurement>
    requires ValidConfig(c) && ValidSamples(c, samples)
  {
    if samples == [] then []
    else
      var front, x := samples[..|samples| - 1], samples[|samples| - 1];
      var s := Run(sqrt, c, front);
      Measurements(sqrt, c, front) + if Accepted(s, x) then [Measured(sqrt, c, s, x)] else []
  }

  lemma {:induction false} DifferencesAreMeasured(sqrt: real -> real, c: Config, samples: seq<Sample>)
    requires ValidConfig(c) && ValidSamples(c, samples)
    ensures var ds, ms := Differences(sqrt, c, samples), Measurements(sqrt, c, samples);
      |ds| == |ms| && forall k :: 0 <= k < |ds| ==> ds[k] == ms[k].rtt - ms[k].dist
  {
    if samples != [] {
      DifferencesAreMeasured(sqrt, c, samples[..|samples| - 1]);
    }
  }

  // The run ends with an accepted sample that did not reset the node, and its
  // last full window of measurements was within `jitter` of the round trip and
  // at most `drift` away from the distance.
  ghost predicate Steady(sqrt: real -> real, c: Config, samples: seq<Sample>, rtt: real, jitter: real, dist: real, drift: real)
    requires ValidConfig(c) && ValidSamples(c, samples)
  {
    && samples != [] && !samples[|samples| - 1].drifted
    && Accepted(Run(sqrt, c, samples[..|samples| - 1]), samples[|samples| - 1])
    && var ms := Measurements(sqrt, c, samples);
       0 < c.windowSize <= |ms| &&
       forall k :: |ms| - c.windowSize <= k < |ms| ==> Abs(ms[k].rtt - rtt) <= jitter && Abs(ms[k].dist - dist) <= drift
  }

  lemma SteadyWindow(sqrt: real -> real, c: Config, samples: seq<Sample>, rtt: real, jitter: real, dist: real, drift: real)
    requires ValidConfig(c) && ValidSamples(c, samples) && Steady(sqrt, c, samples, rtt, jitter, dist, drift)
    ensures var ds := Differences(sqrt, c, samples);
      c.windowSize <= |ds| && forall k :: 0 <= k < c.windowSize ==>
        rtt - dist - jitter - drift <= Latest(c.windowSize, ds)[k] <= rtt - dist + jitter + drift
  {
    var ds, ms, w := Differences(sqrt, c, samples), Measurements(sqrt, c, samples), c.windowSize;
    DifferencesAreMeasured(sqrt, c, samples);
    var window := Latest(w, ds);
    forall k | 0 <= k < w
      ensures rtt - dist - jitter - drift <= window[k] <= rtt - dist + jitter + drift
    {
      assert window[k] == ds[|ds| - w + k];
      var m := ms[|ms| - w + k];
    }
  }

  lemma SteadyAdjustment(sqrt: real -> real, c: Config, samples: seq<Sample>, rtt: real, jitter: real, dist: real, drift: real)
    requires ValidConfig(c) && ValidSamples(c, samples) && Steady(sqrt, c, samples, rtt, jitter, dist, drift)
    ensures (rtt - dist - jitter - drift) / 2.0 <= Run(sqrt, c, samples).coord.adjustment <= (rtt - dist + jitter + drift) / 2.0
  {
    var low, high := rtt - dist - jitter - drift, rtt - dist + jitter + drift;
    SteadyWindow(sqrt, c, samples, rtt, jitter, dist, drift);
    WindowBetween(c.windowSize, Differences(sqrt, c, samples), low, high);
    AdjustmentOverRun(sqrt, c, samples);
  }

  // If for a whole window both ends measured round trips within `jitter` of one
  // value, and their coordinates ended at most `drift` away from the distances
  // they had then, the distance they report is that value up to jitter and drift.
  // It is exact if the round trip was constant and neither coordinate moved.
  lemma SteadyRoundTripIsReported(sqrt: real -> real, c: Config, samplesA: seq<Sample>, samplesB: seq<Sample>,
                                  rtt: real, jitter: real, drift: real)
    requires ValidConfig(c) && ValidSamples(c, samplesA) && ValidSamples(c, samplesB) && rtt > jitter + drift
    requires var d := Distance(sqrt, Run(sqrt, c, samplesA).coord, Run(sqrt, c, samplesB).coord);
      Steady(sqrt, c, samplesA, rtt, jitter, d, drift) && Steady(sqrt, c, samplesB, rtt, jitter, d, drift)
    ensures var reported := DistanceTo(sqrt, Run(sqrt, c, samplesA).coord, Run(sqrt, c, samplesB).coord);
      ((rtt - jitter - drift) * SEC_TO_NANO).Floor <= reported <= ((rtt + jitter + drift) * SEC_TO_NANO).Floor
  {
    var a, b := Run(sqrt, c, samplesA).coord, Run(sqrt, c, samplesB).coord;
    var d := Distance(sqrt, a, b);
    SteadyAdjustment(sqrt, c, samplesA, rtt, jitter, d, drift);
    SteadyAdjustment(sqrt, c, samplesB, rtt, jitter, d, drift);
    var adjusted := d + a.adjustment + b.adjustment;
    assert rtt - jitter - drift <= adjusted <= rtt + jitter + drift;
    FloorOrder((rtt - jitter - drift) * SEC_TO_NANO, adjusted * SEC_TO_NANO);
    FloorOrder(adjusted * SEC_TO_NANO, (rtt + jitter + drift) * SEC_TO_NANO);
  }

  lemma FloorOrder(x: real, y: real)
    requires x <= y
    ensures x.Floor <= y.Floor
  {
  }
}
