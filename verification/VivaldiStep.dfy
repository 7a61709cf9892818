// One update of a coordinate, with its numbers written out: what is refused, how
// far it moves, and the pull towards the centre.
module VivaldiStep {
  import opened Coordinate
  import opened Vivaldi

  // --- Reported distances ----------------------------------------------------------

  // What is reported, in whole nanoseconds, is the distance with both adjustments
  // if that is positive and the plain distance if not, less than a nanosecond
  // short; and in seconds it is that number over a billion.
  lemma ReportedDistance(sqrt: real -> real, a: Coord, b: Coord)
    requires MatchDim(a, b)
    ensures var plain := Distance(sqrt, a, b);
      var adjusted := plain + a.adjustment + b.adjustment;
      var reported := DistanceTo(sqrt, a, b);
      && (adjusted > 0.0 ==> 0.0 <= adjusted * 1000000000.0 - reported as real < 1.0)
      && (adjusted <= 0.0 && plain >= 0.0 ==> 0.0 <= plain * 1000000000.0 - reported as real < 1.0)
      && (adjusted <= 0.0 && plain < 0.0 ==> -1.0 < plain * 1000000000.0 - reported as real <= 0.0)
      && Seconds(reported) * 1000000000.0 == reported as real
  {
  }

  // --- Relaxing ----------------------------------------------------------------------

  function Larger(x: real, y: real): real {
    if x < y then y else x
  }

  // How far apart the error, the distance and the round trip say to push.
  function Push(c: Config, error: real, otherError: real, dist: real, rtt: real): real {
    var total := Larger(error + otherError, 0.000001);
    c.cc * (error / total) * (Larger(rtt, 0.000001) - dist)
  }

  // A height after a force between two points apart: it changes with the force by
  // the same proportion of both heights as the separation, down to the minimum.
  function Raised(height: real, otherHeight: real, force: real, separation: real, heightMin: real): real
    requires separation != 0.0
  {
    Larger(height + (otherHeight + height) * force / separation, heightMin)
  }

  lemma ForcedHeight(sqrt: real -> real, from: Coord, to: Coord, minHeight: real, force: real, random: Vec)
    requires IsSqrt(sqrt) && MatchDim(from, to) && |random| == |to.euclide|
    requires Magnitude(sqrt, Diff(to.euclide, from.euclide)) > 0.000001
    ensures ApplyForce(sqrt, from, to, minHeight, force, random).height ==
            Raised(to.height, from.height, force, Magnitude(sqrt, Diff(to.euclide, from.euclide)), minHeight)
  {
  }

  // Relaxing against a peer more than a microsecond away leaves the separation
  // from it at the old one plus cc times the share of the error times the
  // difference between round trip and distance, and moves the error by ce times
  // that share of its difference from the deviation, up to its maximum.
  lemma RelaxMoves(sqrt: real -> real, c: Config, coord: Coord, other: Coord, rtt: real, random: Vec)
    requires IsSqrt(sqrt) && MatchDim(coord, other) && |random| == |coord.euclide|
    requires Magnitude(sqrt, Diff(coord.euclide, other.euclide)) > 0.000001
    ensures var before := Magnitude(sqrt, Diff(other.euclide, coord.euclide));
      var dist := DistanceTo(sqrt, coord, other) as real / 1000000000.0;
      var r := RelaxStep(sqrt, c, coord, other, rtt, random);
      && Magnitude(sqrt, Diff(other.euclide, r.euclide)) == Abs(before + Push(c, coord.error, other.error, dist, rtt))
      && r.error == Updated(c, coord.error, other.error, dist, rtt) && r.adjustment == coord.adjustment
      && r.height == Raised(coord.height, other.height, Push(c, coord.error, other.error, dist, rtt),
                            Magnitude(sqrt, Diff(coord.euclide, other.euclide)), c.heightMin)
  {
    var dist := Seconds(DistanceTo(sqrt, coord, other));
    var pushed := coord.(error := RelaxedError(c, coord.error, other.error, dist, rtt));
    SpringSeparation(sqrt, other, pushed, c.heightMin, RelaxForce(c, coord.error, other.error, dist, rtt), random);
    ForcedHeight(sqrt, other, pushed, c.heightMin, RelaxForce(c, coord.error, other.error, dist, rtt), random);
    PushIsForce(c, coord.error, other.error, dist, rtt);
    UpdatedIsRelaxed(c, coord.error, other.error, dist, rtt);
  }

  function Updated(c: Config, error: real, otherError: real, dist: real, rtt: real): real {
    var total, r := Larger(error + otherError, 0.000001), Larger(rtt, 0.000001);
    var e := error + c.ce * (error / total) * (Abs(r - dist) / r - error);
    if e > c.errorMax then c.errorMax else e
  }

  lemma PushIsForce(c: Config, error: real, otherError: real, dist: real, rtt: real)
    ensures RelaxForce(c, error, otherError, dist, rtt) == Push(c, error, otherError, dist, rtt)
  {
  }

  lemma UpdatedIsRelaxed(c: Config, error: real, otherError: real, dist: real, rtt: real)
    ensures RelaxedError(c, error, otherError, dist, rtt) == Updated(c, error, otherError, dist, rtt)
  {
  }

  // --- The pull towards the centre ---------------------------------------------------

  function Origin(c: Config): Coord {
    Coord(seq(c.dimensionality, i => 0.0), c.heightMin, c.errorMax, 0.0)
  }

  lemma FromOrigin(sqrt: real -> real, c: Config, v: Vec)
    requires IsSqrt(sqrt) && |v| == c.dimensionality
    ensures Magnitude(sqrt, Diff(v, NewCoordinate(c).euclide)) == Magnitude(sqrt, v)
    ensures Magnitude(sqrt, Diff(NewCoordinate(c).euclide, v)) == Magnitude(sqrt, v)
    ensures NewCoordinate(c) == Origin(c)
  {
    assert NewCoordinate(c).euclide == Origin(c).euclide;
    assert Diff(v, NewCoordinate(c).euclide) == v;
    Reversed(sqrt, NewCoordinate(c).euclide, v);
  }

  // The reported distance from the origin, in units of gravityRho, squared.
  function Pull(sqrt: real -> real, c: Config, coord: Coord): real
    requires |coord.euclide| == c.dimensionality && c.gravityRho != 0.0
  {
    var d := DistanceTo(sqrt, Origin(c), coord) as real / 1000000000.0;
    (d / c.gravityRho) * (d / c.gravityRho)
  }

  lemma PullIsNudgeForce(sqrt: real -> real, c: Config, coord: Coord)
    requires |coord.euclide| == c.dimensionality && c.gravityRho != 0.0
    ensures NudgeForce(c, Seconds(DistanceTo(sqrt, NewCoordinate(c), coord))) == -Pull(sqrt, c, coord)
    ensures Pull(sqrt, c, coord) >= 0.0
    ensures Pull(sqrt, c, coord) == 0.0 <==> DistanceTo(sqrt, Origin(c), coord) == 0
  {
    assert NewCoordinate(c) == Origin(c);
    var n := DistanceTo(sqrt, Origin(c), coord);
    SquareOfQuotient(n as real / 1000000000.0, c.gravityRho);
  }

  lemma SquareOfQuotient(d: real, rho: real)
    requires rho != 0.0
    ensures (d / rho) * (d / rho) >= 0.0 && ((d / rho) * (d / rho) == 0.0 <==> d == 0.0)
  {
    var q := d / rho;
    assert q * rho == d;
    SquareNonNegative(q);
    if q > 0.0 {
      MulPositive(q, q);
    } else if q < 0.0 {
      MulPositive(-q, -q);
    }
  }

  // A node more than a microsecond away from the origin is pulled towards it: its
  // distance in space becomes the old one less the pull, in absolute value, and
  // so is strictly smaller if and only if the reported distance is not zero and
  // the pull is below twice the old one. Nothing but place and height changes.
  lemma NudgePullsInward(sqrt: real -> real, c: Config, coord: Coord, random: Vec)
    requires IsSqrt(sqrt) && |coord.euclide| == |random| == c.dimensionality && c.gravityRho != 0.0
    requires Magnitude(sqrt, coord.euclide) > 0.000001
    ensures var before, r := Magnitude(sqrt, coord.euclide), Nudge(sqrt, c, coord, random);
      var after, pull := Magnitude(sqrt, r.euclide), Pull(sqrt, c, coord);
      && after == Abs(before - pull)
      && (after < before <==> DistanceTo(sqrt, Origin(c), coord) != 0 && pull < 2.0 * before)
      && r.height == Raised(coord.height, c.heightMin, -pull, before, c.heightMin)
      && r.error == coord.error && r.adjustment == coord.adjustment
  {
    var origin := NewCoordinate(c);
    var r := Nudge(sqrt, c, coord, random);
    FromOrigin(sqrt, c, coord.euclide);
    FromOrigin(sqrt, c, r.euclide);
    PullIsNudgeForce(sqrt, c, coord);
    ForcedHeight(sqrt, origin, coord, c.heightMin, NudgeForce(c, Seconds(DistanceTo(sqrt, origin, coord))), random);
    SpringSeparation(sqrt, origin, coord, c.heightMin, NudgeForce(c, Seconds(DistanceTo(sqrt, origin, coord))), random);
  }

  // A node at the origin is pushed off it in a random direction by the pull.
  lemma NudgeFromOrigin(sqrt: real -> real, c: Config, coord: Coord, random: Vec)
    requires IsSqrt(sqrt) && |coord.euclide| == |random| == c.dimensionality && c.gravityRho != 0.0
    requires Magnitude(sqrt, coord.euclide) <= 0.000001 && Magnitude(sqrt, random) == 1.0
    ensures var before, r := Magnitude(sqrt, coord.euclide), Nudge(sqrt, c, coord, random);
      var after, pull := Magnitude(sqrt, r.euclide), Pull(sqrt, c, coord);
      pull - before <= after <= pull + before && r.height == coord.height
  {
    var origin := NewCoordinate(c);
    var r := Nudge(sqrt, c, coord, random);
    FromOrigin(sqrt, c, coord.euclide);
    FromOrigin(sqrt, c, r.euclide);
    PullIsNudgeForce(sqrt, c, coord);
    CoincidingPointsPart(sqrt, origin, coord, c.heightMin, NudgeForce(c, Seconds(DistanceTo(sqrt, origin, coord))), random);
  }

  // --- The whole update ----------------------------------------------------------------

  // A sample is used if and only if its coordinate has the right dimension and is
  // finite and its round trip is between zero and ten seconds.
  predicate Usable(s: NodeState, x: Sample) {
    |x.other.euclide| == |s.coord.euclide| && x.finite && 0 <= x.rtt <= 10_000_000_000
  }

  // The node after relaxing and adjusting, before the pull towards the centre.
  function BeforeNudge(sqrt: real -> real, c: Config, s: NodeState, x: Sample): NodeState
    requires Fits(s, c) && Usable(s, x) && |x.random| == c.dimensionality
  {
    var (filters, rtt) := Filter(s, c, x.peer, Seconds(x.rtt));
    var relaxed := s.(filters := filters, coord := RelaxStep(sqrt, c, s.coord, x.other, rtt, x.random));
    Adjusted(sqrt, c, relaxed, x.other, rtt)
  }

  // The plain distance, heights included and adjustments not.
  function Plain(sqrt: real -> real, a: Coord, b: Coord): real
    requires |a.euclide| == |b.euclide|
  {
    Magnitude(sqrt, Diff(a.euclide, b.euclide)) + a.height + b.height
  }

  lemma MeasuredIsPlain(sqrt: real -> real, c: Config, s: NodeState, x: Sample)
    requires Fits(s, c) && |x.random| == c.dimensionality && Usable(s, x)
    ensures var rtt := Filter(s, c, x.peer, x.rtt as real / 1000000000.0).1;
      Measured(sqrt, c, s, x) == Measurement(rtt, Plain(sqrt, RelaxStep(sqrt, c, s.coord, x.other, rtt, x.random), x.other))
  {
  }

  // The difference a usable sample adds is its filtered round trip less the plain
  // distance from where the node relaxed to.
  lemma DifferenceIsPlain(sqrt: real -> real, c: Config, s: NodeState, x: Sample)
    requires ValidConfig(c) && Fits(s, c) && |x.random| == |x.random'| == c.dimensionality
    requires Usable(s, x) && c.windowSize > 0
    ensures var rtt := Filter(s, c, x.peer, x.rtt as real / 1000000000.0).1;
      var dist := Plain(sqrt, RelaxStep(sqrt, c, s.coord, x.other, rtt, x.random), x.other);
      Relax(sqrt, c, s, x).diffs == AddSample(s.diffs, rtt - dist)
  {
    MeasuredIsPlain(sqrt, c, s, x);
    RelaxAddsDifference(sqrt, c, s, x);
    var m := Measured(sqrt, c, s, x);
    assert LatencyDiff(sqrt, c, s, x) == m.rtt - m.dist;
  }

  // An unusable sample changes nothing. A usable one ends in a node whose
  // coordinate was pulled towards the centre by what its place before demanded,
  // or, if it drifted out of range, in a fresh coordinate and one more reset.
  lemma RelaxPullsInward(sqrt: real -> real, c: Config, s: NodeState, x: Sample)
    requires IsSqrt(sqrt) && ValidConfig(c) && Fits(s, c) && |x.random| == |x.random'| == c.dimensionality
    ensures var s' := Relax(sqrt, c, s, x);
      if !Usable(s, x) then s' == s
      else
        var moved := BeforeNudge(sqrt, c, s, x);
        && s'.diffs == moved.diffs && s'.filters == moved.filters
        && if x.drifted then s'.coord == Origin(c) && s'.numResets == s.numResets + 1
           else
             var before, after := Magnitude(sqrt, moved.coord.euclide), Magnitude(sqrt, s'.coord.euclide);
             var pull := Pull(sqrt, c, moved.coord);
             && s'.numResets == s.numResets
             && s'.coord.error == moved.coord.error && s'.coord.adjustment == moved.coord.adjustment
             && (before > 0.000001 ==> after == Abs(before - pull))
             && (before > 0.000001 ==>
                   (after < before <==> DistanceTo(sqrt, Origin(c), moved.coord) != 0 && pull < 2.0 * before))
  {
    assert NewCoordinate(c) == Origin(c);
    if Usable(s, x) && !x.drifted {
      var moved := BeforeNudge(sqrt, c, s, x).coord;
      if Magnitude(sqrt, moved.euclide) > 0.000001 {
        NudgePullsInward(sqrt, c, moved, x.random');
      }
    }
  }

  // --- The filter's median -------------------------------------------------------------

  // No more than half of the samples, rounded down, can be below the median, and
  // the sorted upper half is not.
  lemma MedianIsMiddle(r: Ring)
    requires |r.samples| > 0
    ensures Median(r) in r.samples
    ensures var v := Sorted(r.samples);
      && (forall i :: 0 <= i <= |r.samples| / 2 ==> v[i] <= Median(r))
      && (forall i :: |r.samples| / 2 <= i < |r.samples| ==> Median(r) <= v[i])
      && multiset(v) == multiset(r.samples)
  {
    var v := Sorted(r.samples);
    SortedSorts(r.samples);
    assert v[|v| / 2] in multiset(v);
  }
}
