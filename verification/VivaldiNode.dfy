// The node whose coordinate follows its measurements, updated in place.
module VivaldiNode {
  import opened Wrappers
  import opened Coordinate
  import opened Vivaldi

  class LatencyRing {
    var idx: int
    const size: nat
    var latencies: seq<real>

    ghost function View(): Ring
      reads this
    {
      Ring(idx, size, latencies)
    }

    constructor (size: nat)
      ensures View() == NewRing(size) && View().Valid()
    {
      idx, this.size, latencies := -1, size, [];
    }

    method Add(l: real)
      requires View().Valid()
      modifies this
      ensures View() == AddSample(old(View()), l)
    {
      if size == 0 {
        return;
      }
      idx := idx + 1;
      if idx == size {
        idx := 0;
      }
      if |latencies| == idx {
        latencies := latencies + [0.0];
      }
      latencies := latencies[idx := l];
    }

    method Median() returns (m: real)
      ensures m == Vivaldi.Median(View())
    {
      if |latencies| == 0 {
        return 0.0;
      }
      var tmp := Sorted(latencies);
      m := tmp[|tmp| / 2];
    }

    method GetAdjustment() returns (a: real)
      requires size > 0
      ensures a == Adjustment(View())
    {
      var sum := 0.0;
      for i := 0 to |latencies|
        invariant sum == Sum(latencies[..i])
      {
        assert latencies[..i + 1][..i] == latencies[..i];
        sum := sum + latencies[i];
      }
      assert latencies[..|latencies|] == latencies;
      a := Share(sum, size);
    }
  }

  // How one measurement compares to the distance and to both errors.
  method Compare(error: real, otherError: real, dist: real, rtt: real) returns (latDiff: real, latDev: real, errDev: real)
    ensures latDiff == AtLeast(rtt, ZERO_THRESHOLD) - dist
    ensures latDev == Deviation(dist, rtt) && errDev == ErrorShare(error, otherError)
  {
    var rttSeconds := rtt;
    if rttSeconds < ZERO_THRESHOLD {
      rttSeconds := ZERO_THRESHOLD;
    }
    latDiff := rttSeconds - dist;
    latDev := Abs(latDiff) / rttSeconds;
    var totalError := error + otherError;
    if totalError < ZERO_THRESHOLD {
      totalError := ZERO_THRESHOLD;
    }
    errDev := error / totalError;
  }

  // The new error and the force of one measurement.
  method Relaxation(c: Config, error: real, otherError: real, dist: real, rtt: real) returns (e: real, force: real)
    ensures e == RelaxedError(c, error, otherError, dist, rtt)
    ensures force == RelaxForce(c, error, otherError, dist, rtt)
  {
    var latDiff, latDev, errDev := Compare(error, otherError, dist, rtt);
    var share := c.ce * errDev;
    e := error + share * (latDev - error);
    assert e == Towards(error, latDev, share);
    if e > c.errorMax {
      e := c.errorMax;
    }
    force := c.cc * errDev * latDiff;
  }

  class Node {
    var coord: Coord
    const origin: Coord
    const config: Config
    const latenciesDiff: LatencyRing
    var latenciesMap: map<string, Ring>
    var numResets: nat

    ghost function View(): NodeState
      reads this, latenciesDiff
    {
      NodeState(coord, latenciesDiff.View(), latenciesMap, numResets)
    }

    ghost predicate Valid()
      reads this, latenciesDiff
    {
      && ValidConfig(config)
      && origin == NewCoordinate(config)
      && Fits(View(), config)
    }

    constructor (config: Config)
      requires ValidConfig(config)
      ensures Valid() && fresh(latenciesDiff) && this.config == config
      ensures View() == NewNode(config)
    {
      var diffs := new LatencyRing(config.windowSize);
      coord, origin := NewCoordinate(config), NewCoordinate(config);
      this.config := config;
      latenciesDiff, latenciesMap, numResets := diffs, map[], 0;
    }

    method ForgetNode(peer: string)
      requires Valid()
      modifies this
      ensures Valid() && View() == old(View()).(filters := old(View()).filters - {peer})
    {
      latenciesMap := latenciesMap - {peer};
    }

    method AddLatency(peer: string, rttSeconds: real) returns (median: real)
      requires Valid()
      modifies this`latenciesMap
      ensures Valid() && View() == old(View()).(filters := latenciesMap)
      ensures (latenciesMap, median) == Filter(old(View()), config, peer, rttSeconds)
    {
      var samples := if peer in latenciesMap then latenciesMap[peer] else NewRing(config.filterSize);
      samples := AddSample(samples, rttSeconds);
      if peer in latenciesMap {
        latenciesMap := latenciesMap[peer := samples];
      }
      median := Vivaldi.Median(samples);
    }

    method RelaxStep(from: Coord, rtt: real, sqrt: real -> real, random: Vec)
      requires Valid() && MatchDim(coord, from) && |random| == config.dimensionality
      modifies this`coord
      ensures Valid() && View() == old(View()).(coord := Vivaldi.RelaxStep(sqrt, config, old(coord), from, rtt, random))
    {
      var dist := Seconds(DistanceTo(sqrt, coord, from));
      var error, force := Relaxation(config, coord.error, from.error, dist, rtt);
      coord := coord.(error := error);
      coord := ComputeForce(sqrt, from, coord, config.heightMin, force, random);
    }

    method Adjust(other: Coord, rttSeconds: real, sqrt: real -> real)
      requires Valid() && MatchDim(coord, other)
      modifies this`coord, latenciesDiff
      ensures Valid() && View() == Adjusted(sqrt, config, old(View()), other, rttSeconds)
    {
      if config.windowSize == 0 {
        return;
      }
      var latDiff := rttSeconds - Distance(sqrt, coord, other);
      latenciesDiff.Add(latDiff);
      var adjustment := latenciesDiff.GetAdjustment();
      coord := coord.(adjustment := adjustment);
    }

    method CenterNudge(sqrt: real -> real, random: Vec)
      requires Valid() && |random| == config.dimensionality
      modifies this`coord
      ensures Valid() && View() == old(View()).(coord := Nudge(sqrt, config, old(coord), random))
    {
      var dist := Seconds(DistanceTo(sqrt, origin, coord));
      var force := NudgeForce(config, dist);
      coord := ComputeForce(sqrt, origin, coord, config.heightMin, force, random);
    }

    method Relax(x: Sample, sqrt: real -> real) returns (r: Option<Coord>)
      requires Valid() && |x.random| == |x.random'| == config.dimensionality
      modifies this, latenciesDiff
      ensures Valid() && View() == Vivaldi.Relax(sqrt, config, old(View()), x)
      ensures r == if Accepted(old(View()), x) then Some(coord) else None
    {
      if !MatchDim(coord, x.other) || !x.finite || x.rtt < 0 || x.rtt > MAX_RTT {
        return None;
      }
      var rttSeconds := AddLatency(x.peer, Seconds(x.rtt));
      RelaxStep(x.other, rttSeconds, sqrt, x.random);
      Adjust(x.other, rttSeconds, sqrt);
      CenterNudge(sqrt, x.random');
      if x.drifted {
        numResets := numResets + 1;
        coord := NewCoordinate(config);
      }
      r := Some(coord);
    }
  }
}
