// Network coordinates over the reals: distance and the spring force.
module Coordinate {
  const ZERO_THRESHOLD: real := 0.000001
  const SEC_TO_NANO: real := 1000000000.0

  type Vec = seq<real>

  datatype Coord = Coord(euclide: Vec, height: real, error: real, adjustment: real)

  predicate MatchDim(a: Coord, b: Coord) {
    |a.euclide| == |b.euclide|
  }

  // --- Vectors -----------------------------------------------------------------

  function Add(u: Vec, v: Vec): Vec
    requires |u| == |v|
  {
    seq(|u|, i requires 0 <= i < |u| => u[i] + v[i])
  }

  function Diff(u: Vec, v: Vec): Vec
    requires |u| == |v|
  {
    seq(|u|, i requires 0 <= i < |u| => u[i] - v[i])
  }

  function Scale(v: Vec, k: real): Vec {
    seq(|v|, i requires 0 <= i < |v| => v[i] * k)
  }

  function SumSq(v: Vec): real {
    if v == [] then 0.0 else SumSq(v[..|v| - 1]) + v[|v| - 1] * v[|v| - 1]
  }

  // The square root is a parameter, known only by what makes it one.
  ghost predicate IsSqrt(sqrt: real -> real) {
    forall x: real :: x >= 0.0 ==> sqrt(x) >= 0.0 && sqrt(x) * sqrt(x) == x
  }

  function Magnitude(sqrt: real -> real, v: Vec): real {
    sqrt(SumSq(v))
  }

  method AddVec(u: Vec, v: Vec) returns (r: Vec)
    requires |u| == |v|
    ensures r == Add(u, v)
  {
    r := [];
    for i := 0 to |u|
      invariant |r| == i && forall k :: 0 <= k < i ==> r[k] == u[k] + v[k]
    {
      r := r + [u[i] + v[i]];
    }
  }

  method DiffVec(u: Vec, v: Vec) returns (r: Vec)
    requires |u| == |v|
    ensures r == Diff(u, v)
  {
    r := [];
    for i := 0 to |u|
      invariant |r| == i && forall k :: 0 <= k < i ==> r[k] == u[k] - v[k]
    {
      r := r + [u[i] - v[i]];
    }
  }

  method ScaleVec(v: Vec, k: real) returns (r: Vec)
    ensures r == Scale(v, k)
  {
    r := [];
    for i := 0 to |v|
      invariant r == Scale(v, k)[..i]
    {
      assert Scale(v, k)[i] == v[i] * k;
      r := r + [v[i] * k];
    }
    assert Scale(v, k)[..|v|] == Scale(v, k);
  }

  method ComputeMagnitude(sqrt: real -> real, v: Vec) returns (m: real)
    ensures m == Magnitude(sqrt, v)
  {
    var sum := 0.0;
    for i := 0 to |v|
      invariant sum == SumSq(v[..i])
    {
      assert v[..i + 1][..i] == v[..i];
      sum := sum + v[i] * v[i];
    }
    assert v[..|v|] == v;
    m := sqrt(sum);
  }

  // --- Distance ------------------------------------------------------------------

  function Distance(sqrt: real -> real, a: Coord, b: Coord): real
    requires MatchDim(a, b)
  {
    Magnitude(sqrt, Diff(a.euclide, b.euclide)) + a.height + b.height
  }

  // Conversion to whole nanoseconds drops the fraction.
  function Truncate(x: real): int {
    if x >= 0.0 then x.Floor else -((-x).Floor)
  }

  function DistanceTo(sqrt: real -> real, a: Coord, b: Coord): int
    requires MatchDim(a, b)
  {
    var d := Distance(sqrt, a, b);
    var adjusted := d + a.adjustment + b.adjustment;
    Truncate((if adjusted <= 0.0 then d else adjusted) * SEC_TO_NANO)
  }

  function Seconds(nanos: int): real {
    nanos as real / SEC_TO_NANO
  }

  // --- Force -----------------------------------------------------------------------

  // `random` is the random unit vector drawn when the two points coincide.
  function VectorFromTo(sqrt: real -> real, from: Vec, to: Vec, random: Vec): (Vec, real)
    requires |from| == |to|
  {
    var vec := Diff(to, from);
    var m := Magnitude(sqrt, vec);
    if m > ZERO_THRESHOLD then (Scale(vec, 1.0 / m), m) else (random, 0.0)
  }

  function Pulled(from: Coord, to: Coord, force: real, mag: real): real
    requires mag != 0.0
  {
    to.height + (from.height + to.height) * force / mag
  }

  function ApplyForce(sqrt: real -> real, from: Coord, to: Coord, minHeight: real, force: real, random: Vec): (r: Coord)
    requires MatchDim(from, to) && |random| == |to.euclide|
    ensures MatchDim(r, to) && r.error == to.error && r.adjustment == to.adjustment
    ensures to.height >= minHeight ==> r.height >= minHeight
  {
    var (unit, mag) := VectorFromTo(sqrt, from.euclide, to.euclide, random);
    var moved := to.(euclide := Add(to.euclide, Scale(unit, force)));
    if mag > ZERO_THRESHOLD then
      var h := Pulled(from, to, force, mag);
      moved.(height := if h < minHeight then minHeight else h)
    else moved
  }

  method ComputeForce(sqrt: real -> real, from: Coord, to: Coord, minHeight: real, force: real, random: Vec)
    returns (r: Coord)
    requires MatchDim(from, to) && |random| == |to.euclide|
    ensures r == ApplyForce(sqrt, from, to, minHeight, force, random)
  {
    var vec := DiffVec(to.euclide, from.euclide);
    var m := ComputeMagnitude(sqrt, vec);
    var unit, mag := random, 0.0;
    if m > ZERO_THRESHOLD {
      unit := ScaleVec(vec, 1.0 / m);
      mag := m;
    }
    r := to;
    var push := ScaleVec(unit, force);
    var e := AddVec(r.euclide, push);
    r := r.(euclide := e);
    if mag > ZERO_THRESHOLD {
      r := r.(height := r.height + (from.height + to.height) * force / mag);
      if r.height < minHeight {
        r := r.(height := minHeight);
      }
    }
  }

  // --- Triangle inequality -------------------------------------------------------

  function Dot(u: Vec, v: Vec): real
    requires |u| == |v|
  {
    if u == [] then 0.0 else Dot(u[..|u| - 1], v[..|v| - 1]) + u[|u| - 1] * v[|v| - 1]
  }

  lemma SquareNonNegative(x: real)
    ensures x * x >= 0.0
  {
  }

  lemma {:induction false} SumSqNonNegative(v: Vec)
    ensures SumSq(v) >= 0.0
  {
    if v != [] {
      SumSqNonNegative(v[..|v| - 1]);
      SquareNonNegative(v[|v| - 1]);
    }
  }

  lemma SquareOrder(s: real, t: real)
    requires t >= 0.0 && s * s <= t * t
    ensures s <= t
  {
    assert (s - t) * (s + t) == s * s - t * t;
    if s > t {
      MulPositive(s - t, s + t);
    }
  }

  lemma MulPositive(a: real, b: real)
    requires a > 0.0 && b > 0.0
    ensures a * b > 0.0
  {
  }

  lemma MulNonNegative(a: real, b: real)
    requires a >= 0.0 && b >= 0.0
    ensures a * b >= 0.0
  {
  }

  lemma MulOrder(a: real, b: real, c: real)
    requires a <= b && c >= 0.0
    ensures a * c <= b * c
  {
  }

  // The step of the inductive proof: p*p <= X*Y bounds the cross terms.
  lemma CrossTerms(p: real, X: real, Y: real, x: real, y: real)
    requires X >= 0.0 && Y >= 0.0 && p * p <= X * Y
    ensures 2.0 * p * x * y <= X * (y * y) + Y * (x * x)
  {
    var a, b := X * (y * y), Y * (x * x);
    var s := 2.0 * p * x * y;
    SquareNonNegative(x);
    SquareNonNegative(y);
    MulNonNegative(X, y * y);
    MulNonNegative(Y, x * x);
    var q := (x * x) * (y * y);
    MulNonNegative(x * x, y * y);
    assert s * s == 4.0 * (p * p) * q;
    MulOrder(p * p, X * Y, q);
    assert a * b == (X * Y) * q;
    SquareNonNegative(a - b);
    assert (a + b) * (a + b) == (a - b) * (a - b) + 4.0 * (a * b);
    SquareOrder(s, a + b);
  }

  lemma {:induction false} CauchySchwarz(u: Vec, v: Vec)
    requires |u| == |v|
    ensures Dot(u, v) * Dot(u, v) <= SumSq(u) * SumSq(v)
  {
    if u != [] {
      var n := |u| - 1;
      var p, X, Y, x, y := Dot(u[..n], v[..n]), SumSq(u[..n]), SumSq(v[..n]), u[n], v[n];
      CauchySchwarz(u[..n], v[..n]);
      SumSqNonNegative(u[..n]);
      SumSqNonNegative(v[..n]);
      CrossTerms(p, X, Y, x, y);
      assert (p + x * y) * (p + x * y) == p * p + 2.0 * p * x * y + (x * x) * (y * y);
      assert (X + x * x) * (Y + y * y) == X * Y + X * (y * y) + Y * (x * x) + (x * x) * (y * y);
    }
  }

  lemma {:induction false} SumSqOfSum(u: Vec, v: Vec)
    requires |u| == |v|
    ensures SumSq(Add(u, v)) == SumSq(u) + 2.0 * Dot(u, v) + SumSq(v)
  {
    if u != [] {
      var n := |u| - 1;
      SumSqOfSum(u[..n], v[..n]);
      assert Add(u, v)[..n] == Add(u[..n], v[..n]);
      assert (u[n] + v[n]) * (u[n] + v[n]) == u[n] * u[n] + 2.0 * (u[n] * v[n]) + v[n] * v[n];
    }
  }

  lemma MagnitudeOfSum(sqrt: real -> real, u: Vec, v: Vec)
    requires IsSqrt(sqrt) && |u| == |v|
    ensures Magnitude(sqrt, Add(u, v)) <= Magnitude(sqrt, u) + Magnitude(sqrt, v)
  {
    var a, b, c := Magnitude(sqrt, u), Magnitude(sqrt, v), Magnitude(sqrt, Add(u, v));
    SumSqNonNegative(u);
    SumSqNonNegative(v);
    SumSqNonNegative(Add(u, v));
    CauchySchwarz(u, v);
    SumSqOfSum(u, v);
    MulNonNegative(a, b);
    assert (a * b) * (a * b) == (a * a) * (b * b);
    SquareOrder(Dot(u, v), a * b);
    assert (a + b) * (a + b) == a * a + 2.0 * (a * b) + b * b;
    SquareOrder(c, a + b);
  }

  // In any dimension the distance through b is no shorter, provided b does not
  // have a negative height.
  lemma TriangleInequality(sqrt: real -> real, a: Coord, b: Coord, c: Coord)
    requires IsSqrt(sqrt) && MatchDim(a, b) && MatchDim(b, c) && b.height >= 0.0
    ensures Distance(sqrt, a, c) <= Distance(sqrt, a, b) + Distance(sqrt, b, c)
  {
    MagnitudeOfSum(sqrt, Diff(a.euclide, b.euclide), Diff(b.euclide, c.euclide));
    assert Add(Diff(a.euclide, b.euclide), Diff(b.euclide, c.euclide)) == Diff(a.euclide, c.euclide);
  }

  // Heights of peers are not checked: a detour through b is never shorter, for
  // all ends, if and only if the height of b is not negative.
  lemma TriangleInequalityIff(sqrt: real -> real, b: Coord)
    requires IsSqrt(sqrt)
    ensures (forall a, c :: MatchDim(a, b) && MatchDim(b, c) ==>
               Distance(sqrt, a, c) <= Distance(sqrt, a, b) + Distance(sqrt, b, c))
            <==> b.height >= 0.0
  {
    if b.height >= 0.0 {
      forall a, c | MatchDim(a, b) && MatchDim(b, c)
        ensures Distance(sqrt, a, c) <= Distance(sqrt, a, b) + Distance(sqrt, b, c)
      {
        TriangleInequality(sqrt, a, b, c);
      }
    } else {
      SelfDistance(sqrt, b);
      assert MatchDim(b, b);
    }
  }

  lemma {:induction false} SumSqOfZeros(v: Vec)
    requires forall i :: 0 <= i < |v| ==> v[i] == 0.0
    ensures SumSq(v) == 0.0
  {
    if v != [] {
      SumSqOfZeros(v[..|v| - 1]);
    }
  }

  lemma SelfDistance(sqrt: real -> real, b: Coord)
    requires IsSqrt(sqrt)
    ensures Distance(sqrt, b, b) == 2.0 * b.height
  {
    SumSqOfZeros(Diff(b.euclide, b.euclide));
    RootIsUnique(sqrt(0.0), 0.0);
  }

  // --- Symmetry ------------------------------------------------------------------

  // Both ends of a link see the same round trip, a negative one only if a height
  // is negative.
  lemma DistanceIsSymmetric(sqrt: real -> real, a: Coord, b: Coord)
    requires IsSqrt(sqrt) && MatchDim(a, b)
    ensures Distance(sqrt, a, b) == Distance(sqrt, b, a)
    ensures DistanceTo(sqrt, a, b) == DistanceTo(sqrt, b, a)
    ensures a.height + b.height >= 0.0 ==> DistanceTo(sqrt, a, b) >= 0
  {
    Reversed(sqrt, a.euclide, b.euclide);
    SumSqNonNegative(Diff(a.euclide, b.euclide));
  }

  // --- Spring step -------------------------------------------------------------

  function Abs(x: real): real {
    if x < 0.0 then -x else x
  }

  lemma ScalePrefix(v: Vec, k: real, n: nat)
    requires n <= |v|
    ensures Scale(v, k)[..n] == Scale(v[..n], k)
  {
    forall i | 0 <= i < n
      ensures Scale(v, k)[i] == Scale(v[..n], k)[i]
    {
    }
  }

  lemma {:induction false} SumSqOfScaled(v: Vec, k: real)
    ensures SumSq(Scale(v, k)) == k * k * SumSq(v)
  {
    if v != [] {
      var n := |v| - 1;
      SumSqOfScaled(v[..n], k);
      ScalePrefix(v, k, n);
      assert (v[n] * k) * (v[n] * k) == k * k * (v[n] * v[n]);
      assert k * k * (SumSq(v[..n]) + v[n] * v[n]) == k * k * SumSq(v[..n]) + k * k * (v[n] * v[n]);
    }
  }

  lemma RootIsUnique(m: real, r: real)
    requires m >= 0.0 && r >= 0.0 && m * m == r * r
    ensures m == r
  {
    SquareOrder(m, r);
    SquareOrder(r, m);
  }

  lemma MagnitudeOfScaled(sqrt: real -> real, v: Vec, k: real)
    requires IsSqrt(sqrt)
    ensures Magnitude(sqrt, Scale(v, k)) == Abs(k) * Magnitude(sqrt, v)
  {
    var m, r := Magnitude(sqrt, Scale(v, k)), Abs(k) * Magnitude(sqrt, v);
    SumSqNonNegative(v);
    SumSqNonNegative(Scale(v, k));
    SumSqOfScaled(v, k);
    MulNonNegative(Abs(k), Magnitude(sqrt, v));
    assert r * r == (k * k) * (Magnitude(sqrt, v) * Magnitude(sqrt, v));
    RootIsUnique(m, r);
  }

  // Pushing along the line between the points: a force that is a multiple of
  // the separation scales the separation vector.
  lemma PushAlong(from: Vec, to: Vec, m: real, force: real)
    requires |from| == |to| && m != 0.0
    ensures var vec := Diff(to, from);
      Diff(from, Add(to, Scale(Scale(vec, 1.0 / m), force))) == Scale(vec, -((m + force) / m))
  {
    var vec := Diff(to, from);
    var lhs, rhs := Diff(from, Add(to, Scale(Scale(vec, 1.0 / m), force))), Scale(vec, -((m + force) / m));
    forall i | 0 <= i < |from|
      ensures lhs[i] == rhs[i]
    {
      var d := to[i] - from[i];
      assert (m + force) / m == 1.0 + force / m;
      assert (d * (1.0 / m)) * force == d * (force / m);
      assert d * (1.0 + force / m) == d + d * (force / m);
    }
  }

  lemma Reversed(sqrt: real -> real, u: Vec, v: Vec)
    requires IsSqrt(sqrt) && |u| == |v|
    ensures Magnitude(sqrt, Diff(u, v)) == Magnitude(sqrt, Diff(v, u))
  {
    var d := Diff(v, u);
    forall i | 0 <= i < |u|
      ensures Scale(d, -1.0)[i] == Diff(u, v)[i]
    {
    }
    assert Scale(d, -1.0) == Diff(u, v);
    MagnitudeOfScaled(sqrt, d, -1.0);
  }

  lemma PushedSeparation(sqrt: real -> real, from: Vec, to: Vec, force: real)
    requires IsSqrt(sqrt) && |from| == |to| && Magnitude(sqrt, Diff(to, from)) > 0.0
    ensures var vec := Diff(to, from);
      var mag := Magnitude(sqrt, vec);
      Magnitude(sqrt, Diff(from, Add(to, Scale(Scale(vec, 1.0 / mag), force)))) == Abs(mag + force)
  {
    var vec := Diff(to, from);
    var mag := Magnitude(sqrt, vec);
    PushAlong(from, to, mag, force);
    MagnitudeOfScaled(sqrt, vec, -((mag + force) / mag));
    AbsQuotient(mag, force);
  }

  lemma AbsQuotient(mag: real, force: real)
    requires mag > 0.0
    ensures Abs(-((mag + force) / mag)) * mag == Abs(mag + force)
  {
    var q := (mag + force) / mag;
    assert q * mag == mag + force;
    if q < 0.0 {
      MulPositive(-q, mag);
    } else {
      MulNonNegative(q, mag);
    }
  }

  // When the points are apart, the step leaves the Euclidean separation at
  // exactly the absolute value of separation plus force.
  lemma SpringSeparation(sqrt: real -> real, from: Coord, to: Coord, minHeight: real, force: real, random: Vec)
    requires IsSqrt(sqrt) && MatchDim(from, to) && |random| == |to.euclide|
    requires Magnitude(sqrt, Diff(to.euclide, from.euclide)) > ZERO_THRESHOLD
    ensures var mag := Magnitude(sqrt, Diff(to.euclide, from.euclide));
      var r := ApplyForce(sqrt, from, to, minHeight, force, random);
      && Magnitude(sqrt, Diff(from.euclide, to.euclide)) == mag
      && Magnitude(sqrt, Diff(from.euclide, r.euclide)) == Abs(mag + force)
  {
    Reversed(sqrt, from.euclide, to.euclide);
    PushedSeparation(sqrt, from.euclide, to.euclide, force);
  }

  lemma ScaledSum(mag: real, force: real, H: real)
    requires mag > 0.0
    ensures (mag + force) / mag * (mag + H) == mag + force + H + H * force / mag
  {
    var q, w := (mag + force) / mag, H * force / mag;
    assert q * mag == mag + force && w * mag == H * force;
    assert (q * H) * mag == H * (q * mag) == (H + w) * mag;
    Cancel(q * H, H + w, mag);
    assert q * (mag + H) == q * mag + q * H;
  }

  lemma Cancel(x: real, y: real, m: real)
    requires m > 0.0 && x * m == y * m
    ensures x == y
  {
    if x < y {
      MulPositive(y - x, m);
    } else if y < x {
      MulPositive(x - y, m);
    }
  }

  // The distances before and after a step between points that are apart.
  lemma SpringDistances(sqrt: real -> real, from: Coord, to: Coord, minHeight: real, force: real, random: Vec)
    requires IsSqrt(sqrt) && MatchDim(from, to) && |random| == |to.euclide|
    requires Magnitude(sqrt, Diff(to.euclide, from.euclide)) > ZERO_THRESHOLD
    ensures var mag := Magnitude(sqrt, Diff(to.euclide, from.euclide));
      var r := ApplyForce(sqrt, from, to, minHeight, force, random);
      var h := Pulled(from, to, force, mag);
      && Distance(sqrt, from, to) == mag + from.height + to.height
      && Distance(sqrt, from, r) == Abs(mag + force) + from.height + if h < minHeight then minHeight else h
  {
    SpringSeparation(sqrt, from, to, minHeight, force, random);
  }

  // The whole distance is scaled by exactly (mag + force) / mag if and only if
  // the force does not overshoot and the height clamp does not bite; otherwise
  // the step ends further away than that.
  lemma SpringScalesDistanceIff(sqrt: real -> real, from: Coord, to: Coord, minHeight: real, force: real, random: Vec)
    requires IsSqrt(sqrt) && MatchDim(from, to) && |random| == |to.euclide|
    requires Magnitude(sqrt, Diff(to.euclide, from.euclide)) > ZERO_THRESHOLD
    ensures var mag := Magnitude(sqrt, Diff(to.euclide, from.euclide));
      var after := Distance(sqrt, from, ApplyForce(sqrt, from, to, minHeight, force, random));
      var scaled := (mag + force) / mag * Distance(sqrt, from, to);
      && after >= scaled
      && (after == scaled <==> mag + force >= 0.0 && Pulled(from, to, force, mag) >= minHeight)
  {
    SpringDistances(sqrt, from, to, minHeight, force, random);
    ScaledDistance(Magnitude(sqrt, Diff(to.euclide, from.euclide)), force, from, to, Distance(sqrt, from, to));
  }

  lemma ScaledDistance(mag: real, force: real, from: Coord, to: Coord, distance: real)
    requires mag > 0.0 && distance == mag + from.height + to.height
    ensures (mag + force) / mag * distance == mag + force + from.height + Pulled(from, to, force, mag)
  {
    ScaledSum(mag, force, from.height + to.height);
    assert distance == mag + (from.height + to.height);
  }

  // When the points coincide, the step takes the random direction: the
  // separation then differs from the force's size by no more than it was before,
  // and the height stays.
  lemma CoincidingPointsPart(sqrt: real -> real, from: Coord, to: Coord, minHeight: real, force: real, random: Vec)
    requires IsSqrt(sqrt) && MatchDim(from, to) && |random| == |to.euclide|
    requires Magnitude(sqrt, random) == 1.0
    requires Magnitude(sqrt, Diff(to.euclide, from.euclide)) <= ZERO_THRESHOLD
    ensures var r := ApplyForce(sqrt, from, to, minHeight, force, random);
      var before, after := Magnitude(sqrt, Diff(to.euclide, from.euclide)), Magnitude(sqrt, Diff(r.euclide, from.euclide));
      Abs(force) - before <= after <= Abs(force) + before && r.height == to.height
  {
    var vec, push := Diff(to.euclide, from.euclide), Scale(random, force);
    var r := ApplyForce(sqrt, from, to, minHeight, force, random);
    var moved := Diff(r.euclide, from.euclide);
    assert moved == Add(vec, push);
    MagnitudeOfScaled(sqrt, random, force);
    MagnitudeOfSum(sqrt, vec, push);
    MagnitudeOfScaled(sqrt, vec, -1.0);
    MagnitudeOfSum(sqrt, moved, Scale(vec, -1.0));
    assert Add(moved, Scale(vec, -1.0)) == push;
  }
}
