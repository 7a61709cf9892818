// The Lamport clock: what one call does to it, and the clock object itself.
module Lamport {
  const TWO_TO_THE_64: nat := 0x1_0000_0000_0000_0000
  const MAX_LTIME: nat := 0xFFFF_FFFF_FFFF_FFFF

  // A 64-bit unsigned logical time.
  type LTime = t: nat | t <= MAX_LTIME

  // Unsigned 64-bit increment: the largest time wraps to zero.
  function Inc(t: LTime): LTime {
    (t + 1) % TWO_TO_THE_64
  }

  function Max(a: nat, b: nat): nat {
    if a < b then b else a
  }

  // The clock after one undisturbed Witness(t).
  function Witnessed(clock: LTime, t: LTime): LTime {
    if clock > t then clock else Inc(t)
  }

  // Witness moves the clock past what it saw, and no further than needed,
  // for every time but the largest one.
  lemma WitnessedIsMax(clock: LTime, t: LTime)
    ensures Witnessed(clock, t) > t <==> t < MAX_LTIME
    ensures t < MAX_LTIME ==> Witnessed(clock, t) == Max(clock, t + 1)
    ensures t == MAX_LTIME ==> Witnessed(clock, t) == 0
  {
    if t < MAX_LTIME {
      assert (t + 1) % TWO_TO_THE_64 == t + 1;
    }
  }

  class LamportClock {
    var time: LTime

    constructor (initial: LTime)
      ensures time == initial
    {
      time := initial;
    }

    method Time() returns (t: LTime)
      ensures t == time
    {
      t := time;
    }

    method Next() returns (t: LTime)
      modifies this
      ensures time == t == Inc(old(time))
    {
      time := Inc(time);
      t := time;
    }

    method CompareAndSwap(expected: LTime, update: LTime) returns (swapped: bool)
      modifies this
      ensures swapped <==> old(time) == expected
      ensures time == if swapped then update else old(time)
    {
      swapped := time == expected;
      if swapped {
        time := update;
      }
    }

    // The retry loop, here without interference; LamportThreads has the
    // interleaved one.
    method Witness(t: LTime)
      modifies this
      ensures time == Witnessed(old(time), t)
    {
      var done := false;
      while !done
        invariant !done ==> time == old(time)
        invariant done ==> time == Witnessed(old(time), t)
        decreases !done
      {
        var t0 := Time();
        if t0 > t {
          done := true;
        } else {
          done := CompareAndSwap(t0, Inc(t));
        }
      }
    }
  }
}

// Any number of threads calling Witness and Next on one clock, interleaved at
// the granularity of the atomic load, compare-and-swap and add.
module LamportThreads {
  import opened Lamport

  // Where a thread is inside Witness(t). `first` is the first value it read and
  // `failed` counts its lost compare-and-swaps.
  datatype Pc =
    | Calling(t: LTime)
    | Loaded(t: LTime, seen: LTime, first: LTime, failed: nat)
    | Retrying(t: LTime, first: LTime, failed: nat)
    | Returned(t: LTime, first: LTime, failed: nat)

  datatype State = State(clock: LTime, threads: map<nat, Pc>)

  datatype Action =
    | Call(thread: nat, t: LTime)
    | Load(thread: nat)
    | Swap(thread: nat)
    | Add

  // An action of a thread that is not at the matching point changes nothing.
  function Step(s: State, a: Action): State {
    match a
    case Call(i, t) =>
      if i in s.threads && !s.threads[i].Returned? then s
      else s.(threads := s.threads[i := Calling(t)])
    case Load(i) =>
      if i !in s.threads then s else
      match s.threads[i] {
        case Calling(t) => s.(threads := s.threads[i := AfterLoad(s.clock, t, s.clock, 0)])
        case Retrying(t, first, failed) => s.(threads := s.threads[i := AfterLoad(s.clock, t, first, failed)])
        case _ => s
      }
    case Swap(i) =>
      if i in s.threads && s.threads[i].Loaded? then
        var pc := s.threads[i];
        if s.clock == pc.seen then
          State(Inc(pc.t), s.threads[i := Returned(pc.t, pc.first, pc.failed)])
        else
          s.(threads := s.threads[i := Retrying(pc.t, pc.first, pc.failed + 1)])
      else s
    case Add => s.(clock := Inc(s.clock))
  }

  function AfterLoad(clock: LTime, t: LTime, first: LTime, failed: nat): Pc {
    if clock > t then Returned(t, first, failed) else Loaded(t, clock, first, failed)
  }

  function Run(s: State, actions: seq<Action>): State {
    if actions == [] then s else Step(Run(s, actions[..|actions| - 1]), actions[|actions| - 1])
  }

  // No thread witnesses the largest time, and no Add happens at it.
  predicate NoWrap(s: State, actions: seq<Action>) {
    forall k :: 0 <= k < |actions| ==>
      (actions[k].Call? ==> actions[k].t < MAX_LTIME) &&
      (actions[k].Add? ==> Run(s, actions[..k]).clock < MAX_LTIME)
  }

  ghost predicate ThreadInv(clock: LTime, pc: Pc) {
    match pc
    case Calling(t) => t < MAX_LTIME
    case Loaded(t, seen, first, failed) => t < MAX_LTIME && seen <= t && seen <= clock && first + failed <= seen
    case Retrying(t, first, failed) => t < MAX_LTIME && first + failed <= clock && first <= t && failed <= t - first + 1
    case Returned(t, first, failed) => t < clock && (first <= t ==> failed <= t - first + 1) && (first > t ==> failed == 0)
  }

  ghost predicate Inv(s: State) {
    forall i :: i in s.threads ==> ThreadInv(s.clock, s.threads[i])
  }

  lemma StepKeepsInv(s: State, a: Action)
    requires Inv(s)
    requires a.Call? ==> a.t < MAX_LTIME
    requires a.Add? ==> s.clock < MAX_LTIME
    ensures Inv(Step(s, a)) && s.clock <= Step(s, a).clock
  {
    if s.clock < MAX_LTIME {
      assert Inc(s.clock) == s.clock + 1;
    }
    if a.Swap? && a.thread in s.threads && s.threads[a.thread].Loaded? {
      WitnessedIsMax(s.clock, s.threads[a.thread].t);
    }
  }

  // In every interleaving the clock never goes back, stays above t once a
  // Witness(t) has returned, and a Witness(t) whose first read was t0 <= t
  // loses at most t - t0 + 1 compare-and-swaps.
  lemma {:induction false} WitnessUnderConcurrency(clock: LTime, actions: seq<Action>, k: nat)
    requires NoWrap(State(clock, map[]), actions)
    requires k <= |actions|
    ensures Inv(Run(State(clock, map[]), actions))
    ensures Run(State(clock, map[]), actions[..k]).clock <= Run(State(clock, map[]), actions).clock
    ensures var s := Run(State(clock, map[]), actions);
      forall i :: i in s.threads && s.threads[i].Returned? ==>
        var pc := s.threads[i];
        pc.t < s.clock && if pc.first <= pc.t then pc.failed <= pc.t - pc.first + 1 else pc.failed == 0
    decreases |actions|
  {
    var s0 := State(clock, map[]);
    if actions == [] {
      assert actions[..k] == actions;
    } else {
      var n := |actions| - 1;
      var front := actions[..n];
      assert NoWrap(s0, front) by {
        forall j | 0 <= j < n ensures front[..j] == actions[..j] {}
      }
      assert actions[..|actions|] == actions;
      WitnessUnderConcurrency(clock, front, if k <= n then k else n);
      if k <= n {
        assert front[..k] == actions[..k];
      }
      StepKeepsInv(Run(s0, front), actions[n]);
    }
  }

  // The adds among the actions.
  function Adds(actions: seq<Action>): nat {
    if actions == [] then 0
    else Adds(actions[..|actions| - 1]) + if actions[|actions| - 1].Add? then 1 else 0
  }

  // The largest time anyone was called with, plus one, and no less than the start.
  function Called(start: nat, actions: seq<Action>): nat {
    if actions == [] then start
    else
      var rest, a := Called(start, actions[..|actions| - 1]), actions[|actions| - 1];
      if a.Call? then Max(rest, a.t + 1) else rest
  }

  ghost predicate Bounded(pc: Pc, most: nat) {
    pc.t + 1 <= most
  }

  // Nor does the clock go further than needed: adds apart, it never passes the
  // start and every time witnessed by more than one.
  lemma {:induction false} NoFurtherThanNeeded(clock: LTime, actions: seq<Action>)
    requires NoWrap(State(clock, map[]), actions)
    ensures var s, most := Run(State(clock, map[]), actions), Called(clock, actions);
      s.clock <= most + Adds(actions) && forall i :: i in s.threads ==> Bounded(s.threads[i], most)
  {
    var s0 := State(clock, map[]);
    if actions != [] {
      var n := |actions| - 1;
      var front := actions[..n];
      assert NoWrap(s0, front) by {
        forall j | 0 <= j < n ensures front[..j] == actions[..j] {}
      }
      NoFurtherThanNeeded(clock, front);
      var s, a := Run(s0, front), actions[n];
      if a.Swap? && a.thread in s.threads && s.threads[a.thread].Loaded? {
        assert Bounded(s.threads[a.thread], Called(clock, front));
      }
    }
  }

  // A thread that nobody disturbs returns after one load and, if the clock is not
  // past t yet, one swap, and leaves the clock as one call of Witness does; an
  // add takes the next time.
  lemma UndisturbedThread(s: State, i: nat, t: LTime)
    requires i !in s.threads || s.threads[i].Returned?
    ensures var s' := Step(Step(Step(s, Call(i, t)), Load(i)), Swap(i));
      && s'.clock == Witnessed(s.clock, t)
      && s'.threads == s.threads[i := Returned(t, s.clock, 0)]
    ensures s.clock < MAX_LTIME ==> Step(s, Add) == State(s.clock + 1, s.threads)
  {
    if s.clock < MAX_LTIME {
      assert Inc(s.clock) == s.clock + 1;
    }
    var s1 := Step(s, Call(i, t));
    var s2 := Step(s1, Load(i));
    assert s.threads[i := Calling(t)][i := Returned(t, s.clock, 0)] == s.threads[i := Returned(t, s.clock, 0)];
    assert s2.threads == s.threads[i := AfterLoad(s.clock, t, s.clock, 0)];
  }
}
