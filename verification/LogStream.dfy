// The ring of recent log lines and the streamers that attach to it.
module LogStream {
  const RING_SIZE := 512

  // What a logger hands over in one write is never empty.
  type Chunk = p: string | |p| > 0 witness "\n"

  // The line in a chunk: without one trailing newline.
  function Line(p: Chunk): string {
    if p[|p| - 1] == '\n' then p[..|p| - 1] else p
  }

  // What is written with a newline is the line without it; without one it is the
  // line itself. No more than one newline is taken off.
  lemma LineIs(l: string)
    ensures Line(l + "\n") == l
    ensures l != "" && l[|l| - 1] != '\n' ==> Line(l) == l
  {
    assert (l + "\n")[..|l|] == l;
  }

  datatype RingLog = RingLog(idx: nat, buf: seq<string>) {
    predicate Valid() {
      idx < |buf|
    }

    // The slots from the oldest to the newest.
    function Rotated(): seq<string>
      requires Valid()
    {
      buf[idx..] + buf[..idx]
    }

    function Write(l: string): (r: RingLog)
      requires Valid()
      ensures r.Valid() && |r.buf| == |buf|
    {
      RingLog((idx + 1) % |buf|, buf[idx := l])
    }
  }

  // Walking the ring from its index visits the slots in that order.
  lemma RotatedAt(r: RingLog, i: nat)
    requires r.Valid() && i < |r.buf|
    ensures r.Rotated()[i] == r.buf[(r.idx + i) % |r.buf|]
  {
    WrapOnce(r.idx + i, |r.buf|);
  }

  lemma WrapOnce(a: nat, n: nat)
    requires 0 < n && a < n + n
    ensures a % n == if a < n then a else a - n
  {
    if a >= n {
      assert a / n == 1;
    }
  }

  function NonEmpty(lines: seq<string>): seq<string> {
    if lines == [] then []
    else NonEmpty(lines[..|lines| - 1]) + if lines[|lines| - 1] == "" then [] else [lines[|lines| - 1]]
  }

  // Who is registered, and everything each streamer was ever offered.
  datatype Manager<S> = Manager(ring: RingLog, registered: set<S>, offered: map<S, seq<string>>) {
    function Got(s: S): seq<string> {
      if s in offered then offered[s] else []
    }
  }

  datatype Op<S> = Register(s: S) | Deregister(s: S) | WriteChunk(p: Chunk)

  function Step<S>(m: Manager<S>, op: Op<S>): Manager<S>
    requires m.ring.Valid()
  {
    match op
    case Register(s) =>
      m.(registered := m.registered + {s}, offered := m.offered[s := m.Got(s) + NonEmpty(m.ring.Rotated())])
    case Deregister(s) => m.(registered := m.registered - {s})
    case WriteChunk(p) =>
      Manager(m.ring.Write(Line(p)), m.registered,
              map s | s in m.offered.Keys + m.registered :: if s in m.registered then m.Got(s) + [Line(p)] else m.Got(s))
  }

  function Run<S>(m: Manager<S>, ops: seq<Op<S>>): (r: Manager<S>)
    requires m.ring.Valid()
    ensures r.ring.Valid() && |r.ring.buf| == |m.ring.buf|
  {
    if ops == [] then m else Step(Run(m, ops[..|ops| - 1]), ops[|ops| - 1])
  }

  function NewManager<S>(): Manager<S> {
    Manager(RingLog(0, seq(RING_SIZE, i => "")), {}, map[])
  }

  // The lines of writes that each end in one newline are the texts before it.
  lemma {:induction false} LinesAreWritten<S>(ops: seq<Op<S>>, texts: seq<string>)
    requires |ops| == |texts| && forall k :: 0 <= k < |ops| ==> ops[k] == WriteChunk(texts[k] + "\n")
    ensures Lines(ops) == texts
  {
    if ops != [] {
      var n := |ops| - 1;
      LinesAreWritten(ops[..n], texts[..n]);
      LineIs(texts[n]);
      assert texts == texts[..n] + [texts[n]];
    }
  }

  // --- The ring holds the latest lines -----------------------------------------

  function Lines<S>(ops: seq<Op<S>>): seq<string> {
    if ops == [] then []
    else
      var rest := Lines(ops[..|ops| - 1]);
      if ops[|ops| - 1].WriteChunk? then rest + [Line(ops[|ops| - 1].p)] else rest
  }

  // The last n of the lines.
  function Latest(n: nat, lines: seq<string>): seq<string> {
    if |lines| <= n then lines else lines[|lines| - n..]
  }

  function Blanks(n: nat): seq<string> {
    seq(n, i => "")
  }

  // Slots not yet written are blank.
  function Padded(n: nat, lines: seq<string>): seq<string> {
    if |lines| <= n then Blanks(n - |lines|) + lines else Latest(n, lines)
  }

  lemma WriteRotates(r: RingLog, l: string)
    requires r.Valid()
    ensures r.Write(l).Rotated() == r.Rotated()[1..] + [l]
  {
    var n, i := |r.buf|, r.idx;
    WrapOnce(i + 1, n);
    RotateOne(r.buf, i, l);
  }

  // Overwriting the oldest slot and moving on by one.
  lemma RotateOne(buf: seq<string>, i: nat, l: string)
    requires i < |buf|
    ensures var buf' := buf[i := l];
      (buf[i..] + buf[..i])[1..] + [l] == if i + 1 < |buf| then buf'[i + 1..] + buf'[..i + 1] else buf'
  {
    var buf' := buf[i := l];
    assert (buf[i..] + buf[..i])[1..] == buf[i + 1..] + buf[..i];
    assert buf'[i + 1..] == buf[i + 1..] && buf'[..i + 1] == buf[..i] + [l];
  }

  lemma PaddedNext(n: nat, lines: seq<string>, l: string)
    requires n > 0
    ensures |Padded(n, lines)| == n
    ensures Padded(n, lines + [l]) == Padded(n, lines)[1..] + [l]
  {
    if |lines| < n {
      assert Blanks(n - |lines|)[1..] == Blanks(n - |lines| - 1);
    }
  }

  // Read from its index on, the ring is the latest lines, oldest first, after as
  // many blanks as it takes.
  lemma {:induction false} RingHoldsLatest<S>(ops: seq<Op<S>>)
    ensures Run(NewManager(), ops).ring.Rotated() == Padded(512, Lines(ops))
  {
    if ops == [] {
      assert Padded(512, []) == Blanks(512) + [] == Blanks(512);
      assert NewManager<S>().ring.Rotated() == Blanks(512);
    } else {
      var front, op := ops[..|ops| - 1], ops[|ops| - 1];
      RingHoldsLatest(front);
      if op.WriteChunk? {
        WriteRotates(Run(NewManager(), front).ring, Line(op.p));
        PaddedNext(512, Lines(front), Line(op.p));
      }
    }
  }

  lemma {:induction false} NonEmptyConcat(a: seq<string>, b: seq<string>)
    ensures NonEmpty(a + b) == NonEmpty(a) + NonEmpty(b)
  {
    if b == [] {
      assert a + b == a;
    } else {
      NonEmptyConcat(a, b[..|b| - 1]);
      assert (a + b)[..|a + b| - 1] == a + b[..|b| - 1];
    }
  }

  lemma {:induction false} NonEmptyBlanks(n: nat)
    ensures NonEmpty(Blanks(n)) == []
  {
    if n > 0 {
      assert Blanks(n)[..n - 1] == Blanks(n - 1);
      NonEmptyBlanks(n - 1);
    }
  }

  // Only empty lines are dropped, each other one is kept as often as it is there;
  // the order is kept, since concatenation is (NonEmptyConcat).
  lemma {:induction false} NonEmptyKeeps(lines: seq<string>, l: string)
    ensures multiset(NonEmpty(lines))[l] == if l == "" then 0 else multiset(lines)[l]
  {
    if lines != [] {
      NonEmptyKeeps(lines[..|lines| - 1], l);
      assert lines == lines[..|lines| - 1] + [lines[|lines| - 1]];
    }
  }

  lemma BlanksAreSkipped(n: nat, lines: seq<string>)
    ensures NonEmpty(Padded(n, lines)) == NonEmpty(Latest(n, lines))
  {
    if |lines| <= n {
      NonEmptyConcat(Blanks(n - |lines|), lines);
      NonEmptyBlanks(n - |lines|);
    }
  }

  // --- Attaching without a gap ---------------------------------------------------

  predicate Concerns<S(==)>(op: Op<S>, s: S) {
    !op.WriteChunk? && op.s == s
  }

  lemma StepGot<S>(m: Manager<S>, op: Op<S>, s: S)
    requires m.ring.Valid() && !Concerns(op, s)
    ensures var m' := Step(m, op);
      && (s in m'.registered <==> s in m.registered)
      && m'.Got(s) == if op.WriteChunk? && s in m.registered then m.Got(s) + [Line(op.p)] else m.Got(s)
  {
  }

  // While nothing registers or deregisters it, a registered streamer is offered
  // every line written, once and in order, and any other streamer nothing.
  lemma {:induction false} StreamsEveryLine<S>(m: Manager<S>, ops: seq<Op<S>>, s: S)
    requires m.ring.Valid() && forall k :: 0 <= k < |ops| ==> !Concerns(ops[k], s)
    ensures s in Run(m, ops).registered <==> s in m.registered
    ensures Run(m, ops).Got(s) == if s in m.registered then m.Got(s) + Lines(ops) else m.Got(s)
  {
    if ops == [] {
      assert m.Got(s) + [] == m.Got(s);
    } else {
      var front, op := ops[..|ops| - 1], ops[|ops| - 1];
      StreamsEveryLine(m, front, s);
      StepGot(Run(m, front), op, s);
      if op.WriteChunk? {
        assert m.Got(s) + Lines(front) + [Line(op.p)] == m.Got(s) + (Lines(front) + [Line(op.p)]);
      }
    }
  }

  lemma {:induction false} RunConcat<S>(m: Manager<S>, a: seq<Op<S>>, b: seq<Op<S>>)
    requires m.ring.Valid()
    ensures Run(m, a + b) == Run(Run(m, a), b)
  {
    if b == [] {
      assert a + b == a;
    } else {
      RunConcat(m, a, b[..|b| - 1]);
      assert (a + b)[..|a + b| - 1] == a + b[..|b| - 1];
    }
  }

  // A streamer that registers after `before` has, until it is next registered or
  // deregistered, been offered in addition exactly the non-empty ones of the
  // last 512 lines written before, oldest first, and then every later line.
  lemma AttachIsGapFree<S>(before: seq<Op<S>>, s: S, later: seq<Op<S>>)
    requires forall k :: 0 <= k < |later| ==> !Concerns(later[k], s)
    ensures Run(NewManager(), before + [Register(s)] + later).Got(s) ==
            Run(NewManager(), before).Got(s) + NonEmpty(Latest(512, Lines(before))) + Lines(later)
  {
    var m := Run(NewManager(), before);
    var joined := before + [Register(s)];
    assert joined[..|joined| - 1] == before;
    RunConcat(NewManager(), joined, later);
    StreamsEveryLine(Step(m, Register(s)), later, s);
    RingHoldsLatest(before);
    BlanksAreSkipped(512, Lines(before));
  }

  // After it is deregistered a streamer is offered nothing.
  lemma DetachIsSilent<S>(before: seq<Op<S>>, s: S, later: seq<Op<S>>)
    requires forall k :: 0 <= k < |later| ==> !Concerns(later[k], s)
    ensures Run(NewManager(), before + [Deregister(s)] + later).Got(s) == Run(NewManager(), before).Got(s)
  {
    var detached := before + [Deregister(s)];
    assert detached[..|detached| - 1] == before;
    RunConcat(NewManager(), detached, later);
    StreamsEveryLine(Run(NewManager(), detached), later, s);
  }
}
