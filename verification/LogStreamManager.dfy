// The log objects: streamers, the ring buffer and the manager that feeds both.
module LogStreamManager {
  import opened LogStream

  // `offered` lists everything passed to Stream, before its level filter and
  // its bounded channel.
  class LogStreamer {
    var offered: seq<string>

    constructor ()
      ensures offered == []
    {
      offered := [];
    }

    method Stream(l: string)
      modifies this
      ensures offered == old(offered) + [l]
    {
      offered := offered + [l];
    }
  }

  class RingLogBuf {
    var idx: nat
    const buf: array<string>

    ghost predicate Valid()
      reads this
    {
      idx < buf.Length
    }

    ghost function View(): RingLog
      reads this, buf
    {
      RingLog(idx, buf[..])
    }

    constructor (size: nat)
      requires size > 0
      ensures Valid() && fresh(buf)
      ensures View() == RingLog(0, seq(size, i => ""))
    {
      idx := 0;
      buf := new string[size](i => "");
    }

    method Write(l: string)
      requires Valid()
      modifies this, buf
      ensures Valid() && View() == old(View()).Write(l)
    {
      buf[idx] := l;
      idx := (idx + 1) % buf.Length;
    }

    method Dump(s: LogStreamer)
      requires Valid()
      modifies s
      ensures s.offered == old(s.offered) + NonEmpty(View().Rotated())
    {
      ghost var lines := View().Rotated();
      for i := 0 to buf.Length
        invariant lines == View().Rotated()
        invariant s.offered == old(s.offered) + NonEmpty(lines[..i])
      {
        var j := (idx + i) % buf.Length;
        RotatedAt(View(), i);
        assert lines[..i + 1][..i] == lines[..i];
        if buf[j] != "" {
          s.Stream(buf[j]);
        }
      }
      assert lines[..buf.Length] == lines;
    }
  }

  class LogStreamManager {
    var streamers: set<LogStreamer>
    const buf: RingLogBuf

    ghost predicate Valid()
      reads this, buf
    {
      buf.Valid()
    }

    // The manager as the streamers in `all` see it.
    ghost function View(all: set<LogStreamer>): Manager<LogStreamer>
      reads this, buf, buf.buf, all
    {
      Manager(buf.View(), streamers, map s | s in all :: s.offered)
    }

    constructor ()
      ensures Valid() && fresh(buf) && fresh(buf.buf)
      ensures View({}) == NewManager()
    {
      streamers := {};
      buf := new RingLogBuf(RING_SIZE);
    }

    method Register(s: LogStreamer, ghost all: set<LogStreamer>)
      requires Valid() && s in all
      modifies this, s
      ensures Valid() && View(all) == Step(old(View(all)), Op.Register(s))
    {
      streamers := streamers + {s};
      buf.Dump(s);
    }

    method Deregister(s: LogStreamer, ghost all: set<LogStreamer>)
      requires Valid()
      modifies this
      ensures Valid() && View(all) == Step(old(View(all)), Op.Deregister(s))
    {
      streamers := streamers - {s};
    }

    method FanOut(str: string)
      modifies streamers
      ensures forall s :: s in streamers ==> s.offered == old(s.offered) + [str]
    {
      var todo := streamers;
      while todo != {}
        invariant todo <= streamers
        invariant forall s :: s in todo ==> s.offered == old(s.offered)
        invariant forall s :: s in streamers && s !in todo ==> s.offered == old(s.offered) + [str]
        decreases |todo|
      {
        var s :| s in todo;
        s.Stream(str);
        todo := todo - {s};
      }
    }

    // An empty write panics before it changes anything.
    method Write(p: string, ghost all: set<LogStreamer>) returns (n: nat, panicked: bool)
      requires Valid() && streamers <= all
      modifies buf, buf.buf, streamers
      ensures panicked <==> p == ""
      ensures Valid() && n == |p|
      ensures View(all) == if p == "" then old(View(all)) else Step(old(View(all)), WriteChunk(p))
    {
      n, panicked := |p|, p == "";
      if panicked {
        return;
      }
      var str := p;
      if p[n - 1] == '\n' {
        str := p[..n - 1];
      }
      buf.Write(str);
      FanOut(str);
    }
  }
}
