// The lines of the snapshot log: how they are written, and how they are read
// back. Each character stands for one byte.
module SnapshotText {
  import opened Wrappers
  import opened Lamport

  // --- Decimal numbers -------------------------------------------------------

  function Digit(d: nat): char
    requires d < 10
  {
    '0' + d as char
  }

  predicate IsDigit(c: char) {
    '0' <= c <= '9'
  }

  function DigitValue(c: char): nat
    requires IsDigit(c)
  {
    (c - '0') as nat
  }

  function Decimal(n: nat): string {
    if n < 10 then [Digit(n)] else Decimal(n / 10) + [Digit(n % 10)]
  }

  // What strconv.ParseUint(s, 10, 64) returns: the value and whether it is
  // valid. Bad syntax yields 0, a value that is too large the largest one.
  function ParseUint(s: string): (LTime, bool) {
    if s == "" then (0, false) else ParseDigits(s, 0)
  }

  function ParseDigits(s: string, acc: LTime): (LTime, bool) {
    if s == "" then (acc, true)
    else if !IsDigit(s[0]) then (0, false)
    else if acc * 10 + DigitValue(s[0]) > MAX_LTIME then (MAX_LTIME, false)
    else ParseDigits(s[1..], acc * 10 + DigitValue(s[0]))
  }

  lemma {:induction false} ParseAppend(s: string, d: nat, acc: LTime)
    requires d < 10 && ParseDigits(s, acc).1
    requires ParseDigits(s, acc).0 * 10 + d <= MAX_LTIME
    ensures ParseDigits(s + [Digit(d)], acc) == (ParseDigits(s, acc).0 * 10 + d, true)
    decreases |s|
  {
    if s == "" {
      assert s + [Digit(d)] == [Digit(d)];
      assert [Digit(d)][1..] == "";
    } else {
      assert (s + [Digit(d)])[1..] == s[1..] + [Digit(d)];
      ParseAppend(s[1..], d, acc * 10 + DigitValue(s[0]));
    }
  }

  lemma {:induction false} DecimalRoundTrip(n: LTime)
    ensures ParseUint(Decimal(n)) == (n, true)
    ensures forall c :: c in Decimal(n) ==> IsDigit(c)
  {
    if n < 10 {
      ParseAppend("", n, 0);
      assert "" + [Digit(n)] == Decimal(n);
    } else {
      DecimalRoundTrip(n / 10);
      ParseAppend(Decimal(n / 10), n % 10, 0);
    }
  }

  predicate AllDigits(s: string) {
    forall k :: 0 <= k < |s| ==> IsDigit(s[k])
  }

  // The number that a text of digits writes in base ten.
  function Number(s: string): nat
    requires AllDigits(s)
  {
    if s == "" then 0 else 10 * Number(s[..|s| - 1]) + DigitValue(s[|s| - 1])
  }

  // The same, read from the left behind acc.
  function NumberBehind(acc: nat, s: string): (n: nat)
    requires AllDigits(s)
    ensures n >= acc
    decreases |s|
  {
    if s == "" then acc else NumberBehind(acc * 10 + DigitValue(s[0]), s[1..])
  }

  lemma {:induction false} OneMoreDigit(acc: nat, s: string)
    requires AllDigits(s) && s != ""
    ensures NumberBehind(acc, s) == 10 * NumberBehind(acc, s[..|s| - 1]) + DigitValue(s[|s| - 1])
    decreases |s|
  {
    if |s| > 1 {
      assert s[1..][..|s| - 2] == s[..|s| - 1][1..];
      OneMoreDigit(acc * 10 + DigitValue(s[0]), s[1..]);
    }
  }

  lemma {:induction false} ReadFromLeft(s: string)
    requires AllDigits(s)
    ensures NumberBehind(0, s) == Number(s)
  {
    if s != "" {
      ReadFromLeft(s[..|s| - 1]);
      OneMoreDigit(0, s);
    }
  }

  lemma {:induction false} ParseDigitsIs(s: string, acc: LTime)
    ensures ParseDigits(s, acc).1 <==> AllDigits(s) && NumberBehind(acc, s) <= MAX_LTIME
    ensures ParseDigits(s, acc).1 ==> ParseDigits(s, acc).0 == NumberBehind(acc, s)
    decreases |s|
  {
    if s != "" && IsDigit(s[0]) {
      assert AllDigits(s) <==> AllDigits(s[1..]) by {
        assert forall k :: 1 <= k < |s| ==> s[k] == s[1..][k - 1];
      }
      if acc * 10 + DigitValue(s[0]) <= MAX_LTIME {
        ParseDigitsIs(s[1..], acc * 10 + DigitValue(s[0]));
      }
    }
  }

  // A text is a valid 64-bit number if and only if it is one or more digits whose
  // number in base ten is at most the largest time; its value is that number.
  lemma ParseUintIff(s: string)
    ensures ParseUint(s).1 <==> s != "" && AllDigits(s) && Number(s) <= 0xFFFF_FFFF_FFFF_FFFF
    ensures ParseUint(s).1 ==> ParseUint(s).0 == Number(s)
  {
    ParseDigitsIs(s, 0);
    if AllDigits(s) {
      ReadFromLeft(s);
    }
  }

  function Pow10(k: nat): nat {
    if k == 0 then 1 else 10 * Pow10(k - 1)
  }

  lemma {:induction false} DecimalLength(n: nat, k: nat)
    requires k > 0 && n < Pow10(k)
    ensures 1 <= |Decimal(n)| <= k
  {
    if n >= 10 {
      DecimalLength(n / 10, k - 1);
    }
  }

  // A 64-bit time takes at most twenty digits.
  lemma LTimeLength(t: LTime)
    ensures 1 <= |Decimal(t)| <= 20
  {
    assert Pow10(5) == 100000;
    assert Pow10(10) == 100000 * Pow10(5);
    assert Pow10(15) == 100000 * Pow10(10);
    assert Pow10(20) == 100000 * Pow10(15);
    DecimalLength(t, 20);
  }

  // --- One line --------------------------------------------------------------

  const ALIVE := "alive: "
  const NOT_ALIVE := "not-alive: "
  const ACTION_CLOCK := "action-clock: "
  const QUERY_CLOCK := "query-clock: "
  const LEAVE := "leave"
  const PREFIXES: seq<string> := [ALIVE, NOT_ALIVE, ACTION_CLOCK, QUERY_CLOCK, "coordinate: ", LEAVE, "#"]

  function AliveLine(id: string, addr: string): string { ALIVE + id + " " + addr }
  function NotAliveLine(id: string): string { NOT_ALIVE + id }
  function ActionLine(t: LTime): string { ACTION_CLOCK + Decimal(t) }
  function QueryLine(t: LTime): string { QUERY_CLOCK + Decimal(t) }

  // What reading a log rebuilds.
  datatype Recovered = Recovered(alive: map<string, string>, actionClock: LTime, queryClock: LTime)

  function FirstPrefix(l: string, prefixes: seq<string>): (p: string)
    ensures p <= l
  {
    if prefixes == [] then "" else if prefixes[0] <= l then prefixes[0] else FirstPrefix(l, prefixes[1..])
  }

  function LastIndex(s: string, c: char): (i: Option<nat>)
    ensures i.Some? ==> i.value < |s| && s[i.value] == c
    ensures i.None? ==> c !in s
  {
    if s == "" then None else if s[|s| - 1] == c then Some(|s| - 1) else LastIndex(s[..|s| - 1], c)
  }

  // One line's effect. None means that the process panics: an alive line
  // without a space makes the code slice with a negative bound.
  function HandleLine(st: Recovered, l: string): Option<Recovered> {
    var prefix := FirstPrefix(l, PREFIXES);
    if prefix == "" then Some(st)
    else
      var info := l[|prefix|..];
      if prefix == ALIVE then
        match LastIndex(info, ' ') {
          case None => None
          case Some(i) => Some(st.(alive := st.alive[info[..i] := info[i + 1..]]))
        }
      else if prefix == NOT_ALIVE then Some(st.(alive := st.alive - {info}))
      else if prefix == ACTION_CLOCK then
        var (t, valid) := ParseUint(info);
        Some(if valid then st.(actionClock := t) else st)
      else if prefix == QUERY_CLOCK then Some(st.(queryClock := ParseUint(info).0))
      else Some(st)
  }

  lemma {:induction false} FirstPrefixIs(l: string, prefixes: seq<string>, k: nat)
    requires k < |prefixes| && prefixes[k] <= l
    requires forall j :: 0 <= j < k ==> !(prefixes[j] <= l)
    ensures FirstPrefix(l, prefixes) == prefixes[k]
  {
    if k > 0 {
      assert !(prefixes[0] <= l);
      FirstPrefixIs(l, prefixes[1..], k - 1);
    }
  }

  lemma {:induction false} LastIndexOf(s: string, c: char, tail: string)
    requires c !in tail
    ensures LastIndex(s + [c] + tail, c) == Some(|s|)
    decreases |tail|
  {
    var whole := s + [c] + tail;
    if tail == "" {
      assert whole == s + [c];
    } else {
      assert whole[..|whole| - 1] == s + [c] + tail[..|tail| - 1];
      LastIndexOf(s, c, tail[..|tail| - 1]);
    }
  }

  // An alive line without a space.
  predicate Unreadable(l: string) {
    ALIVE <= l && ' ' !in l[|ALIVE|..]
  }

  // Reading a line panics if and only if it is an alive line without a space.
  lemma HandleLinePanicsIff(st: Recovered, l: string)
    ensures HandleLine(st, l).None? <==> Unreadable(l)
  {
    if ALIVE <= l {
      FirstPrefixIs(l, PREFIXES, 0);
      var info := l[|ALIVE|..];
      if LastIndex(info, ' ').Some? {
        assert info[LastIndex(info, ' ').value] in info;
      }
    }
  }

  lemma HandleAliveLine(st: Recovered, id: string, addr: string)
    requires ' ' !in addr
    ensures AliveLine(id, addr) == "alive: " + id + " " + addr
    ensures HandleLine(st, AliveLine(id, addr)) == Some(st.(alive := st.alive[id := addr]))
  {
    var l := AliveLine(id, addr);
    FirstPrefixIs(l, PREFIXES, 0);
    var info := l[|ALIVE|..];
    assert info == id + [' '] + addr;
    LastIndexOf(id, ' ', addr);
    assert info[..|id|] == id && info[|id| + 1..] == addr;
  }

  lemma HandleNotAliveLine(st: Recovered, id: string)
    ensures NotAliveLine(id) == "not-alive: " + id
    ensures HandleLine(st, NotAliveLine(id)) == Some(st.(alive := st.alive - {id}))
  {
    var l := NotAliveLine(id);
    assert l[0] != ALIVE[0];
    FirstPrefixIs(l, PREFIXES, 1);
    assert l[|NOT_ALIVE|..] == id;
  }

  lemma HandleActionLine(st: Recovered, t: LTime)
    ensures ActionLine(t) == "action-clock: " + Decimal(t)
    ensures HandleLine(st, ActionLine(t)) == Some(st.(actionClock := t))
  {
    var l := ActionLine(t);
    assert l[1] != ALIVE[1] && l[0] != NOT_ALIVE[0];
    FirstPrefixIs(l, PREFIXES, 2);
    assert l[|ACTION_CLOCK|..] == Decimal(t);
    DecimalRoundTrip(t);
  }

  lemma HandleQueryLine(st: Recovered, t: LTime)
    ensures QueryLine(t) == "query-clock: " + Decimal(t)
    ensures HandleLine(st, QueryLine(t)) == Some(st.(queryClock := t))
  {
    var l := QueryLine(t);
    assert l[0] != ALIVE[0] && l[0] != NOT_ALIVE[0] && l[0] != ACTION_CLOCK[0];
    FirstPrefixIs(l, PREFIXES, 3);
    assert l[|QUERY_CLOCK|..] == Decimal(t);
    DecimalRoundTrip(t);
  }

  // Any line that does not begin with one of the four words changes nothing.
  lemma OtherLinesAreIgnored(st: Recovered, l: string)
    requires !("alive: " <= l) && !("not-alive: " <= l) && !("action-clock: " <= l) && !("query-clock: " <= l)
    ensures HandleLine(st, l) == Some(st)
  {
  }

  // A clock line with a bad number leaves the action clock as it was, but sets
  // the query clock: to 0, or to the largest time if the number is too large.
  lemma BadClockLines(st: Recovered, info: string)
    requires !ParseUint(info).1
    ensures HandleLine(st, "action-clock: " + info) == Some(st)
    ensures HandleLine(st, "query-clock: " + info) == Some(st.(queryClock := ParseUint(info).0))
    ensures ParseUint(info).0 == 0 || ParseUint(info).0 == MAX_LTIME
  {
    var a, q := "action-clock: " + info, "query-clock: " + info;
    assert a[1] != ALIVE[1] && a[0] != NOT_ALIVE[0];
    FirstPrefixIs(a, PREFIXES, 2);
    assert a[|ACTION_CLOCK|..] == info;
    assert q[0] != ALIVE[0] && q[0] != NOT_ALIVE[0] && q[0] != ACTION_CLOCK[0];
    FirstPrefixIs(q, PREFIXES, 3);
    assert q[|QUERY_CLOCK|..] == info;
    BadNumber(info, 0);
  }

  lemma {:induction false} BadNumber(s: string, acc: LTime)
    ensures !ParseDigits(s, acc).1 ==> ParseDigits(s, acc).0 == 0 || ParseDigits(s, acc).0 == MAX_LTIME
    decreases |s|
  {
    if s != "" && IsDigit(s[0]) && acc * 10 + DigitValue(s[0]) <= MAX_LTIME {
      BadNumber(s[1..], acc * 10 + DigitValue(s[0]));
    }
  }

  lemma HandleLeaveLine(st: Recovered)
    ensures HandleLine(st, LEAVE) == Some(st)
  {
    assert LEAVE[0] != ALIVE[0] && LEAVE[0] != NOT_ALIVE[0] && LEAVE[0] != ACTION_CLOCK[0] && LEAVE[0] != QUERY_CLOCK[0];
    assert |LEAVE| < |PREFIXES[4]|;
    FirstPrefixIs(LEAVE, PREFIXES, 5);
  }

  // --- The whole log ---------------------------------------------------------

  function IndexOf(s: string, c: char): (i: Option<nat>)
    ensures i.Some? ==> i.value < |s| && s[i.value] == c && forall k :: 0 <= k < i.value ==> s[k] != c
    ensures i.None? ==> c !in s
  {
    if s == "" then None
    else if s[0] == c then Some(0)
    else match IndexOf(s[1..], c) { case None => None case Some(i) => Some(i + 1) }
  }

  // Reads the terminated lines one after the other; an unterminated last line
  // is ignored.
  function Replay(st: Recovered, log: string): Option<Recovered>
    decreases |log|
  {
    match IndexOf(log, '\n')
    case None => Some(st)
    case Some(i) =>
      match HandleLine(st, log[..i])
      case None => None
      case Some(st') => Replay(st', log[i + 1..])
  }

  // log[i..j] is a newline-terminated line.
  predicate IsLine(log: string, i: nat, j: nat) {
    i <= j < |log| && log[j] == '\n' && (i == 0 || log[i - 1] == '\n') && '\n' !in log[i..j]
  }

  ghost predicate HasUnreadable(log: string) {
    exists i: nat, j: nat :: IsLine(log, i, j) && Unreadable(log[i..j])
  }

  // A log has an unreadable line if and only if its first line is one or the
  // rest has one.
  lemma FirstOrLater(log: string, f: nat)
    requires IndexOf(log, '\n') == Some(f)
    ensures HasUnreadable(log) <==> Unreadable(log[..f]) || HasUnreadable(log[f + 1..])
  {
    var rest := log[f + 1..];
    if Unreadable(log[..f]) {
      assert log[0..f] == log[..f] && IsLine(log, 0, f);
    }
    if HasUnreadable(rest) {
      var i: nat, j: nat :| IsLine(rest, i, j) && Unreadable(rest[i..j]);
      LaterLine(log, f, i, j);
    }
    if HasUnreadable(log) {
      var i: nat, j: nat :| IsLine(log, i, j) && Unreadable(log[i..j]);
      LineIsFirstOrLater(log, f, i, j);
    }
  }

  lemma LineIsFirstOrLater(log: string, f: nat, i: nat, j: nat)
    requires IndexOf(log, '\n') == Some(f) && IsLine(log, i, j)
    ensures i == 0 ==> j == f && log[i..j] == log[..f]
    ensures i > 0 ==> f < i && IsLine(log[f + 1..], i - f - 1, j - f - 1) && log[f + 1..][i - f - 1..j - f - 1] == log[i..j]
  {
    if i == 0 {
      assert forall k :: 0 <= k < j ==> log[0..j][k] != '\n';
    } else {
      assert f <= i - 1;
      LaterLine(log, f, i - f - 1, j - f - 1);
    }
  }

  lemma LaterLine(log: string, f: nat, i: nat, j: nat)
    requires f < |log| && log[f] == '\n' && i <= j
    ensures IsLine(log[f + 1..], i, j) <==> IsLine(log, i + f + 1, j + f + 1)
    ensures j + f + 1 < |log| ==> log[f + 1..][i..j] == log[i + f + 1..j + f + 1]
  {
    if j + f + 1 < |log| {
      assert log[f + 1..][i..j] == log[i + f + 1..j + f + 1];
    }
  }

  // Reading a log panics if and only if one of its terminated lines is an alive
  // line without a space, whatever was read before.
  lemma {:induction false} ReplayPanicsIff(st: Recovered, log: string)
    ensures Replay(st, log).None? <==> HasUnreadable(log)
    decreases |log|
  {
    match IndexOf(log, '\n')
    case None =>
      assert forall j :: 0 <= j < |log| ==> log[j] != '\n';
    case Some(f) =>
      FirstOrLater(log, f);
      HandleLinePanicsIff(st, log[..f]);
      if HandleLine(st, log[..f]).Some? {
        ReplayPanicsIff(HandleLine(st, log[..f]).value, log[f + 1..]);
      }
  }

  predicate Terminated(log: string) {
    log == "" || log[|log| - 1] == '\n'
  }

  lemma {:induction false} ReplayConcat(st: Recovered, a: string, b: string)
    requires Terminated(a)
    ensures Replay(st, a + b) ==
            match Replay(st, a) { case None => None case Some(st') => Replay(st', b) }
    decreases |a|
  {
    if a == "" {
      assert a + b == b;
    } else {
      assert a[|a| - 1] in a;
      var i := IndexOf(a, '\n').value;
      FirstNewlineStays(a, b);
      assert (a + b)[..i] == a[..i];
      assert (a + b)[i + 1..] == a[i + 1..] + b;
      if HandleLine(st, a[..i]).Some? {
        ReplayConcat(HandleLine(st, a[..i]).value, a[i + 1..], b);
      }
    }
  }

  lemma FirstNewlineStays(a: string, b: string)
    requires '\n' in a
    ensures IndexOf(a + b, '\n') == IndexOf(a, '\n')
  {
    var i := IndexOf(a, '\n').value;
    assert (a + b)[i] == '\n';
    assert forall k :: 0 <= k < i ==> (a + b)[k] == a[k];
  }

  lemma ReplayTorn(st: Recovered, s: string)
    requires '\n' !in s
    ensures Replay(st, s) == Some(st)
  {
  }

  lemma ReplayOneLine(st: Recovered, l: string)
    requires '\n' !in l
    ensures Replay(st, l + "\n") == HandleLine(st, l)
  {
    var line := l + "\n";
    assert line[|l|] == '\n';
    assert forall k :: 0 <= k < |l| ==> line[k] == l[k];
    assert IndexOf(line, '\n') == Some(|l|);
    assert line[..|l|] == l && line[|l| + 1..] == "";
  }

  // A terminated line appended to a terminated log acts on what the log gave.
  lemma ReplayAppend(st: Recovered, log: string, l: string)
    requires Terminated(log) && '\n' !in l && Replay(st, log).Some?
    ensures Replay(st, log + l + "\n") == HandleLine(Replay(st, log).value, l)
    ensures Terminated(log + l + "\n")
  {
    assert log + l + "\n" == log + (l + "\n");
    ReplayConcat(st, log, l + "\n");
    ReplayOneLine(Replay(st, log).value, l);
  }

  // --- Torn logs ---------------------------------------------------------------

  // A log is its terminated lines and the unterminated rest.
  function Head(log: string): (head: string)
    ensures head <= log && Terminated(head)
  {
    if Terminated(log) then log else Head(log[..|log| - 1])
  }

  function Tail(log: string): (tail: string)
    ensures Head(log) + tail == log
  {
    log[|Head(log)|..]
  }

  lemma {:induction false} TailIsOneLine(log: string)
    ensures '\n' !in Tail(log)
    ensures Tail(log) == "" <==> Terminated(log)
  {
    if !Terminated(log) {
      var front, c := log[..|log| - 1], log[|log| - 1];
      TailIsOneLine(front);
      assert Tail(log) == Tail(front) + [c];
    }
  }

  lemma ReplayIsOfHead(st: Recovered, log: string, more: string)
    requires '\n' !in more
    ensures Replay(st, log + more) == Replay(st, Head(log))
  {
    TailIsOneLine(log);
    assert log + more == Head(log) + (Tail(log) + more);
    ReplayConcat(st, Head(log), Tail(log) + more);
  }

  // What follows a torn tail without a newline stays unread.
  lemma ReplayStaysTorn(st: Recovered, log: string, more: string)
    requires '\n' !in more
    ensures Replay(st, log + more) == Replay(st, log)
  {
    ReplayIsOfHead(st, log, more);
    ReplayIsOfHead(st, log, "");
    assert log + "" == log;
  }

  lemma GluedLine(log: string, l: string)
    requires '\n' !in l
    ensures '\n' !in Tail(log) + l && log + l + "\n" == Head(log) + (Tail(log) + l) + "\n"
  {
    TailIsOneLine(log);
    assert log + l == Head(log) + (Tail(log) + l);
  }

  // The next line is read together with the torn tail before it.
  lemma ReplayGlued(st: Recovered, log: string, l: string)
    requires '\n' !in l && Replay(st, log).Some?
    ensures Replay(st, log + l + "\n") == HandleLine(Replay(st, log).value, Tail(log) + l)
    ensures Terminated(log + l + "\n")
  {
    assert Replay(st, Head(log)) == Replay(st, log) by {
      ReplayIsOfHead(st, log, "");
      assert log + "" == log;
    }
    GluedLine(log, l);
    ReplayAppend(st, Head(log), Tail(log) + l);
  }

  // So a line appended to a log that could be read makes it unreadable if and
  // only if the tail and the line together are an alive line without a space.
  lemma AppendPanicsIff(st: Recovered, log: string, l: string)
    requires '\n' !in l && Replay(st, log).Some?
    ensures Replay(st, log + l + "\n").None? <==> Unreadable(Tail(log) + l)
  {
    ReplayGlued(st, log, l);
    HandleLinePanicsIff(Replay(st, log).value, Tail(log) + l);
  }
}
