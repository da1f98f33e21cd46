/** What one `write` or `read` call does in all its turns together: the history of who put in and who
took out each byte, in every run. */
module PipeCalls {
  import opened Common
  import opened Pipe
  import opened PipeRuns

  /** All bytes accepted so far, or all delivered. */
  function Flow(sh: Shared, put: bool): string {
    if put then sh.acc else sh.del
  }

  /** What was added at the end. */
  function Added(x: string, y: string): string {
    if x <= y then y[|x|..] else ""
  }

  function Tagged(p: nat, x: string): seq<(nat, char)> {
    seq(|x|, i requires 0 <= i < |x| => (p, x[i]))
  }

  function Bytes(h: seq<(nat, char)>): string {
    seq(|h|, i requires 0 <= i < |h| => h[i].1)
  }

  /** The bytes that are due to `p`, in order. */
  function By(h: seq<(nat, char)>, p: nat): string {
    if h == [] then "" else By(h[..|h| - 1], p) + (if h[|h| - 1].0 == p then [h[|h| - 1].1] else "")
  }

  /** A run goes through the states `ss`; some steps of a run with both locks change nothing here. */
  predicate Follows(s: State, e: Event, t: State) {
    && Inv(s) && Inv(t)
    && ((e.Run? && t == s) || Step(s, e) == Some(t))
  }

  predicate Trail(ss: seq<State>, es: seq<Event>) {
    && |ss| == |es| + 1 && Inv(ss[0]) && ss[0].sh.acc == ss[0].sh.del == "" && ss[0].pcs == map[]
    && forall k | 0 <= k < |es| :: Follows(ss[k], es[k], ss[k + 1])
  }

  /** Who put in (or took out) each byte, in order. */
  function History(ss: seq<State>, es: seq<Event>, put: bool): seq<(nat, char)>
    requires |ss| == |es| + 1
    decreases |es|
  {
    if es == [] then [] else
    var k := |es| - 1;
    History(ss[..|es|], es[..k], put) + Tagged(es[k].p, Added(Flow(ss[k].sh, put), Flow(ss[k + 1].sh, put)))
  }

  predicate IsCall(e: Event, p: nat) {
    (e.Write? || e.Read? || e.Close?) && e.p == p
  }

  /** The call that `p` made last. */
  function Called(es: seq<Event>, p: nat): Option<Event>
    decreases |es|
  {
    if es == [] then None
    else if IsCall(es[|es| - 1], p) then Some(es[|es| - 1])
    else Called(es[..|es| - 1], p)
  }

  /** How long the history was when it did. */
  function Since(ss: seq<State>, es: seq<Event>, put: bool, p: nat): (n: nat)
    requires |ss| == |es| + 1
    ensures n <= |History(ss, es, put)|
    decreases |es|
  {
    if es == [] then 0
    else if IsCall(es[|es| - 1], p) then |History(ss, es, put)|
    else Since(ss[..|es|], es[..|es| - 1], put, p)
  }

  /** The bytes that `p` has put in (or taken out) since it made its last call. */
  function Mine(ss: seq<State>, es: seq<Event>, put: bool, p: nat): string
    requires |ss| == |es| + 1
  {
    By(History(ss, es, put)[Since(ss, es, put, p)..], p)
  }

  // ---------- one step of one call ----------

  /** How many bytes of its buffer a write call has put in. */
  function Count(c: Pc): nat
    requires InWrite(c)
  {
    if c.WDone? then |c.buf| else c.i
  }

  /** A write call for `call.buf` has put in `put`. */
  predicate WriteAt(c: Pc, p: nat, call: Option<Event>, put: string) {
    InWrite(c) ==> call == Some(Write(p, c.buf)) && Count(c) <= |c.buf| && put == c.buf[..Count(c)]
  }

  /** A read call for `n` bytes has taken out `got`: it comes back short only if the pipe is empty, and
  with nothing only if moreover the write end is closed. */
  predicate ReadAt(sh: Shared, c: Pc, n: nat, got: string) {
    match c
    case RCopy(m, g) =>
      m == n && g == got && |got| <= n && (got == "" ==> !sh.ring.Empty() || !sh.writeopen)
    case RDone(g) =>
      g == got && |got| <= n && (|got| < n ==> sh.ring.Empty()) && (got == "" && n > 0 ==> !sh.writeopen)
    case RAcquire(m) => m == n && got == ""
    case RTest(m) => m == n && got == ""
    case RSleep(m) => m == n && got == ""
    case RAsleep(m) => m == n && got == ""
    case _ => true
  }

  predicate ReadsAt(sh: Shared, c: Pc, p: nat, call: Option<Event>, got: string) {
    InRead(c) ==> call.Some? && call.value.Read? && call.value.p == p && ReadAt(sh, c, call.value.n, got)
  }

  predicate CallAt(s: State, p: nat, call: Option<Event>, put: string, got: string) {
    WriteAt(At(s.pcs, p), p, call, put) && ReadsAt(s.sh, At(s.pcs, p), p, call, got)
  }

  lemma ActPuts(sh: Shared, p: nat, killed: bool, c: Pc, call: Option<Event>, put: string)
    requires Sound(sh) && Local(sh, p, c) && Act(sh, p, killed, c).Some? && WriteAt(c, p, call, put)
    ensures var m := Act(sh, p, killed, c).value;
      sh.acc <= m.sh.acc && WriteAt(m.pc, p, call, put + Added(sh.acc, m.sh.acc))
  {
    hide Ends, Ring.Full, Ring.Empty, Ring.Put, Ring.Skip, Ring.First;
    var m := Act(sh, p, killed, c).value;
    if InWrite(c) && m.sh.acc != sh.acc {
      assert Added(sh.acc, m.sh.acc) == [c.buf[c.i]];
      assert c.buf[..c.i + 1] == c.buf[..c.i] + [c.buf[c.i]];
    } else {
      assert put + "" == put;
    }
  }

  lemma ActTakes(sh: Shared, p: nat, killed: bool, c: Pc, call: Option<Event>, got: string)
    requires Sound(sh) && Local(sh, p, c) && Act(sh, p, killed, c).Some? && ReadsAt(sh, c, p, call, got)
    ensures var m := Act(sh, p, killed, c).value;
      sh.del <= m.sh.del && ReadsAt(m.sh, m.pc, p, call, got + Added(sh.del, m.sh.del))
  {
    hide Ends, Ring.Full, Ring.Empty, Ring.Put, Ring.Skip, Ring.First;
    var m := Act(sh, p, killed, c).value;
    if InRead(c) && m.sh.del != sh.del {
      assert Added(sh.del, m.sh.del) == [sh.ring.First()];
    } else {
      assert got + "" == got;
    }
  }

  /** What the others do does not touch a call, or what it relies on while it holds the lock. */
  lemma OtherCall(sh: Shared, sh2: Shared, q: nat, c: Pc, ch: Chan, call: Option<Event>, put: string, got: string)
    requires Local(sh, q, c) && (Holds(c) ==> sh2.ring == sh.ring && sh2.writeopen == sh.writeopen)
    requires WriteAt(c, q, call, put) && ReadsAt(sh, c, q, call, got)
    ensures WriteAt(Woken(c, ch), q, call, put) && ReadsAt(sh2, Woken(c, ch), q, call, got)
  {
    hide Ring.Empty, Ends;
  }

  lemma RunCall(s: State, e: Event, t: State, p: nat, call: Option<Event>, put: string, got: string)
    requires Inv(s) && e.Run? && Step(s, e) == Some(t) && CallAt(s, p, call, put, got)
    ensures s.sh.acc <= t.sh.acc && s.sh.del <= t.sh.del
    ensures if e.p == p then CallAt(t, p, call, put + Added(s.sh.acc, t.sh.acc), got + Added(s.sh.del, t.sh.del))
            else CallAt(t, p, call, put, got)
  {
    var c, k := At(s.pcs, e.p), e.p in s.killed;
    assert Local(s.sh, e.p, c);
    assert p in s.pcs ==> Local(s.sh, p, s.pcs[p]);
    hide Inv, Sound, Local, Act, WriteAt, ReadsAt, Added;
    ActFine(s.sh, e.p, k, c);
    var m := Act(s.sh, e.p, k, c).value;
    if e.p == p {
      ActPuts(s.sh, p, k, c, call, put);
      ActTakes(s.sh, p, k, c, call, got);
    } else {
      RunGrows(s.sh, e.p, k, c);
      if p in s.pcs {
        OthersHold(s, e.p, p);
        OtherCall(s.sh, t.sh, p, s.pcs[p], m.wake, call, put, got);
      } else {
        NoCallAt(t, p, call, put, got);
      }
    }
  }

  lemma RunGrows(sh: Shared, p: nat, killed: bool, c: Pc)
    requires Sound(sh) && Local(sh, p, c) && Act(sh, p, killed, c).Some?
    ensures var m := Act(sh, p, killed, c).value; sh.acc <= m.sh.acc && sh.del <= m.sh.del
  {
    hide Carries, Ends, Ring.Full, Ring.Empty, Ring.Put, Ring.Skip, Ring.First;
  }

  lemma OthersHold(s: State, q: nat, p: nat)
    requires Inv(s) && Act(s.sh, q, q in s.killed, At(s.pcs, q)).Some? && p != q && p in s.pcs
    ensures !Holds(s.pcs[p])
  {
    assert Local(s.sh, p, s.pcs[p]) && Local(s.sh, q, s.pcs[q]);
    ActFine(s.sh, q, q in s.killed, s.pcs[q]);
  }

  lemma NoCallAt(s: State, p: nat, call: Option<Event>, put: string, got: string)
    requires p !in s.pcs
    ensures CallAt(s, p, call, put, got)
  {
  }

  /** A call starts, or a process is marked killed: nothing flows. */
  lemma StartCall(s: State, e: Event, t: State, p: nat, call: Option<Event>, put: string, got: string)
    requires Inv(s) && !e.Run? && Step(s, e) == Some(t) && CallAt(s, p, call, put, got)
    ensures t.sh.acc == s.sh.acc && t.sh.del == s.sh.del
    ensures if IsCall(e, p) then CallAt(t, p, Some(e), "", "") else CallAt(t, p, call, put, got)
  {
    assert p in s.pcs ==> Local(s.sh, p, s.pcs[p]);
    assert t.sh.ring == s.sh.ring && t.sh.writeopen == s.sh.writeopen;
    if IsCall(e, p) {
      hide Ring.Empty, Ends, Inv;
    } else if p in s.pcs {
      hide WriteAt, ReadsAt, Inv, Local;
      OtherCall(s.sh, t.sh, p, s.pcs[p], NoChan, call, put, got);
      if e == Kill(p) {
        OtherCall(s.sh, t.sh, p, s.pcs[p], NRead, call, put, got);
        OtherCall(s.sh, t.sh, p, s.pcs[p], NWrite, call, put, got);
      }
    }
  }

  /** Every step of a run, with what it adds to the histories. */
  lemma StepCall(s: State, e: Event, t: State, p: nat, call: Option<Event>, put: string, got: string)
    requires Follows(s, e, t) && CallAt(s, p, call, put, got)
    ensures s.sh.acc <= t.sh.acc && s.sh.del <= t.sh.del
    ensures if IsCall(e, p) then CallAt(t, p, Some(e), "", "")
            else if e.p == p then
              CallAt(t, p, call, put + Added(s.sh.acc, t.sh.acc), got + Added(s.sh.del, t.sh.del))
            else CallAt(t, p, call, put, got)
  {
    hide Inv, Step, CallAt;
    assert put + Added(s.sh.acc, s.sh.acc) == put && got + Added(s.sh.del, s.sh.del) == got;
    if !e.Run? {
      StartCall(s, e, t, p, call, put, got);
    } else if t != s {
      RunCall(s, e, t, p, call, put, got);
    }
  }

  // ---------- whole runs ----------

  lemma TaggedLast(q: nat, x: string)
    requires x != ""
    ensures Tagged(q, x) == Tagged(q, x[..|x| - 1]) + [(q, x[|x| - 1])]
  {
  }

  lemma ByLast(h: seq<(nat, char)>, a: (nat, char), p: nat)
    ensures By(h + [a], p) == By(h, p) + (if a.0 == p then [a.1] else "")
  {
    assert (h + [a])[..|h|] == h;
  }

  lemma {:induction false} ByTagged(h: seq<(nat, char)>, q: nat, x: string, p: nat)
    ensures By(h + Tagged(q, x), p) == By(h, p) + (if q == p then x else "")
    decreases |x|
  {
    if x == "" {
      assert h + Tagged(q, x) == h;
    } else {
      var y, a := x[..|x| - 1], (q, x[|x| - 1]);
      ByTagged(h, q, y, p);
      TaggedLast(q, x);
      hide Tagged, By;
      ByLast(h + Tagged(q, y), a, p);
      assert h + Tagged(q, x) == h + Tagged(q, y) + [a];
      assert x == y + [a.1];
    }
  }

  lemma BytesTagged(h: seq<(nat, char)>, q: nat, x: string)
    ensures Bytes(h + Tagged(q, x)) == Bytes(h) + x
  {
  }

  /** What a step adds to what is due to `p` since its last call. */
  lemma MineNext(ss: seq<State>, es: seq<Event>, put: bool, p: nat)
    requires |ss| == |es| + 1 && es != []
    ensures var k := |es| - 1;
      var x := Added(Flow(ss[k].sh, put), Flow(ss[k + 1].sh, put));
      Mine(ss, es, put, p) ==
        if IsCall(es[k], p) then ""
        else Mine(ss[..|es|], es[..k], put, p) + (if es[k].p == p then x else "")
  {
    var k := |es| - 1;
    var x := Added(Flow(ss[k].sh, put), Flow(ss[k + 1].sh, put));
    var h, n := History(ss[..|es|], es[..k], put), Since(ss, es, put, p);
    if !IsCall(es[k], p) {
      assert (h + Tagged(es[k].p, x))[n..] == h[n..] + Tagged(es[k].p, x);
      ByTagged(h[n..], es[k].p, x, p);
    }
  }

  lemma TrailBack(ss: seq<State>, es: seq<Event>)
    requires |ss| == |es| + 1 && Trail(ss, es) && es != []
    ensures Trail(ss[..|es|], es[..|es| - 1]) && Follows(ss[|es| - 1], es[|es| - 1], ss[|es|])
  {
    hide Follows;
    assert Follows(ss[|es| - 1], es[|es| - 1], ss[|es| - 1 + 1]);
  }

  lemma TrailOn(ss: seq<State>, es: seq<Event>, e: Event, t: State)
    requires |ss| == |es| + 1 && Trail(ss, es) && Follows(ss[|es|], e, t)
    ensures Trail(ss + [t], es + [e])
  {
    hide Follows, Inv;
  }

  lemma CallsStart(s: State, p: nat)
    requires Trail([s], [])
    ensures CallAt(s, p, None, "", "") && Mine([s], [], true, p) == Mine([s], [], false, p) == ""
  {
  }

  /** In every run, a write call has put in exactly the first bytes of its buffer that it counts, all
  its turns together, in order and each once; a read call has taken out exactly what it copied. */
  lemma {:induction false} CallsInRun(ss: seq<State>, es: seq<Event>, p: nat)
    requires |ss| == |es| + 1 && Trail(ss, es)
    ensures CallAt(ss[|es|], p, Called(es, p), Mine(ss, es, true, p), Mine(ss, es, false, p))
    decreases |es|
  {
    hide Trail, Follows, CallAt, Mine, Added;
    if es == [] {
      assert ss == [ss[0]];
      CallsStart(ss[0], p);
    } else {
      var k := |es| - 1;
      TrailBack(ss, es);
      CallsInRun(ss[..|es|], es[..k], p);
      assert ss[..|es|][k] == ss[k];
      StepCall(ss[k], es[k], ss[k + 1], p, Called(es[..k], p),
               Mine(ss[..|es|], es[..k], true, p), Mine(ss[..|es|], es[..k], false, p));
      MineNext(ss, es, true, p);
      MineNext(ss, es, false, p);
      NothingAdded(Mine(ss[..|es|], es[..k], true, p), Mine(ss[..|es|], es[..k], false, p));
    }
  }

  lemma NothingAdded(x: string, y: string)
    ensures x + "" == x && y + "" == y
  {
  }

  /** What has flowed only grows. */
  lemma StepGrows(s: State, e: Event, t: State, put: bool)
    requires Follows(s, e, t)
    ensures Flow(s.sh, put) + Added(Flow(s.sh, put), Flow(t.sh, put)) == Flow(t.sh, put)
  {
    hide Inv, Step;
    if t != s && e.Run? {
      ActGrows(s, e.p);
    } else if t != s {
      StartGrows(s, e);
    }
  }

  lemma ActGrows(s: State, p: nat)
    requires Inv(s) && Step(s, Run(p)).Some?
    ensures var t := Step(s, Run(p)).value; s.sh.acc <= t.sh.acc && s.sh.del <= t.sh.del
  {
    assert Local(s.sh, p, s.pcs[p]);
    RunGrows(s.sh, p, p in s.killed, s.pcs[p]);
  }

  lemma StartGrows(s: State, e: Event)
    requires Inv(s) && !e.Run? && Step(s, e).Some?
    ensures var t := Step(s, e).value; s.sh.acc == t.sh.acc && s.sh.del == t.sh.del
  {
    hide Sound;
  }

  lemma HistoryNext(ss: seq<State>, es: seq<Event>, put: bool)
    requires |ss| == |es| + 1 && es != []
    ensures var k := |es| - 1;
      Bytes(History(ss, es, put)) == Bytes(History(ss[..|es|], es[..k], put))
        + Added(Flow(ss[k].sh, put), Flow(ss[k + 1].sh, put))
  {
    hide Bytes, Tagged, Added, Flow;
    var k := |es| - 1;
    BytesTagged(History(ss[..|es|], es[..k], put), es[k].p, Added(Flow(ss[k].sh, put), Flow(ss[k + 1].sh, put)));
  }

  /** The histories hold all the bytes accepted, and all the bytes delivered, in order. */
  lemma {:induction false} HistoryIsAll(ss: seq<State>, es: seq<Event>, put: bool)
    requires |ss| == |es| + 1 && Trail(ss, es)
    ensures Bytes(History(ss, es, put)) == Flow(ss[|es|].sh, put)
    decreases |es|
  {
    if es != [] {
      hide Trail, Follows, Added, Bytes, Flow;
      var k := |es| - 1;
      TrailBack(ss, es);
      HistoryIsAll(ss[..|es|], es[..k], put);
      HistoryNext(ss, es, put);
      StepGrows(ss[k], es[k], ss[k + 1], put);
    }
  }

  // ---------- what a caller gets ----------

  /** A write call that is done has put in its whole buffer; one under way, the part it has counted.
  All bytes accepted are in the history. */
  lemma WriteCall(ss: seq<State>, es: seq<Event>, p: nat)
    requires |ss| == |es| + 1 && Trail(ss, es)
    ensures var c, put := At(ss[|es|].pcs, p), Mine(ss, es, true, p);
      && (InWrite(c) ==> Called(es, p) == Some(Write(p, c.buf)) && Count(c) <= |c.buf| && put == c.buf[..Count(c)])
      && (c.WDone? ==> put == c.buf)
    ensures Bytes(History(ss, es, true)) == ss[|es|].sh.acc
  {
    hide Mine, Trail, History;
    CallsInRun(ss, es, p);
    HistoryIsAll(ss, es, true);
  }

  /** A read call that is done returns what it alone took out: as many bytes as asked for, or all
  there were, and none only at the end of the file. */
  lemma ReadCall(ss: seq<State>, es: seq<Event>, p: nat)
    requires |ss| == |es| + 1 && Trail(ss, es)
    ensures var sh, c := ss[|es|].sh, At(ss[|es|].pcs, p);
      c.RDone? ==>
        && c.got == Mine(ss, es, false, p)
        && Called(es, p).Some? && Called(es, p).value.Read? && Called(es, p).value.p == p
        && var n := Called(es, p).value.n;
        && |c.got| <= n && (|c.got| < n ==> sh.del == sh.acc) && (c.got == "" && n > 0 ==> !sh.writeopen)
    ensures Bytes(History(ss, es, false)) == ss[|es|].sh.del
  {
    hide Mine, Trail, History;
    CallsInRun(ss, es, p);
    HistoryIsAll(ss, es, false);
    TrailEnds(ss, es);
    EmptyIff(ss[|es|].sh.ring, ss[|es|].sh.acc, ss[|es|].sh.del);
  }

  lemma TrailEnds(ss: seq<State>, es: seq<Event>)
    requires |ss| == |es| + 1 && Trail(ss, es)
    ensures Inv(ss[|es|])
  {
    hide Inv, Step;
    if es != [] { TrailBack(ss, es); }
  }
}
