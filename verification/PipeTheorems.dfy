/** What holds in every run of a pipe: first in first out past the wrap of the counters, and no
wakeup lost, except through the one exit where a killed writer leaves without its wakeup. */
module PipeTheorems {
  import opened Common
  import opened Pipe
  import opened PipeRuns
  import C = PipeCalls

  function Exec(data: string, es: seq<Event>): (r: Option<State>)
    requires |data| == PIPESIZE
    ensures r.Some? ==> Inv(r.value)
    decreases |es|
  {
    if es == [] then
      BootInv(data); Some(Boot(data))
    else
      match Exec(data, es[..|es| - 1])
      case None => None
      case Some(s) =>
        assert Step(s, es[|es| - 1]).Some? ==> Inv(Step(s, es[|es| - 1]).value) by {
          if Step(s, es[|es| - 1]).Some? { StepInv(s, es[|es| - 1]); }
        }
        Step(s, es[|es| - 1])
  }

  /** In every interleaving, killed processes or not, the bytes delivered are a prefix of the bytes
  accepted, at most PIPESIZE are on their way, and a finished read returns the last bytes delivered,
  in one piece and in order. */
  lemma FirstInFirstOut(data: string, es: seq<Event>, p: nat)
    requires |data| == PIPESIZE && Exec(data, es).Some?
    ensures var s := Exec(data, es).value;
      && s.sh.del <= s.sh.acc && |s.sh.acc| <= |s.sh.del| + PIPESIZE
      && s.sh.ring.nread == |s.sh.del| % WORD && s.sh.ring.nwrite == |s.sh.acc| % WORD
      && (At(s.pcs, p).RDone? ==> Ends(s.sh.del, At(s.pcs, p).got))
      && (At(s.pcs, p).WTest? ==>
            var c := At(s.pcs, p); c.from <= c.i <= |c.buf| && Ends(s.sh.acc, c.buf[c.from..c.i]))
  {
    var s := Exec(data, es).value;
    assert p in s.pcs ==> Local(s.sh, p, s.pcs[p]);
  }

  // ---------- calls ----------

  /** The states that a run goes through. */
  function States(data: string, es: seq<Event>): (ss: seq<State>)
    requires |data| == PIPESIZE && Exec(data, es).Some?
    ensures |ss| == |es| + 1
    decreases |es|
  {
    (if es == [] then [] else States(data, es[..|es| - 1])) + [Exec(data, es).value]
  }

  lemma {:induction false} RunTrail(data: string, es: seq<Event>)
    requires |data| == PIPESIZE && Exec(data, es).Some?
    ensures C.Trail(States(data, es), es) && States(data, es)[|es|] == Exec(data, es).value
    decreases |es|
  {
    hide Inv, Step;
    if es == [] {
      BootInv(data);
    } else {
      RunTrail(data, es[..|es| - 1]);
    }
  }

  /** In every run, the bytes that one write call has put in, all its turns together, are the part of
  its buffer that it has counted, in order and each once; when it is done, the whole buffer. */
  lemma WriteCall(data: string, es: seq<Event>, p: nat)
    requires |data| == PIPESIZE && Exec(data, es).Some?
    ensures var s, ss := Exec(data, es).value, States(data, es);
      var c, put := At(s.pcs, p), C.Mine(ss, es, true, p);
      && (InWrite(c) ==>
            C.Called(es, p) == Some(Write(p, c.buf)) && C.Count(c) <= |c.buf| && put == c.buf[..C.Count(c)])
      && (c.WDone? ==> put == c.buf)
      && C.Bytes(C.History(ss, es, true)) == s.sh.acc
  {
    hide C.Mine, C.Trail, C.History, States, Exec;
    RunTrail(data, es);
    C.WriteCall(States(data, es), es, p);
  }

  // ---------- closing ----------

  /** The process is about to close the write end, or the read end. */
  predicate Closing(s: State, p: nat, w: bool) {
    p in s.pcs && s.pcs[p] == CAcquire(w)
  }

  /** An end is open while a descriptor refers to it or its one closer has not had the lock. */
  ghost predicate Closes(s: State, w: bool) {
    && ((if w then s.sh.writeopen else s.sh.readopen) <==>
          (if w then s.sh.wref else s.sh.rref) || exists p :: Closing(s, p, w))
    && (forall p, q | Closing(s, p, w) && Closing(s, q, w) :: p == q)
  }

  /** What a move does to the two ends. */
  predicate EndsAfter(sh: Shared, c: Pc, m: Move) {
    && !m.pc.CAcquire? && m.sh.wref == sh.wref && m.sh.rref == sh.rref
    && m.sh.writeopen == (sh.writeopen && c != CAcquire(true))
    && m.sh.readopen == (sh.readopen && c != CAcquire(false))
  }

  lemma WriteCloses(sh: Shared, p: nat, killed: bool, c: Pc)
    requires Sound(sh) && InWrite(c) && ActWrite(sh, p, killed, c).Some?
    ensures EndsAfter(sh, c, ActWrite(sh, p, killed, c).value)
  {
    hide Sound, Ring.Full, Ring.Put;
  }

  lemma ReadCloses(sh: Shared, p: nat, killed: bool, c: Pc)
    requires Sound(sh) && InRead(c) && ActRead(sh, p, killed, c).Some?
    ensures EndsAfter(sh, c, ActRead(sh, p, killed, c).value)
  {
    hide Sound, Ring.Empty, Ring.Skip, Ring.First;
  }

  lemma ActCloses(sh: Shared, p: nat, killed: bool, c: Pc)
    requires Sound(sh) && Act(sh, p, killed, c).Some?
    ensures EndsAfter(sh, c, Act(sh, p, killed, c).value)
  {
    hide Carries, ActWrite, ActRead;
    if InWrite(c) {
      WriteCloses(sh, p, killed, c);
    } else if InRead(c) {
      ReadCloses(sh, p, killed, c);
    }
  }

  lemma RunCloses(s: State, p: nat, w: bool)
    requires Inv(s) && Closes(s, w) && Step(s, Run(p)).Some?
    ensures Closes(Step(s, Run(p)).value, w)
  {
    var t := Step(s, Run(p)).value;
    RunHolder(s, p);
    ActCloses(s.sh, p, p in s.killed, s.pcs[p]);
    hide Act, Inv, Local, Holder;
    forall q ensures Closing(t, q, w) <==> Closing(s, q, w) && q != p {
    }
    if s.pcs[p] == CAcquire(w) { assert Closing(s, p, w); }
    if q :| Closing(s, q, w) && q != p { assert Closing(t, q, w); }
  }

  lemma StartCloses(s: State, e: Event, w: bool)
    requires Inv(s) && Closes(s, w) && !e.Run? && Step(s, e).Some?
    ensures Closes(Step(s, e).value, w)
  {
    var t := Step(s, e).value;
    assert (if w then s.sh.wref else s.sh.rref) ==> forall q :: !Closing(s, q, w) by {
      forall q | q in s.pcs ensures Local(s.sh, q, s.pcs[q]) { }
    }
    hide Inv;
    forall q ensures Closing(t, q, w) <==> Closing(s, q, w) || e == Close(q, w) {
    }
    if e.Close? && e.w == w { assert Closing(t, e.p, w); }
    if q :| Closing(s, q, w) { assert Closing(t, q, w); }
  }

  /** In every run an end is open exactly while a descriptor refers to it or the close of the last one
  has not yet had the lock. */
  lemma {:induction false} EndsClose(data: string, es: seq<Event>, w: bool)
    requires |data| == PIPESIZE && Exec(data, es).Some?
    ensures Closes(Exec(data, es).value, w)
    decreases |es|
  {
    hide Inv, Step, Closes;
    if es == [] {
      assert Closes(Boot(data), w) by { BootCloses(data, w); }
    } else {
      var s, e := Exec(data, es[..|es| - 1]).value, es[|es| - 1];
      EndsClose(data, es[..|es| - 1], w);
      if e.Run? { RunCloses(s, e.p, w); } else { StartCloses(s, e, w); }
    }
  }

  lemma BootCloses(data: string, w: bool)
    ensures Closes(Boot(data), w)
  {
  }

  // ---------- sleepers ----------

  /** The lock's holder will wake the readers before it lets the lock go. */
  predicate OwesReaders(c: Pc) {
    c.WTest? || c.WWake? || c.WDone? || (c.CWake? && c.w)
  }

  predicate OwesWriters(c: Pc) {
    c.RCopy? || c.RDone? || (c.CWake? && !c.w)
  }

  /** `h` is where the lock's holder stands, Idle when the lock is free. */
  predicate ReadersSafe(sh: Shared, h: Pc) {
    (sh.ring.Empty() && sh.writeopen) || OwesReaders(h)
  }

  predicate WritersSafe(sh: Shared, h: Pc) {
    (sh.ring.Full() && sh.readopen) || OwesWriters(h)
  }

  function Holder(s: State): Pc {
    if s.sh.lock.Some? then At(s.pcs, s.sh.lock.value) else Idle
  }

  predicate ReaderSleeps(s: State) {
    exists q :: q in s.pcs && s.pcs[q].RAsleep?
  }

  predicate WriterSleeps(s: State) {
    exists q :: q in s.pcs && s.pcs[q].WAsleep?
  }

  /** Nobody sleeps on a condition that no longer holds, unless the wakeup is on its way. */
  predicate Awake(s: State) {
    && (ReaderSleeps(s) ==> ReadersSafe(s.sh, Holder(s)))
    && (WriterSleeps(s) ==> WritersSafe(s.sh, Holder(s)))
  }

  /** A killed writer leaves a full pipe without waking the reader that sleeps. */
  predicate Abandons(s: State, e: Event) {
    && e.Run? && e.p in s.killed && ReaderSleeps(s) && s.sh.ring.Full()
    && At(s.pcs, e.p).WTest? && At(s.pcs, e.p).i < |At(s.pcs, e.p).buf|
  }

  function Own(c: Pc): Pc {
    if Holds(c) then c else Idle
  }

  lemma ActReaders(sh: Shared, p: nat, killed: bool, c: Pc)
    requires Sound(sh) && Local(sh, p, c) && Act(sh, p, killed, c).Some?
    requires ReadersSafe(sh, Own(c)) && sh.readopen
    ensures var m := Act(sh, p, killed, c).value;
      || m.wake.NRead? || ReadersSafe(m.sh, Own(m.pc))
      || (killed && sh.ring.Full() && c.WTest? && c.i < |c.buf|)
  {
    hide Carries, Ends;
  }

  lemma ActWriters(sh: Shared, p: nat, killed: bool, c: Pc)
    requires Sound(sh) && Local(sh, p, c) && Act(sh, p, killed, c).Some?
    requires WritersSafe(sh, Own(c)) && sh.writeopen
    ensures var m := Act(sh, p, killed, c).value;
      m.wake.NWrite? || WritersSafe(m.sh, Own(m.pc))
  {
    NeverBoth(sh.ring, sh.acc, sh.del);
    hide Carries, Ends;
  }

  /** Going to sleep is safe: the condition was tested under the same lock. */
  lemma ActSleeps(sh: Shared, p: nat, killed: bool, c: Pc)
    requires Sound(sh) && Local(sh, p, c) && Act(sh, p, killed, c).Some?
    ensures var m := Act(sh, p, killed, c).value;
      && (m.pc.RAsleep? ==> ReadersSafe(m.sh, Idle))
      && (m.pc.WAsleep? ==> WritersSafe(m.sh, Idle))
  {
    hide Carries, Ends;
  }

  lemma RunHolder(s: State, p: nat)
    requires Inv(s) && Step(s, Run(p)).Some?
    ensures p in s.pcs && Local(s.sh, p, s.pcs[p])
    ensures Holder(s) == Own(s.pcs[p])
    ensures Holder(Step(s, Run(p)).value) == Own(Act(s.sh, p, p in s.killed, s.pcs[p]).value.pc)
  {
    assert Local(s.sh, p, s.pcs[p]);
    ActFine(s.sh, p, p in s.killed, s.pcs[p]);
  }

  lemma RunReaders(s: State, p: nat)
    requires Inv(s) && Step(s, Run(p)).Some? && !Abandons(s, Run(p))
    requires ReaderSleeps(s) ==> ReadersSafe(s.sh, Holder(s))
    ensures var t := Step(s, Run(p)).value; ReaderSleeps(t) ==> ReadersSafe(t.sh, Holder(t))
  {
    var t, k := Step(s, Run(p)).value, p in s.killed;
    if ReaderSleeps(t) {
      RunHolder(s, p);
      var q :| q in t.pcs && t.pcs[q].RAsleep?;
      ActSleeps(s.sh, p, k, s.pcs[p]);
      if q != p {
        assert s.pcs[q].RAsleep? && Local(s.sh, q, s.pcs[q]);
        ActReaders(s.sh, p, k, s.pcs[p]);
      }
    }
  }

  lemma RunWriters(s: State, p: nat)
    requires Inv(s) && Step(s, Run(p)).Some?
    requires WriterSleeps(s) ==> WritersSafe(s.sh, Holder(s))
    ensures var t := Step(s, Run(p)).value; WriterSleeps(t) ==> WritersSafe(t.sh, Holder(t))
  {
    var t, k := Step(s, Run(p)).value, p in s.killed;
    if WriterSleeps(t) {
      RunHolder(s, p);
      var q :| q in t.pcs && t.pcs[q].WAsleep?;
      ActSleeps(s.sh, p, k, s.pcs[p]);
      if q != p {
        assert s.pcs[q].WAsleep? && Local(s.sh, q, s.pcs[q]);
        ActWriters(s.sh, p, k, s.pcs[p]);
      }
    }
  }

  lemma AbandonLoses(s: State, e: Event)
    requires Inv(s) && Abandons(s, e) && Step(s, e).Some?
    ensures !Awake(Step(s, e).value)
  {
    var t := Step(s, e).value;
    var q :| q in s.pcs && s.pcs[q].RAsleep?;
    RunHolder(s, e.p);
    assert Local(s.sh, q, s.pcs[q]);
    NeverBoth(s.sh.ring, s.sh.acc, s.sh.del);
    assert q in t.pcs && t.pcs[q].RAsleep?;
  }

  lemma StartAwake(s: State, e: Event)
    requires Inv(s) && Awake(s) && Step(s, e).Some? && !e.Run?
    ensures Awake(Step(s, e).value)
  {
    var t := Step(s, e).value;
    assert Holder(t) == Holder(s) by {
      if s.sh.lock.Some? { assert Local(s.sh, s.sh.lock.value, s.pcs[s.sh.lock.value]); }
    }
    hide Inv;
    assert ReaderSleeps(t) ==> ReaderSleeps(s) by {
      if q :| q in t.pcs && t.pcs[q].RAsleep? { assert q in s.pcs && s.pcs[q].RAsleep?; }
    }
    assert WriterSleeps(t) ==> WriterSleeps(s) by {
      if q :| q in t.pcs && t.pcs[q].WAsleep? { assert q in s.pcs && s.pcs[q].WAsleep?; }
    }
  }

  /** A step loses a wakeup exactly when a killed writer abandons a full pipe to a sleeping reader. */
  lemma StepAwake(s: State, e: Event)
    requires Inv(s) && Awake(s) && Step(s, e).Some?
    ensures Awake(Step(s, e).value) <==> !Abandons(s, e)
  {
    if !e.Run? {
      StartAwake(s, e);
    } else if Abandons(s, e) {
      AbandonLoses(s, e);
    } else {
      RunReaders(s, e.p);
      RunWriters(s, e.p);
    }
  }

  // ---------- whole runs ----------

  predicate NoneAbandoned(data: string, es: seq<Event>)
    requires |data| == PIPESIZE
    decreases |es|
  {
    es == [] ||
    (NoneAbandoned(data, es[..|es| - 1]) &&
     (Exec(data, es[..|es| - 1]).Some? ==> !Abandons(Exec(data, es[..|es| - 1]).value, es[|es| - 1])))
  }

  lemma {:induction false} NoLostWakeup(data: string, es: seq<Event>)
    requires |data| == PIPESIZE && Exec(data, es).Some? && NoneAbandoned(data, es)
    ensures Awake(Exec(data, es).value)
    decreases |es|
  {
    if es == [] {
      assert !ReaderSleeps(Boot(data)) && !WriterSleeps(Boot(data));
    } else {
      NoLostWakeup(data, es[..|es| - 1]);
      StepAwake(Exec(data, es[..|es| - 1]).value, es[|es| - 1]);
    }
  }

  lemma {:induction false} NoKillsNoneAbandoned(data: string, es: seq<Event>)
    requires |data| == PIPESIZE && Exec(data, es).Some?
    requires forall i | 0 <= i < |es| :: !es[i].Kill?
    ensures NoneAbandoned(data, es) && Exec(data, es).value.killed == {}
    decreases |es|
  {
    if es != [] {
      NoKillsNoneAbandoned(data, es[..|es| - 1]);
      assert !es[|es| - 1].Kill?;
    }
  }

  /** In a run without killed processes, when the lock is free a sleeping reader faces an empty pipe
  with its write end open and a sleeping writer a full one with its read end open: they never both
  sleep. */
  lemma NeverBothAsleep(data: string, es: seq<Event>)
    requires |data| == PIPESIZE && Exec(data, es).Some?
    requires forall i | 0 <= i < |es| :: !es[i].Kill?
    ensures var s := Exec(data, es).value;
      s.sh.lock.None? ==>
        && (ReaderSleeps(s) ==> s.sh.acc == s.sh.del && s.sh.writeopen)
        && (WriterSleeps(s) ==> |s.sh.acc| == |s.sh.del| + PIPESIZE && s.sh.readopen)
        && !(ReaderSleeps(s) && WriterSleeps(s))
  {
    var s := Exec(data, es).value;
    NoKillsNoneAbandoned(data, es);
    NoLostWakeup(data, es);
    EmptyIff(s.sh.ring, s.sh.acc, s.sh.del);
    FullIff(s.sh.ring, s.sh.acc, s.sh.del);
  }

  // ---------- wakeups owed are paid ----------

  /** How many turns the holder has left before it wakes the other side, at most. */
  function Turns(c: Pc): nat {
    match c
    case WTest(buf, i, from) => if i <= |buf| then |buf| - i + 2 else 2
    case RCopy(n, got) => if |got| <= n then n - |got| + 2 else 2
    case _ => 1
  }

  /** What `p`, the lock's holder, owed in `s` is paid in `t`, or it is nearer to paying. */
  predicate Nearer(s: State, t: State, p: nat) {
    && (ReaderSleeps(s) && OwesReaders(Holder(s)) && ReaderSleeps(t) ==>
          t.sh.lock == Some(p) && OwesReaders(Holder(t)) && Turns(Holder(t)) < Turns(Holder(s)))
    && (WriterSleeps(s) && OwesWriters(Holder(s)) && WriterSleeps(t) ==>
          t.sh.lock == Some(p) && OwesWriters(Holder(t)) && Turns(Holder(t)) < Turns(Holder(s)))
  }

  /** Whenever the lock's holder owes sleepers a wakeup, it can run, and each of its steps pays or
  brings the payment nearer, unless it is the step on which a killed writer abandons the pipe. */
  lemma OwedIsPaid(data: string, es: seq<Event>, p: nat)
    requires |data| == PIPESIZE && Exec(data, es).Some?
    requires var s := Exec(data, es).value;
      s.sh.lock == Some(p) && !Abandons(s, Run(p)) &&
      ((ReaderSleeps(s) && OwesReaders(Holder(s))) || (WriterSleeps(s) && OwesWriters(Holder(s))))
    ensures var s := Exec(data, es).value;
      Step(s, Run(p)).Some? && Nearer(s, Step(s, Run(p)).value, p)
  {
    var s := Exec(data, es).value;
    hide Exec, Inv, Act, Local, Sound;
    HolderKnows(s, p);
    var k := p in s.killed;
    OwedActs(s.sh, p, k, s.pcs[p]);
    RunHolder(s, p);
    ActFine(s.sh, p, k, s.pcs[p]);
  }

  lemma HolderKnows(s: State, p: nat)
    requires Inv(s) && s.sh.lock == Some(p)
    ensures p in s.pcs && Sound(s.sh) && Local(s.sh, p, s.pcs[p]) && Holds(s.pcs[p])
    ensures ReaderSleeps(s) ==> s.sh.readopen
  {
    if q :| q in s.pcs && s.pcs[q].RAsleep? { assert Local(s.sh, q, s.pcs[q]); }
    hide Act;
  }

  lemma OwedActs(sh: Shared, p: nat, killed: bool, c: Pc)
    requires Sound(sh) && Local(sh, p, c) && Holds(c) && (OwesReaders(c) || OwesWriters(c))
    ensures Act(sh, p, killed, c).Some?
    ensures var m := Act(sh, p, killed, c).value;
      && (OwesReaders(c) && sh.readopen && !(killed && sh.ring.Full() && c.WTest? && c.i < |c.buf|) ==>
            m.wake.NRead? || (OwesReaders(m.pc) && Turns(m.pc) < Turns(c)))
      && (OwesWriters(c) ==> m.wake.NWrite? || (OwesWriters(m.pc) && Turns(m.pc) < Turns(c)))
      && !m.pc.RAsleep? && !m.pc.WAsleep?
  {
    hide Carries, Ends;
  }

  // ---------- a run that loses a wakeup ----------

  lemma ExecNext(data: string, es: seq<Event>, e: Event)
    requires |data| == PIPESIZE && Exec(data, es).Some?
    ensures Exec(data, es + [e]) == Step(Exec(data, es).value, e)
  {
    assert (es + [e])[..|es|] == es;
  }

  /** Reader 2 sleeps, writer 1 holds the lock, is marked killed and has put in `k` bytes. */
  predicate Filling(s: State, buf: string, k: nat) {
    && s.sh.lock == Some(1) && s.pcs == map[2 := RAsleep(1), 1 := WTest(buf, k, 0)] && 1 in s.killed
    && |s.sh.acc| == k && s.sh.del == "" && s.sh.readopen
  }

  lemma SleeperRun(data: string) returns (es: seq<Event>)
    requires |data| == PIPESIZE
    ensures Exec(data, es).Some?
    ensures Exec(data, es).value == Boot(data).(pcs := map[2 := RAsleep(1)])
  {
    es := [];
    assert Exec(data, es) == Some(Boot(data));
    hide Exec, Inv;
    ExecNext(data, es, Read(2, 1));
    es := es + [Read(2, 1)];
    assert Exec(data, es).value == Boot(data).(pcs := map[2 := RAcquire(1)]);
    ExecNext(data, es, Run(2));
    es := es + [Run(2)];
    var b := Boot(data);
    assert Exec(data, es).value == b.(sh := b.sh.(lock := Some(2)), pcs := map[2 := RTest(1)]);
    ExecNext(data, es, Run(2));
    es := es + [Run(2)];
    assert Exec(data, es).value == b.(sh := b.sh.(lock := Some(2)), pcs := map[2 := RSleep(1)]);
    ExecNext(data, es, Run(2));
    es := es + [Run(2)];
  }

  lemma FillingStarts(data: string, buf: string) returns (es: seq<Event>)
    requires |data| == PIPESIZE
    ensures Exec(data, es).Some? && Filling(Exec(data, es).value, buf, 0)
  {
    hide Exec, Inv;
    var b := Boot(data);
    es := SleeperRun(data);
    ExecNext(data, es, Write(1, buf));
    es := es + [Write(1, buf)];
    assert Exec(data, es).value == b.(pcs := map[2 := RAsleep(1), 1 := WAcquire(buf, 0)]);
    ExecNext(data, es, Kill(1));
    es := es + [Kill(1)];
    assert Exec(data, es).value == State(b.sh, map[2 := RAsleep(1), 1 := WAcquire(buf, 0)], {1});
    ExecNext(data, es, Run(1));
    es := es + [Run(1)];
  }

  lemma {:induction false} FillingGoesOn(data: string, buf: string, k: nat) returns (es: seq<Event>)
    requires |data| == PIPESIZE && k <= PIPESIZE < |buf|
    ensures Exec(data, es).Some? && Filling(Exec(data, es).value, buf, k)
    decreases k
  {
    hide Exec;
    if k == 0 {
      es := FillingStarts(data, buf);
    } else {
      es := FillingGoesOn(data, buf, k - 1);
      var s := Exec(data, es).value;
      FullIff(s.sh.ring, s.sh.acc, s.sh.del);
      ExecNext(data, es, Run(1));
      es := es + [Run(1)];
      assert Exec(data, es).value.pcs == map[2 := RAsleep(1), 1 := WTest(buf, k, 0)];
    }
  }

  lemma KilledWriterLeaves(data: string, buf: string) returns (es: seq<Event>)
    requires |data| == PIPESIZE < |buf|
    ensures Exec(data, es).Some?
    ensures var s := Exec(data, es).value;
      && s.sh.lock == Some(1) && s.pcs == map[2 := RAsleep(1), 1 := Release]
      && |s.sh.acc| == PIPESIZE && s.sh.del == ""
  {
    hide Exec;
    es := FillingGoesOn(data, buf, PIPESIZE);
    var s := Exec(data, es).value;
    FullIff(s.sh.ring, s.sh.acc, s.sh.del);
    ExecNext(data, es, Run(1));
    es := es + [Run(1)];
    assert Exec(data, es).value.pcs == map[2 := RAsleep(1), 1 := Release];
  }

  /** A killed writer can fill the pipe and leave the reader asleep with the lock free. */
  lemma KilledWriterLosesWakeup(data: string, buf: string) returns (es: seq<Event>)
    requires |data| == PIPESIZE < |buf|
    ensures Exec(data, es).Some?
    ensures var s := Exec(data, es).value;
      s.sh.lock.None? && ReaderSleeps(s) && |s.sh.acc| == PIPESIZE && s.sh.del == "" && !Awake(s)
  {
    es := KilledWriterLeaves(data, buf);
    ExecNext(data, es, Run(1));
    es := es + [Run(1)];
    var t := Exec(data, es).value;
    assert t.pcs[2].RAsleep?;
    EmptyIff(t.sh.ring, t.sh.acc, t.sh.del);
  }
}
