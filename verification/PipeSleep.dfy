/** What the pipe guarantees with the locks of `sleep` and `wakeup` visible, and that it hangs on the
order in which `sleep` takes one and releases the other. */
module PipeSleep {
  import opened Common
  import opened Pipe
  import opened PipeRuns
  import C = PipeCalls
  import L = PipeLocks
  import T = PipeTheorems

  function Exec(data: string, n: nat, es: seq<Event>): (r: Option<L.System>)
    requires |data| == PIPESIZE
    ensures r.Some? ==> L.LockInv(r.value)
    decreases |es|
  {
    if es == [] then
      L.BootSane(data, n); Some(L.Boot(data, n))
    else
      match Exec(data, n, es[..|es| - 1])
      case None => None
      case Some(s) =>
        assert L.Step(s, es[|es| - 1]).Some? ==> L.LockInv(L.Step(s, es[|es| - 1]).value) by {
          if L.Step(s, es[|es| - 1]).Some? { L.StepRefines(s, es[|es| - 1]); }
        }
        L.Step(s, es[|es| - 1])
  }

  predicate NoKills(es: seq<Event>) {
    forall i | 0 <= i < |es| :: !es[i].Kill?
  }

  /** No killed writer leaves a full pipe while a reader sleeps. */
  predicate NoneAbandoned(data: string, n: nat, es: seq<Event>)
    requires |data| == PIPESIZE
    decreases |es|
  {
    es == [] ||
    (NoneAbandoned(data, n, es[..|es| - 1]) &&
     (Exec(data, n, es[..|es| - 1]).Some? ==>
        !T.Abandons(L.Abs(Exec(data, n, es[..|es| - 1]).value), es[|es| - 1])))
  }

  /** Every run with both locks is a run of the machine in which sleeping and waking are single
  steps. */
  lemma {:induction false} RunRefines(data: string, n: nat, es: seq<Event>) returns (hs: seq<Event>)
    requires |data| == PIPESIZE && Exec(data, n, es).Some?
    ensures T.Exec(data, hs) == Some(L.Abs(Exec(data, n, es).value))
    ensures NoKills(es) ==> NoKills(hs)
    ensures NoneAbandoned(data, n, es) ==> T.NoneAbandoned(data, hs)
    decreases |es|
  {
    if es == [] {
      L.BootSane(data, n);
      hs := [];
    } else {
      var k := |es| - 1;
      var s := Exec(data, n, es[..k]).value;
      hs := RunRefines(data, n, es[..k]);
      L.StepRefines(s, es[k]);
      assert NoKills(es) ==> NoKills(es[..k]) && !es[k].Kill?;
      hide L.Step, L.LockInv, L.Abs, PipeRuns.Step, T.Abandons;
      if L.Abs(Exec(data, n, es).value) != L.Abs(s) {
        T.ExecNext(data, hs, es[k]);
        assert (hs + [es[k]])[..|hs|] == hs;
        hs := hs + [es[k]];
      }
    }
  }

  /** Process `p` is marked as sleeping on `ch`, and no wakeup is on its way to its slot. */
  predicate Sleeps(s: L.System, p: nat, ch: Chan) {
    p < |s.table| && s.table[p] == L.Sleeping(ch) && !L.Pending(s, p)
  }

  lemma SleepsAbs(s: L.System, p: nat, ch: Chan)
    requires L.Sane(s) && Sleeps(s, p, ch) && (ch.NRead? || ch.NWrite?)
    ensures p in s.at && L.ChanOf(L.AbsPc(s, p)) == ch
    ensures ch.NRead? ==> T.ReaderSleeps(L.Abs(s))
    ensures ch.NWrite? ==> T.WriterSleeps(L.Abs(s))
  {
    assert L.PlaceOk(s, p);
    assert L.Abs(s).pcs[p] == L.AbsPc(s, p);
  }

  /** Abandoning is a step of the simpler machine. */
  lemma AbandonShows(s: L.System, e: Event)
    requires L.LockInv(s) && L.Step(s, e).Some? && T.Abandons(L.Abs(s), e)
    ensures L.Abs(L.Step(s, e).value) != L.Abs(s)
  {
    var t := L.Step(s, e).value;
    assert e.p in s.at && L.PlaceOk(s, e.p) && L.AbsPc(s, e.p).WTest?;
    assert s.at[e.p].Plain?;
    hide Inv, L.Sane;
    assert L.AbsPc(t, e.p).Release?;
    assert L.Abs(t).pcs[e.p] == L.AbsPc(t, e.p) && L.Abs(s).pcs[e.p] == L.AbsPc(s, e.p);
  }

  /** Also with both locks a step loses a wakeup exactly when a killed writer abandons a full pipe. */
  lemma StepAwake(s: L.System, e: Event)
    requires L.LockInv(s) && T.Awake(L.Abs(s)) && L.Step(s, e).Some?
    ensures T.Awake(L.Abs(L.Step(s, e).value)) <==> !T.Abandons(L.Abs(s), e)
  {
    L.StepRefines(s, e);
    if T.Abandons(L.Abs(s), e) { AbandonShows(s, e); }
    hide T.Abandons, T.Awake, L.Abs, L.Step, PipeRuns.Step;
    if L.Abs(L.Step(s, e).value) != L.Abs(s) { T.StepAwake(L.Abs(s), e); }
  }

  /** In a run in which no killed writer leaves a full pipe to a sleeping reader, whoever sleeps does
  so on a condition that holds, or the wakeup is under way to its slot, or the holder of the pipe's
  lock will send it. */
  lemma NoLostWakeup(data: string, n: nat, es: seq<Event>, p: nat)
    requires |data| == PIPESIZE && Exec(data, n, es).Some? && NoneAbandoned(data, n, es)
    ensures var s := Exec(data, n, es).value;
            && (Sleeps(s, p, NRead) ==> T.ReadersSafe(s.sh, T.Holder(L.Abs(s))))
            && (Sleeps(s, p, NWrite) ==> T.WritersSafe(s.sh, T.Holder(L.Abs(s))))
  {
    var s := Exec(data, n, es).value;
    var hs := RunRefines(data, n, es);
    T.NoLostWakeup(data, hs);
    if Sleeps(s, p, NRead) { SleepsAbs(s, p, NRead); }
    if Sleeps(s, p, NWrite) { SleepsAbs(s, p, NWrite); }
  }

  /** With both locks free and no process killed, a reader and a writer never both sleep: a sleeping
  reader faces an empty pipe with its write end open, a sleeping writer a full one with its read end
  open. */
  lemma NeverBothAsleep(data: string, n: nat, es: seq<Event>, p: nat, q: nat)
    requires |data| == PIPESIZE && Exec(data, n, es).Some? && NoKills(es)
    requires var s := Exec(data, n, es).value; s.pt.None? && s.sh.lock.None? && p < |s.table| && q < |s.table|
    ensures var s := Exec(data, n, es).value;
            && (s.table[p] == L.Sleeping(NRead) ==> s.sh.acc == s.sh.del && s.sh.writeopen)
            && (s.table[q] == L.Sleeping(NWrite) ==> |s.sh.acc| == |s.sh.del| + PIPESIZE && s.sh.readopen)
            && !(s.table[p] == L.Sleeping(NRead) && s.table[q] == L.Sleeping(NWrite))
  {
    var s := Exec(data, n, es).value;
    var hs := RunRefines(data, n, es);
    T.NeverBothAsleep(data, hs);
    if s.table[p] == L.Sleeping(NRead) { SleepsAbs(s, p, NRead); }
    if s.table[q] == L.Sleeping(NWrite) { SleepsAbs(s, q, NWrite); }
  }

  /** First in first out, with both locks. */
  lemma FirstInFirstOut(data: string, n: nat, es: seq<Event>)
    requires |data| == PIPESIZE && Exec(data, n, es).Some?
    ensures var s := Exec(data, n, es).value;
            && s.sh.del <= s.sh.acc && |s.sh.acc| <= |s.sh.del| + PIPESIZE
            && s.sh.ring.nread == |s.sh.del| % WORD && s.sh.ring.nwrite == |s.sh.acc| % WORD
  {
    var hs := RunRefines(data, n, es);
    T.FirstInFirstOut(data, hs, 0);
  }

  /** So is when the ends are open. */
  lemma EndsClose(data: string, n: nat, es: seq<Event>, w: bool)
    requires |data| == PIPESIZE && Exec(data, n, es).Some?
    ensures T.Closes(L.Abs(Exec(data, n, es).value), w)
  {
    var hs := RunRefines(data, n, es);
    T.EndsClose(data, hs, w);
  }

  /** The states that a run goes through, without the table's lock. */
  function States(data: string, n: nat, es: seq<Event>): (ss: seq<State>)
    requires |data| == PIPESIZE && Exec(data, n, es).Some?
    ensures |ss| == |es| + 1
    decreases |es|
  {
    (if es == [] then [] else States(data, n, es[..|es| - 1])) + [L.Abs(Exec(data, n, es).value)]
  }

  lemma BootTrail(data: string, n: nat)
    requires |data| == PIPESIZE
    ensures C.Trail([L.Abs(L.Boot(data, n))], [])
  {
    L.BootSane(data, n);
  }

  lemma StepFollows(s: L.System, e: Event)
    requires L.LockInv(s) && L.Step(s, e).Some?
    ensures C.Follows(L.Abs(s), e, L.Abs(L.Step(s, e).value))
  {
    hide Inv, L.Sane, L.Step, L.Abs, PipeRuns.Step;
    L.StepRefines(s, e);
  }

  lemma {:induction false} RunTrail(data: string, n: nat, es: seq<Event>)
    requires |data| == PIPESIZE && Exec(data, n, es).Some?
    ensures C.Trail(States(data, n, es), es) && States(data, n, es)[|es|] == L.Abs(Exec(data, n, es).value)
    decreases |es|
  {
    hide L.LockInv, L.Step, L.Abs, C.Trail, C.Follows, L.Boot;
    if es == [] {
      BootTrail(data, n);
      assert States(data, n, es) == [L.Abs(L.Boot(data, n))];
    } else {
      var fs, e := es[..|es| - 1], es[|es| - 1];
      RunTrail(data, n, fs);
      StepFollows(Exec(data, n, fs).value, e);
      C.TrailOn(States(data, n, fs), fs, e, L.Abs(Exec(data, n, es).value));
      assert es == fs + [e];
    }
  }

  /** With both locks too, a write call that is done has put in its whole buffer, in order and each
  byte once, however often it slept; a read call that is done returns what it alone took out, short
  only when the pipe is empty and with nothing only when moreover the write end is closed. */
  lemma WholeCalls(data: string, n: nat, es: seq<Event>, p: nat)
    requires |data| == PIPESIZE && Exec(data, n, es).Some?
    ensures var s, ss := Exec(data, n, es).value, States(data, n, es);
      && (forall buf | L.PlaceOf(s, p) == L.Plain(WDone(buf)) ::
            C.Called(es, p) == Some(Write(p, buf)) && C.Mine(ss, es, true, p) == buf)
      && (forall got | L.PlaceOf(s, p) == L.Plain(RDone(got)) ::
            && C.Mine(ss, es, false, p) == got
            && exists m :: C.Called(es, p) == Some(Read(p, m)) && |got| <= m
                 && (|got| < m ==> s.sh.del == s.sh.acc) && (got == "" && m > 0 ==> !s.sh.writeopen))
      && C.Bytes(C.History(ss, es, true)) == s.sh.acc && C.Bytes(C.History(ss, es, false)) == s.sh.del
  {
    hide C.Mine, C.Trail, C.History, States, Exec;
    RunTrail(data, n, es);
    C.WriteCall(States(data, n, es), es, p);
    C.ReadCall(States(data, n, es), es, p);
  }

  // ---------- the table's lock is given up ----------

  /** Steps the holder of the table's lock has left before it gives it up. */
  function Left(s: L.System, p: nat): nat {
    match L.PlaceOf(s, p)
    case Locked(_) => 3
    case Released(_) => 2
    case Marked(_) => 1
    case Back(_) => 1
    case Scan(_, _, i) => if i <= |s.table| then |s.table| - i + 1 else 1
    case _ => 0
  }

  /** Whoever holds the lock of the table can run, and gives it up within a bounded number of its
  steps. */
  lemma TableIsFreed(data: string, n: nat, es: seq<Event>, p: nat)
    requires |data| == PIPESIZE && Exec(data, n, es).Some? && Exec(data, n, es).value.pt == Some(p)
    ensures var s := Exec(data, n, es).value;
            && p < |s.table| && L.RunStep(s, p).Some?
            && var t := L.RunStep(s, p).value;
               t.pt.None? || (t.pt == Some(p) && Left(t, p) < Left(s, p))
  {
    HolderRuns(Exec(data, n, es).value, p);
  }

  lemma HolderRuns(s: L.System, p: nat)
    requires L.LockInv(s) && s.pt == Some(p)
    ensures p < |s.table| && L.RunStep(s, p).Some?
    ensures var t := L.RunStep(s, p).value;
            t.pt.None? || (t.pt == Some(p) && Left(t, p) < Left(s, p))
  {
    assert L.PlaceOk(s, p);
    assert L.Abs(s).pcs[p] == L.AbsPc(s, p);
    hide Inv, L.Sane, L.Abs, Act;
    if s.at[p].Locked? {
      SleepGoes(s.sh, p, p in s.killed, s.at[p].c);
    }
  }

  /** The holder of the pipe's lock that owes sleepers a wakeup runs and pays, or comes nearer to
  paying, unless this is the step on which a killed writer abandons the pipe, or it waits for the
  lock of the table; then the holder of that lock runs, comes nearer to giving it up, and leaves the
  debt as it is. */
  lemma OwedIsPaid(data: string, n: nat, es: seq<Event>, p: nat)
    requires |data| == PIPESIZE && Exec(data, n, es).Some?
    requires var s := Exec(data, n, es).value;
      s.sh.lock == Some(p) && !T.Abandons(L.Abs(s), Run(p)) && Owes(L.Abs(s))
    ensures var s := Exec(data, n, es).value;
      && p < |s.table|
      && (L.RunStep(s, p).Some? ==> T.Nearer(L.Abs(s), L.Abs(L.RunStep(s, p).value), p))
      && (L.RunStep(s, p).None? ==>
            && s.pt.Some? && s.pt.value != p && s.pt.value < |s.table|
            && L.RunStep(s, s.pt.value).Some?
            && var t := L.RunStep(s, s.pt.value).value;
               && (t.pt.None? || (t.pt == s.pt && Left(t, s.pt.value) < Left(s, s.pt.value)))
               && t.sh == s.sh && L.PlaceOf(t, p) == L.PlaceOf(s, p))
  {
    var s := Exec(data, n, es).value;
    hide Exec;
    var hs := RunRefines(data, n, es);
    T.OwedIsPaid(data, hs, p);
    hide T.Exec;
    OwingIsPlain(s, p);
    var c := s.at[p].c;
    if L.AboutToWake(c) && s.pt.Some? {
      HolderRuns(s, s.pt.value);
      TableApart(s, p, s.pt.value);
    } else {
      OwingRuns(s, p, c);
    }
  }

  predicate Owes(s: State) {
    || (T.ReaderSleeps(s) && T.OwesReaders(T.Holder(s)))
    || (T.WriterSleeps(s) && T.OwesWriters(T.Holder(s)))
  }

  /** Who owes a wakeup stands in the pipe's own code. */
  lemma OwingIsPlain(s: L.System, p: nat)
    requires L.LockInv(s) && s.sh.lock == Some(p) && Owes(L.Abs(s))
    ensures p in s.at && p < |s.table| && s.at[p].Plain? && s.pt != Some(p)
    ensures !L.AboutToSleep(s.at[p].c) && T.Holder(L.Abs(s)) == s.at[p].c
  {
    assert p in L.Abs(s).pcs;
    assert L.PlaceOk(s, p) && L.Abs(s).pcs[p] == L.AbsPc(s, p);
    hide Inv;
  }

  /** Its step is one of the simpler machine. */
  lemma OwingRuns(s: L.System, p: nat, c: Pc)
    requires L.LockInv(s) && p < |s.table| && L.PlaceOf(s, p) == L.Plain(c) && !L.AboutToSleep(c)
    requires L.AboutToWake(c) ==> s.pt.None?
    requires PipeRuns.Step(L.Abs(s), Run(p)).Some?
    ensures L.RunStep(s, p).Some?
    ensures PipeRuns.Step(L.Abs(s), Run(p)) == Some(L.Abs(L.RunStep(s, p).value))
  {
    assert p in L.Abs(s).pcs ==> L.Abs(s).pcs[p] == c;
    var a := Act(s.sh, p, p in s.killed, c);
    assert a.Some?;
    if L.AboutToWake(c) {
      L.WakeStep(s, p, c, a.value);
    } else {
      L.PlainStep(s, p, c, a.value);
    }
    hide L.LockInv, L.Abs, Act;
  }

  /** The holder of the table's lock leaves the holder of the pipe's lock alone. */
  lemma TableApart(s: L.System, p: nat, q: nat)
    requires L.LockInv(s) && s.sh.lock == Some(p) && s.pt == Some(q) && q != p && q < |s.table|
    requires L.RunStep(s, q).Some?
    ensures var t := L.RunStep(s, q).value; t.sh == s.sh && L.PlaceOf(t, p) == L.PlaceOf(s, p)
  {
    assert L.PlaceOk(s, q) && L.Abs(s).pcs[q] == L.AbsPc(s, q);
    assert Local(s.sh, q, L.Abs(s).pcs[q]);
    hide Inv, L.Sane;
  }

  /** A process about to sleep can always let the pipe's lock go. */
  lemma SleepGoes(sh: Shared, p: nat, killed: bool, c: Pc)
    requires |sh.ring.data| == PIPESIZE && L.AboutToSleep(c)
    ensures Act(sh, p, killed, c).Some?
  {
  }

  // ---------- the other order ----------

  /** A `sleep` that releases the pipe's lock first: `dropped` holds those who have done so and have
  not yet taken the table's lock. */
  datatype Careless = Careless(s: L.System, dropped: map<nat, Pc>)

  function CarelessStep(x: Careless, e: Event): Option<Careless>
    requires |x.s.sh.ring.data| == PIPESIZE
  {
    var c := L.PlaceOf(x.s, e.p);
    if e.Run? && e.p in x.dropped then
      match L.TakeTable(x.s, e.p, L.Released(x.dropped[e.p]))
      case None => None
      case Some(s) => Some(Careless(s, x.dropped - {e.p}))
    else if e.Run? && c.Plain? && L.AboutToSleep(c.c) then
      match Act(x.s.sh, e.p, e.p in x.s.killed, c.c)
      case None => None
      case Some(m) => Some(Careless(x.s.(sh := m.sh), x.dropped[e.p := m.pc]))
    else
      match L.Step(x.s, e)
      case None => None
      case Some(s) => Some(x.(s := s))
  }

  function CarelessExec(data: string, n: nat, es: seq<Event>): Option<Careless>
    requires |data| == PIPESIZE
    decreases |es|
  {
    if es == [] then Some(Careless(L.Boot(data, n), map[])) else
    match CarelessExec(data, n, es[..|es| - 1])
    case None => None
    case Some(x) => if |x.s.sh.ring.data| == PIPESIZE then CarelessStep(x, es[|es| - 1]) else None
  }

  /** Reader 0 stands at `r` and writer 1 at `w`. */
  function Two(sh: Shared, r: L.Place, w: L.Place, table: seq<L.Status>, pt: Option<nat>): L.System {
    L.System(sh, map[0 := r, 1 := w], table, pt, {})
  }

  /** A run of the careless machine ends in `x`. */
  predicate Ends(data: string, es: seq<Event>, x: Careless)
    requires |data| == PIPESIZE
  {
    CarelessExec(data, 2, es) == Some(x) && |x.s.sh.ring.data| == PIPESIZE && NoKills(es)
  }

  lemma Go(data: string, es: seq<Event>, x: Careless, e: Event, y: Careless)
    requires |data| == PIPESIZE && Ends(data, es, x) && !e.Kill?
    requires CarelessStep(x, e) == Some(y) && |y.s.sh.ring.data| == PIPESIZE
    ensures Ends(data, es + [e], y)
  {
    assert (es + [e])[..|es|] == es;
  }

  lemma WriterActs(sh: Shared, r: L.Place, c: Pc, table: seq<L.Status>, d: map<nat, Pc>, m: Move)
    requires |sh.ring.data| == PIPESIZE && |table| == 2 && 1 !in d
    requires !L.AboutToSleep(c) && !L.AboutToWake(c) && Act(sh, 1, false, c) == Some(m)
    ensures CarelessStep(Careless(Two(sh, r, L.Plain(c), table, None), d), Run(1))
         == Some(Careless(Two(m.sh, r, L.Plain(m.pc), table, None), d))
  {
    hide Act;
    assert map[0 := r, 1 := L.Plain(c)][1 := L.Plain(m.pc)] == map[0 := r, 1 := L.Plain(m.pc)];
  }

  lemma ReaderActs(sh: Shared, c: Pc, w: L.Place, table: seq<L.Status>, m: Move)
    requires |sh.ring.data| == PIPESIZE && |table| == 2
    requires !L.AboutToSleep(c) && !L.AboutToWake(c) && Act(sh, 0, false, c) == Some(m)
    ensures CarelessStep(Careless(Two(sh, L.Plain(c), w, table, None), map[]), Run(0))
         == Some(Careless(Two(m.sh, L.Plain(m.pc), w, table, None), map[]))
  {
    hide Act;
    assert map[0 := L.Plain(c), 1 := w][0 := L.Plain(m.pc)] == map[0 := L.Plain(m.pc), 1 := w];
  }

  /** Both processes have called. */
  lemma BothCall(data: string) returns (es: seq<Event>)
    requires |data| == PIPESIZE
    ensures var b := L.Boot(data, 2);
      Ends(data, es, Careless(Two(b.sh, L.Plain(RAcquire(1)), L.Plain(WAcquire("x", 0)), b.table, None), map[]))
  {
    var b := L.Boot(data, 2);
    es := [];
    var x := Careless(b, map[]);
    assert Ends(data, es, x);
    hide Ends;
    var y := Careless(b.(at := map[0 := L.Plain(RAcquire(1))]), map[]);
    Go(data, es, x, Read(0, 1), y);
    es := es + [Read(0, 1)];
    var z := Careless(Two(b.sh, L.Plain(RAcquire(1)), L.Plain(WAcquire("x", 0)), b.table, None), map[]);
    assert map[0 := L.Plain(RAcquire(1))][1 := L.Plain(WAcquire("x", 0))] == z.s.at;
    Go(data, es, y, Write(1, "x"), z);
    es := es + [Write(1, "x")];
  }

  /** The reader finds the pipe empty and drops its lock. */
  lemma ReaderDrops(data: string) returns (es: seq<Event>)
    requires |data| == PIPESIZE
    ensures var b := L.Boot(data, 2);
      Ends(data, es, Careless(Two(b.sh, L.Plain(RSleep(1)), L.Plain(WAcquire("x", 0)), b.table, None),
                              map[0 := RAsleep(1)]))
  {
    var b, w := L.Boot(data, 2), L.Plain(WAcquire("x", 0));
    var sh, t := b.sh.(lock := Some(0)), b.table;
    es := BothCall(data);
    hide Ends, L.Boot;
    var x := Careless(Two(b.sh, L.Plain(RAcquire(1)), w, t, None), map[]);
    ReaderActs(b.sh, RAcquire(1), w, t, Move(sh, RTest(1), NoChan));
    var y := Careless(Two(sh, L.Plain(RTest(1)), w, t, None), map[]);
    Go(data, es, x, Run(0), y);
    ReaderActs(sh, RTest(1), w, t, Move(sh, RSleep(1), NoChan));
    var z := Careless(Two(sh, L.Plain(RSleep(1)), w, t, None), map[]);
    Go(data, es + [Run(0)], y, Run(0), z);
    Go(data, es + [Run(0)] + [Run(0)], z, Run(0),
       Careless(Two(b.sh, L.Plain(RSleep(1)), w, t, None), map[0 := RAsleep(1)]));
    es := es + [Run(0)] + [Run(0)] + [Run(0)];
  }

  lemma WriterScans(sh: Shared, r: L.Place, c: Pc, i: nat, table: seq<L.Status>, d: map<nat, Pc>)
    requires |sh.ring.data| == PIPESIZE && |table| == 2 && 1 !in d && i <= 2
    requires forall q | 0 <= q < 2 :: table[q].Runnable?
    ensures CarelessStep(Careless(Two(sh, r, L.Scan(c, NRead, i), table, Some(1)), d), Run(1))
         == Some(Careless(if i < 2 then Two(sh, r, L.Scan(c, NRead, i + 1), table, Some(1))
                          else Two(sh, r, L.Plain(c), table, None), d))
  {
    var x := L.Scan(c, NRead, i);
    assert map[0 := r, 1 := x][1 := L.Scan(c, NRead, i + 1)] == map[0 := r, 1 := L.Scan(c, NRead, i + 1)];
    assert map[0 := r, 1 := x][1 := L.Plain(c)] == map[0 := r, 1 := L.Plain(c)];
  }

  /** The writer puts its byte in and looks for sleepers: there is none yet. */
  lemma WriterFindsNobody(sh: Shared, r: L.Place, table: seq<L.Status>, d: map<nat, Pc>, data: string,
                          es: seq<Event>)
    returns (fs: seq<Event>, sh': Shared)
    requires |data| == PIPESIZE && |table| == 2 && 1 !in d && forall q | 0 <= q < 2 :: table[q].Runnable?
    requires sh.lock == Some(1) && |sh.ring.data| == PIPESIZE
    requires Ends(data, es, Careless(Two(sh, r, L.Plain(WDone("x")), table, None), d))
    ensures sh' == sh.(lock := None)
    ensures Ends(data, fs, Careless(Two(sh', r, L.Plain(Idle), table, None), d))
  {
    hide Ends;
    var x := Careless(Two(sh, r, L.Plain(WDone("x")), table, None), d);
    var y := Careless(Two(sh, r, L.Scan(Release, NRead, 0), table, Some(1)), d);
    assert map[0 := r, 1 := L.Plain(WDone("x"))][1 := L.Scan(Release, NRead, 0)] == y.s.at;
    Go(data, es, x, Run(1), y);
    fs := es + [Run(1)];
    WriterScans(sh, r, Release, 0, table, d);
    Go(data, fs, y, Run(1), Careless(Two(sh, r, L.Scan(Release, NRead, 1), table, Some(1)), d));
    fs := fs + [Run(1)];
    WriterScans(sh, r, Release, 1, table, d);
    Go(data, fs, Careless(Two(sh, r, L.Scan(Release, NRead, 1), table, Some(1)), d), Run(1),
       Careless(Two(sh, r, L.Scan(Release, NRead, 2), table, Some(1)), d));
    fs := fs + [Run(1)];
    WriterScans(sh, r, Release, 2, table, d);
    var z := Careless(Two(sh, r, L.Plain(Release), table, None), d);
    Go(data, fs, Careless(Two(sh, r, L.Scan(Release, NRead, 2), table, Some(1)), d), Run(1), z);
    fs, sh' := fs + [Run(1)], sh.(lock := None);
    WriterActs(sh, r, Release, table, d, Move(sh', Idle, NoChan));
    Go(data, fs, z, Run(1), Careless(Two(sh', r, L.Plain(Idle), table, None), d));
    fs := fs + [Run(1)];
  }

  /** The steps of the writer of one byte into the empty pipe. */
  lemma WriterMoves(sh: Shared)
    requires |sh.ring.data| == PIPESIZE && sh.lock.None? && sh.acc == "" && !sh.ring.Full()
    ensures var sh1 := sh.(lock := Some(1));
      var sh2 := sh1.(ring := sh1.ring.Put('x'), acc := "x");
      && Act(sh, 1, false, WAcquire("x", 0)) == Some(Move(sh1, WTest("x", 0, 0), NoChan))
      && Act(sh1, 1, false, WTest("x", 0, 0)) == Some(Move(sh2, WTest("x", 1, 0), NoChan))
      && Act(sh2, 1, false, WTest("x", 1, 0)) == Some(Move(sh2, WDone("x"), NoChan))
  {
    assert "" + ['x'] == "x";
  }

  lemma WriterPuts(data: string, sh: Shared, r: L.Place, t: seq<L.Status>, d: map<nat, Pc>, es: seq<Event>)
    returns (fs: seq<Event>)
    requires |data| == |sh.ring.data| == PIPESIZE && |t| == 2 && 1 !in d
    requires sh.lock.None? && sh.acc == "" && !sh.ring.Full()
    requires Ends(data, es, Careless(Two(sh, r, L.Plain(WAcquire("x", 0)), t, None), d))
    ensures var sh2 := sh.(lock := Some(1), ring := sh.ring.Put('x'), acc := "x");
      Ends(data, fs, Careless(Two(sh2, r, L.Plain(WDone("x")), t, None), d))
  {
    WriterMoves(sh);
    var sh1 := sh.(lock := Some(1));
    var sh2 := sh1.(ring := sh1.ring.Put('x'), acc := "x");
    assert |sh2.ring.data| == PIPESIZE;
    hide Ends, Act, Ring.Put, Ring.Full;
    WriterActs(sh, r, WAcquire("x", 0), t, d, Move(sh1, WTest("x", 0, 0), NoChan));
    var x := Careless(Two(sh1, r, L.Plain(WTest("x", 0, 0)), t, None), d);
    Go(data, es, Careless(Two(sh, r, L.Plain(WAcquire("x", 0)), t, None), d), Run(1), x);
    WriterActs(sh1, r, WTest("x", 0, 0), t, d, Move(sh2, WTest("x", 1, 0), NoChan));
    var y := Careless(Two(sh2, r, L.Plain(WTest("x", 1, 0)), t, None), d);
    Go(data, es + [Run(1)], x, Run(1), y);
    WriterActs(sh2, r, WTest("x", 1, 0), t, d, Move(sh2, WDone("x"), NoChan));
    Go(data, es + [Run(1)] + [Run(1)], y, Run(1), Careless(Two(sh2, r, L.Plain(WDone("x")), t, None), d));
    fs := es + [Run(1)] + [Run(1)] + [Run(1)];
  }

  lemma WriterWrites(data: string) returns (es: seq<Event>, sh: Shared)
    requires |data| == PIPESIZE
    ensures sh.lock.None? && |sh.ring.data| == PIPESIZE && sh.acc == "x" && sh.del == ""
    ensures Ends(data, es, Careless(Two(sh, L.Plain(RSleep(1)), L.Plain(Idle), L.Boot(data, 2).table, None),
                                    map[0 := RAsleep(1)]))
  {
    var b, r, d := L.Boot(data, 2), L.Plain(RSleep(1)), map[0 := RAsleep(1)];
    es := ReaderDrops(data);
    hide Ends;
    es := WriterPuts(data, b.sh, r, b.table, d, es);
    var sh2 := b.sh.(lock := Some(1), ring := b.sh.ring.Put('x'), acc := "x");
    es, sh := WriterFindsNobody(sh2, r, b.table, d, data, es);
  }

  /** With the other order a wakeup is lost without any kill: the reader sleeps although a byte is
  there, and both locks are free. */
  lemma OtherOrderLoses(data: string) returns (es: seq<Event>, x: Careless)
    requires |data| == PIPESIZE
    ensures Ends(data, es, x)
    ensures x.s.pt.None? && x.s.sh.lock.None? && |x.s.table| == 2 && x.s.table[0] == L.Sleeping(NRead)
    ensures x.s.sh.acc == "x" && x.s.sh.del == ""
  {
    var sh, t, w := L.Boot(data, 2).sh, L.Boot(data, 2).table, L.Plain(Idle);
    es, sh := WriterWrites(data);
    hide Ends, L.Boot;
    var a := Careless(Two(sh, L.Plain(RSleep(1)), w, t, None), map[0 := RAsleep(1)]);
    var b := Careless(Two(sh, L.Released(RAsleep(1)), w, t, Some(0)), map[]);
    assert map[0 := RAsleep(1)] - {0} == map[];
    assert map[0 := L.Plain(RSleep(1)), 1 := w][0 := L.Released(RAsleep(1))] == b.s.at;
    Go(data, es, a, Run(0), b);
    es := es + [Run(0)];
    var t' := t[0 := L.Sleeping(NRead)];
    var c := Careless(Two(sh, L.Marked(RAsleep(1)), w, t', Some(0)), map[]);
    assert map[0 := L.Released(RAsleep(1)), 1 := w][0 := L.Marked(RAsleep(1))] == c.s.at;
    Go(data, es, b, Run(0), c);
    es := es + [Run(0)];
    x := Careless(Two(sh, L.Away(RAsleep(1)), w, t', None), map[]);
    assert map[0 := L.Marked(RAsleep(1)), 1 := w][0 := L.Away(RAsleep(1))] == x.s.at;
    Go(data, es, c, Run(0), x);
    es := es + [Run(0)];
  }
}
