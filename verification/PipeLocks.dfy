/** The pipe's machine with the lock of the process table made visible. `sleep` takes that lock before
it lets the pipe's lock go, marks the process under it and gives it up only by switching away;
`wakeup` looks at the slots of the table one by one under it. The machine of `PipeRuns`, where going
to sleep and waking are single steps, is what this one amounts to. */
module PipeLocks {
  import opened Common
  import opened Pipe
  import opened PipeRuns

  /** Where a process stands: somewhere in the pipe's own code, in `sleep` before the pipe's lock is
  released, after that, after it is marked, switched away, and running again; or in `wakeup`, with
  the slots below `i` looked at and `c` to go on from. */
  datatype Place =
    | Plain(c: Pc)
    | Locked(c: Pc)
    | Released(c: Pc)
    | Marked(c: Pc)
    | Away(c: Pc)
    | Back(c: Pc)
    | Scan(c: Pc, ch: Chan, i: nat)

  datatype Status = Sleeping(chan: Chan) | Runnable

  /** `table` is the process table, `pt` the holder of its lock. */
  datatype System = System(sh: Shared, at: map<nat, Place>, table: seq<Status>, pt: Option<nat>, killed: set<nat>)

  /** The process holds the lock of the table. */
  predicate HoldsTable(x: Place) {
    x.Locked? || x.Released? || x.Marked? || x.Back? || x.Scan?
  }

  predicate AboutToSleep(c: Pc) { c.WSleep? || c.RSleep? }

  predicate AboutToWake(c: Pc) { c.WWake? || c.WDone? || c.RDone? || c.CWake? }

  function ChanOf(c: Pc): Chan {
    if c.RAsleep? then NRead else if c.WAsleep? then NWrite else NoChan
  }

  /** Where a woken process goes on: it will take the pipe's lock again. */
  function Awoken(c: Pc): Pc {
    Woken(Woken(c, NRead), NWrite)
  }

  function PlaceOf(s: System, p: nat): Place {
    if p in s.at then s.at[p] else Plain(Idle)
  }

  function Boot(data: string, n: nat): System {
    System(PipeRuns.Boot(data).sh, map[], seq(n, _ => Runnable), None, {})
  }

  // ---------- steps ----------

  function TakeTable(s: System, p: nat, x: Place): Option<System> {
    if s.pt.None? then Some(s.(at := s.at[p := x], pt := Some(p))) else None
  }

  function RunPlain(s: System, p: nat, c: Pc): Option<System>
    requires |s.sh.ring.data| == PIPESIZE
  {
    if AboutToSleep(c) then TakeTable(s, p, Locked(c))
    else
      match Act(s.sh, p, p in s.killed, c)
      case None => None
      case Some(m) =>
        if AboutToWake(c) then TakeTable(s, p, Scan(m.pc, m.wake, 0))
        else Some(s.(sh := m.sh, at := s.at[p := Plain(m.pc)]))
  }

  /** `wakeup1` looks at slot `i`, or has looked at all and gives the lock up. */
  function Scanned(s: System, p: nat, c: Pc, ch: Chan, i: nat): System {
    if i < |s.table| then
      s.(table := if s.table[i] == Sleeping(ch) then s.table[i := Runnable] else s.table,
         at := s.at[p := Scan(c, ch, i + 1)])
    else s.(pt := None, at := s.at[p := Plain(c)])
  }

  function Killed(s: System, p: nat): System
    requires p < |s.table|
  {
    s.(table := s.table[p := Runnable], killed := s.killed + {p}, at := s.at[p := PlaceOf(s, p)])
  }

  /** One step of process `p`. */
  function RunStep(s: System, p: nat): Option<System>
    requires |s.sh.ring.data| == PIPESIZE && p < |s.table|
  {
    match PlaceOf(s, p)
    case Plain(c) => RunPlain(s, p, c)
    case Locked(c) =>
      (match Act(s.sh, p, p in s.killed, c)
       case None => None
       case Some(m) => Some(s.(sh := m.sh, at := s.at[p := Released(m.pc)])))
    case Released(c) => Some(s.(table := s.table[p := Sleeping(ChanOf(c))], at := s.at[p := Marked(c)]))
    case Marked(c) => Some(s.(pt := None, at := s.at[p := Away(c)]))
    case Away(c) => if s.table[p].Runnable? then TakeTable(s, p, Back(c)) else None
    case Back(c) => Some(s.(pt := None, at := s.at[p := Plain(Awoken(c))]))
    case Scan(c, ch, i) => Some(Scanned(s, p, c, ch, i))
  }

  /** `kill` marks the process and makes a sleeper runnable, with the lock of the table held. */
  function Step(s: System, e: Event): Option<System>
    requires |s.sh.ring.data| == PIPESIZE
  {
    if e.p >= |s.table| then None else
    match e
    case Run(p) => RunStep(s, p)
    case Kill(p) =>
      if s.pt.Some? then None else Some(Killed(s, p))
    case _ =>
      match Start(Abs(s), e)
      case None => None
      case Some(m) =>
        if PlaceOf(s, e.p).Plain? then Some(s.(sh := m.sh, at := s.at[e.p := Plain(m.pc)])) else None
  }

  // ---------- what it amounts to ----------

  /** A wakeup on the channel of sleeper `p` is under way and has not come to its slot. */
  predicate Pending(s: System, p: nat) {
    && s.pt.Some? && s.pt.value in s.at && s.at[s.pt.value].Scan?
    && s.at[s.pt.value].i <= p < |s.table| && s.table[p] == Sleeping(s.at[s.pt.value].ch)
  }

  /** Where the process stands in the machine of `PipeRuns`. Being released there is falling asleep,
  and a wakeup happens all at once when it gets the table's lock. */
  function AbsPc(s: System, p: nat): Pc
    requires p in s.at
  {
    match s.at[p]
    case Plain(c) => c
    case Locked(c) => c
    case Released(c) => c
    case Marked(c) => c
    case Away(c) =>
      if p < |s.table| && s.table[p].Sleeping? && !Pending(s, p) then c else Awoken(c)
    case Back(c) => Awoken(c)
    case Scan(c, _, _) => c
  }

  function Abs(s: System): State {
    State(s.sh, map p | p in s.at :: AbsPc(s, p), s.killed)
  }

  /** The lock of the table is held by one process at most, and the table says who sleeps on what. */
  predicate PlaceOk(s: System, p: nat)
    requires p in s.at
  {
    var x := s.at[p];
    && p < |s.table| && (HoldsTable(x) <==> s.pt == Some(p))
    && (x.Locked? ==> AboutToSleep(x.c))
    && (x.Released? || x.Marked? || x.Away? || x.Back? ==> x.c.RAsleep? || x.c.WAsleep?)
    && (x.Plain? ==> !x.c.RAsleep? && !x.c.WAsleep?)
    && (x.Scan? ==> x.c.WSleep? || x.c.Release?)
    && (x.Marked? ==> s.table[p] == Sleeping(ChanOf(x.c)))
    && (x.Away? ==> s.table[p].Runnable? || s.table[p] == Sleeping(ChanOf(x.c)))
    && (!x.Marked? && !x.Away? ==> s.table[p].Runnable?)
  }

  predicate Sane(s: System) {
    && (s.pt.Some? ==> s.pt.value in s.at && HoldsTable(s.at[s.pt.value]))
    && (forall p | p in s.at :: PlaceOk(s, p))
    && (forall p: nat | p < |s.table| && p !in s.at :: s.table[p].Runnable?)
  }

  predicate LockInv(s: System) {
    Sane(s) && Inv(Abs(s))
  }

  lemma BootSane(data: string, n: nat)
    requires |data| == PIPESIZE
    ensures LockInv(Boot(data, n)) && Abs(Boot(data, n)) == PipeRuns.Boot(data)
  {
    BootInv(data);
    assert Abs(Boot(data, n)).pcs == map[];
  }

  // ---------- every step ----------

  /** `p` moved to `x`; nobody else moved, and no sleeper's slot changed its meaning. */
  predicate OnlyMoves(s: System, t: System, p: nat, x: Place) {
    && t.at == s.at[p := x]
    && (forall q | q in s.at && q != p :: AbsPc(t, q) == AbsPc(s, q))
  }

  lemma MovedAbs(s: System, t: System, p: nat, x: Place, c: Pc)
    requires OnlyMoves(s, t, p, x) && AbsPc(t, p) == c
    ensures Abs(t).pcs == Abs(s).pcs[p := c]
  {
    assert t.at.Keys == s.at.Keys + {p};
    hide AbsPc;
  }

  lemma NobodyWoken(pcs: map<nat, Pc>)
    ensures Wakeup(pcs, NoChan) == pcs
  {
  }

  /** The table's lock is given to or taken from `p`, and slots of others stay. */
  predicate Handed(s: System, t: System, p: nat, x: Place) {
    && t.at == s.at[p := x] && t.killed == s.killed && |t.table| == |s.table|
    && (s.pt.None? || s.pt == Some(p)) && t.pt == (if HoldsTable(x) then Some(p) else None)
    && (forall q: nat | q < |s.table| && q != p :: t.table[q] == s.table[q])
  }

  lemma HandedSane(s: System, t: System, p: nat, x: Place)
    requires Sane(s) && Handed(s, t, p, x) && PlaceOk(t, p) && p < |s.table|
    ensures Sane(t)
  {
    forall q | q in t.at ensures PlaceOk(t, q) {
      if q != p { assert PlaceOk(s, q); }
    }
  }

  /** Without a scan before or after, others stand where they stood. */
  lemma HandedMoves(s: System, t: System, p: nat, x: Place)
    requires Sane(s) && Handed(s, t, p, x) && !x.Scan? && (p in s.at ==> !s.at[p].Scan?)
    ensures OnlyMoves(s, t, p, x)
  {
    forall q | q in s.at && q != p ensures AbsPc(t, q) == AbsPc(s, q) {
      assert PlaceOk(s, q);
      assert !Pending(s, q) && !Pending(t, q);
    }
  }

  /** Moving on inside the pipe's code concerns nobody else. */
  lemma PlainMove(s: System, t: System, p: nat, c: Pc)
    requires Sane(s) && p < |s.table| && PlaceOf(s, p).Plain? && !c.RAsleep? && !c.WAsleep?
    requires t == s.(sh := t.sh, at := s.at[p := Plain(c)])
    ensures Sane(t) && Abs(t).pcs == Abs(s).pcs[p := c]
  {
    if p in s.at { assert PlaceOk(s, p); }
    assert s.pt.Some? ==> s.pt.value != p;
    forall q | q in s.at && q != p ensures AbsPc(t, q) == AbsPc(s, q) && PlaceOk(t, q) {
      assert PlaceOk(s, q);
      assert Pending(t, q) == Pending(s, q);
    }
    MovedAbs(s, t, p, Plain(c), c);
  }

  /** A step inside the pipe's code is the same step of the simpler machine. */
  lemma PlainStep(s: System, p: nat, c: Pc, m: Move)
    requires LockInv(s) && p < |s.table| && PlaceOf(s, p) == Plain(c) && !AboutToSleep(c) && !AboutToWake(c)
    requires Act(s.sh, p, p in s.killed, c) == Some(m)
    ensures var t := s.(sh := m.sh, at := s.at[p := Plain(m.pc)]);
            Sane(t) && PipeRuns.Step(Abs(s), Run(p)) == Some(Abs(t))
  {
    var t := s.(sh := m.sh, at := s.at[p := Plain(m.pc)]);
    assert m.wake.NoChan? && !m.pc.RAsleep? && !m.pc.WAsleep?;
    assert At(Abs(s).pcs, p) == c;
    hide Act, Inv, Sane, AbsPc;
    PlainMove(s, t, p, m.pc);
    NobodyWoken(Abs(s).pcs);
  }

  /** Releasing the pipe's lock inside `sleep` is the step on which the simpler machine sleeps. */
  lemma ReleaseStep(s: System, p: nat, c: Pc, m: Move)
    requires LockInv(s) && PlaceOf(s, p) == Locked(c) && Act(s.sh, p, p in s.killed, c) == Some(m)
    ensures var t := s.(sh := m.sh, at := s.at[p := Released(m.pc)]);
            Sane(t) && PipeRuns.Step(Abs(s), Run(p)) == Some(Abs(t))
  {
    var t := s.(sh := m.sh, at := s.at[p := Released(m.pc)]);
    assert PlaceOk(s, p);
    assert m.wake.NoChan? && (m.pc.RAsleep? || m.pc.WAsleep?);
    hide Act, Inv;
    HandedSane(s, t, p, Released(m.pc));
    HandedMoves(s, t, p, Released(m.pc));
    MovedAbs(s, t, p, Released(m.pc), m.pc);
    NobodyWoken(Abs(s).pcs);
  }

  lemma WakeOther(s: System, t: System, p: nat, q: nat, ch: Chan)
    requires q in s.at && q != p && PlaceOk(s, q) && s.pt.None? && t.pt == Some(p)
    requires p in t.at && t.at[p].Scan? && t.at[p].ch == ch && t.at[p].i == 0
    requires q in t.at && t.at[q] == s.at[q] && t.table == s.table
    ensures AbsPc(t, q) == Woken(AbsPc(s, q), ch)
  {
  }

  lemma WakeAbs(s: System, p: nat, c: Pc, ch: Chan)
    requires Sane(s) && p in s.at && s.pt.None?
    ensures var t := s.(at := s.at[p := Scan(c, ch, 0)], pt := Some(p));
            Abs(t).pcs == Wakeup(Abs(s).pcs, ch)[p := c]
  {
    var t := s.(at := s.at[p := Scan(c, ch, 0)], pt := Some(p));
    forall q | q in s.at && q != p ensures AbsPc(t, q) == Woken(AbsPc(s, q), ch) {
      WakeOther(s, t, p, q, ch);
    }
    assert AbsPc(t, p) == c && t.at.Keys == s.at.Keys;
    hide Sane, Woken, AbsPc;
    WokenPcs(s, t, p, c, ch);
  }

  lemma WokenPcs(s: System, t: System, p: nat, c: Pc, ch: Chan)
    requires t.at.Keys == s.at.Keys && p in s.at && AbsPc(t, p) == c
    requires forall q | q in s.at && q != p :: AbsPc(t, q) == Woken(AbsPc(s, q), ch)
    ensures Abs(t).pcs == Wakeup(Abs(s).pcs, ch)[p := c]
  {
    hide AbsPc, Woken;
  }

  /** Taking the table's lock for a wakeup is the step on which the simpler machine wakes everyone. */
  lemma WakeStep(s: System, p: nat, c: Pc, m: Move)
    requires LockInv(s) && p < |s.table| && PlaceOf(s, p) == Plain(c) && AboutToWake(c) && s.pt.None?
    requires Act(s.sh, p, p in s.killed, c) == Some(m)
    ensures var t := s.(at := s.at[p := Scan(m.pc, m.wake, 0)], pt := Some(p));
            Sane(t) && PipeRuns.Step(Abs(s), Run(p)) == Some(Abs(t))
  {
    var x := Scan(m.pc, m.wake, 0);
    var t := s.(at := s.at[p := x], pt := Some(p));
    assert p in s.at && PlaceOk(s, p);
    assert m.sh == s.sh && (m.pc.WSleep? || m.pc.Release?);
    assert At(Abs(s).pcs, p) == c;
    HandedSane(s, t, p, x);
    hide Act, Inv, Sane, AbsPc, Woken;
    WakeAbs(s, p, m.pc, m.wake);
  }

  /** The other steps of `sleep` and `wakeup` are not seen in the simpler machine. */
  lemma QuietStep(s: System, p: nat)
    requires LockInv(s) && p in s.at && p < |s.table| && RunStep(s, p).Some?
    requires s.at[p].Released? || s.at[p].Marked? || s.at[p].Away? || s.at[p].Back?
    ensures Sane(RunStep(s, p).value) && Abs(RunStep(s, p).value) == Abs(s)
  {
    var t := RunStep(s, p).value;
    assert PlaceOk(s, p);
    hide Inv;
    assert Handed(s, t, p, t.at[p]);
    HandedSane(s, t, p, t.at[p]);
    HandedMoves(s, t, p, t.at[p]);
    MovedAbs(s, t, p, t.at[p], AbsPc(s, p));
    assert Abs(s).pcs[p := AbsPc(s, p)] == Abs(s).pcs;
  }

  lemma ScanOther(s: System, p: nat, c: Pc, ch: Chan, i: nat, q: nat)
    requires p in s.at && s.at[p] == Scan(c, ch, i) && PlaceOk(s, p) && q in s.at && PlaceOk(s, q)
    ensures var t := Scanned(s, p, c, ch, i); PlaceOk(t, q) && AbsPc(t, q) == AbsPc(s, q)
  {
  }

  lemma SameAbs(s: System, t: System)
    requires t.at.Keys == s.at.Keys && t.sh == s.sh && t.killed == s.killed
    requires forall q | q in s.at :: AbsPc(t, q) == AbsPc(s, q)
    ensures Abs(t) == Abs(s)
  {
    hide AbsPc;
    assert Abs(t).pcs == Abs(s).pcs;
  }

  lemma ScanStep(s: System, p: nat, c: Pc, ch: Chan, i: nat)
    requires Sane(s) && p in s.at && s.at[p] == Scan(c, ch, i)
    ensures var t := Scanned(s, p, c, ch, i); Sane(t) && Abs(t) == Abs(s)
  {
    var t := Scanned(s, p, c, ch, i);
    assert PlaceOk(s, p);
    forall q | q in s.at ensures PlaceOk(t, q) && AbsPc(t, q) == AbsPc(s, q) {
      ScanOther(s, p, c, ch, i, q);
    }
    assert t.at.Keys == s.at.Keys;
    hide PlaceOk, AbsPc;
    SameAbs(s, t);
  }

  lemma SleepLock(s: System, p: nat, c: Pc)
    requires LockInv(s) && p < |s.table| && PlaceOf(s, p) == Plain(c) && AboutToSleep(c) && s.pt.None?
    ensures var t := s.(at := s.at[p := Locked(c)], pt := Some(p));
            Sane(t) && Abs(t) == Abs(s)
  {
    var t := s.(at := s.at[p := Locked(c)], pt := Some(p));
    assert p in s.at && PlaceOk(s, p);
    hide Inv;
    HandedSane(s, t, p, Locked(c));
    HandedMoves(s, t, p, Locked(c));
    MovedAbs(s, t, p, Locked(c), c);
    assert Abs(s).pcs[p := c] == Abs(s).pcs;
  }

  lemma KillOther(s: System, p: nat, q: nat)
    requires p < |s.table| && s.pt.None? && q in s.at && PlaceOk(s, q)
    ensures var t := Killed(s, p);
            PlaceOk(t, q) && AbsPc(t, q) == if q == p then Awoken(AbsPc(s, q)) else AbsPc(s, q)
  {
  }

  lemma KillSane(s: System, p: nat)
    requires Sane(s) && p < |s.table| && s.pt.None?
    ensures Sane(Killed(s, p))
  {
    var t := Killed(s, p);
    forall q | q in t.at ensures PlaceOk(t, q) {
      if q in s.at { KillOther(s, p, q); }
    }
  }

  lemma KillAbs(s: System, p: nat)
    requires Sane(s) && p < |s.table| && s.pt.None?
    ensures Abs(Killed(s, p)).pcs == Abs(s).pcs[p := Awoken(At(Abs(s).pcs, p))]
  {
    var t := Killed(s, p);
    forall q | q in s.at ensures AbsPc(t, q) == if q == p then Awoken(AbsPc(s, q)) else AbsPc(s, q) {
      KillOther(s, p, q);
    }
    assert AbsPc(t, p) == Awoken(At(Abs(s).pcs, p));
    hide PlaceOk, AbsPc, Woken, Sane;
    MovedAbs(s, t, p, PlaceOf(s, p), Awoken(At(Abs(s).pcs, p)));
  }

  lemma KillStep(s: System, p: nat)
    requires LockInv(s) && p < |s.table| && s.pt.None?
    ensures Sane(Killed(s, p)) && PipeRuns.Step(Abs(s), Kill(p)) == Some(Abs(Killed(s, p)))
  {
    KillSane(s, p);
    KillAbs(s, p);
    assert Abs(Killed(s, p)).sh == s.sh;
    hide Sane, Inv, AbsPc;
  }

  lemma StartStep(s: System, e: Event)
    requires LockInv(s) && (e.Write? || e.Read? || e.Close?) && Step(s, e).Some?
    ensures var t := Step(s, e).value;
            Sane(t) && PipeRuns.Step(Abs(s), e) == Some(Abs(t))
  {
    var t, p := Step(s, e).value, e.p;
    var m := Start(Abs(s), e).value;
    assert m.wake.NoChan? && !m.pc.RAsleep? && !m.pc.WAsleep?;
    hide Start, Inv, Sane, AbsPc;
    PlainMove(s, t, p, m.pc);
    NobodyWoken(Abs(s).pcs);
  }

  // ---------- refinement ----------

  lemma StepKeeps(s: System, t: System, e: Event)
    requires LockInv(s) && Sane(t) && (Abs(t) == Abs(s) || PipeRuns.Step(Abs(s), e) == Some(Abs(t)))
    ensures LockInv(t)
  {
    hide Inv, Sane, Abs, PipeRuns.Step;
    if Abs(t) != Abs(s) { StepInv(Abs(s), e); }
  }

  /** Every step of the machine with both locks is a step of the simpler machine or changes nothing
  there. */
  lemma StepRefines(s: System, e: Event)
    requires LockInv(s) && Step(s, e).Some?
    ensures var t := Step(s, e).value;
            LockInv(t) && ((e.Run? && Abs(t) == Abs(s)) || PipeRuns.Step(Abs(s), e) == Some(Abs(t)))
  {
    assert |s.sh.ring.data| == PIPESIZE;
    hide Inv, Sane, Abs, RunStep, Start, Killed, PipeRuns.Step;
    if e.Kill? {
      KillStep(s, e.p);
    } else if e.Run? {
      RunRefines(s, e.p);
    } else {
      StartStep(s, e);
    }
    StepKeeps(s, Step(s, e).value, e);
  }

  lemma RunRefines(s: System, p: nat)
    requires LockInv(s) && p < |s.table| && RunStep(s, p).Some?
    ensures var t := RunStep(s, p).value;
            Sane(t) && (Abs(t) == Abs(s) || PipeRuns.Step(Abs(s), Run(p)) == Some(Abs(t)))
  {
    assert |s.sh.ring.data| == PIPESIZE;
    hide Act, Inv, Sane, AbsPc, PipeRuns.Step, Scanned;
    match PlaceOf(s, p)
    case Plain(c) =>
      if AboutToSleep(c) { SleepLock(s, p, c); }
      else if AboutToWake(c) { WakeStep(s, p, c, Act(s.sh, p, p in s.killed, c).value); }
      else { PlainStep(s, p, c, Act(s.sh, p, p in s.killed, c).value); }
    case Locked(c) => ReleaseStep(s, p, c, Act(s.sh, p, p in s.killed, c).value);
    case Scan(c, ch, i) => ScanStep(s, p, c, ch, i);
    case _ => QuietStep(s, p);
  }
}
