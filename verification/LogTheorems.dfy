/** What every run of the logging system guarantees. */
module LogTheorems {
  import opened Common
  import opened Disk
  import opened Log
  import opened LogCode
  import opened LogRuns

  // ---------- durability ----------

  /** A crash followed by recovery shows, on every home block, the initial disk with exactly the
  committed transactions applied, in commit order. */
  ghost predicate Safe(p: Params, init: Image, s: State)
    requires WellFormed(p, init)
  {
    && WellFormed(p, s.disk)
    && SameHome(p, Recover(p, s.disk), ReplayAll(Recover(p, init), s.groups))
  }

  /** Every state of every run in which each logged block finds room is safe. */
  lemma CrashSafety(p: Params, init: Image, es: seq<Event>)
    requires WellFormed(p, init) && Exec(p, Boot(init), es).Some? && Roomy(p, init, es)
    ensures Safe(p, init, Exec(p, Boot(init), es).value)
  {
    ExecInv(p, init, es);
  }

  /** While the system runs, `bread` returns the committed contents plus the open transaction. */
  lemma ReadsAreCurrent(p: Params, init: Image, es: seq<Event>, b: nat)
    requires WellFormed(p, init) && Exec(p, Boot(init), es).Some? && Roomy(p, init, es)
    ensures var s := Exec(p, Boot(init), es).value;
            && s.disk.Keys == init.Keys
            && (s.phase.Running? && b in init && p.Home(b) ==>
                  var now := Replay(ReplayAll(Recover(p, init), s.groups), s.current);
                  b in now && Read(s.disk, s.cache, b) == now[b])
  {
    ExecInv(p, init, es);
    var s := Exec(p, Boot(init), es).value;
    if s.phase.Running? && b in init {
      assert View(s.disk, s.cache)[b] == Read(s.disk, s.cache, b);
    }
  }

  // ---------- what needs no room ----------

  /** The blocks of the header are those of the open transaction, up to the header write. */
  ghost predicate HistoryOk(s: State) {
    match s.phase
    case Running => Blocks(s.current) == Elems(s.lh) && (s.active == map[] ==> s.current == [])
    case Recovering(_, _) => s.current == [] && s.lh == []
    case Committing(_, _, done) =>
      if done <= |s.lh| then Blocks(s.current) == Elems(s.lh) else s.current == []
  }

  /** Holds in every run, whether or not the log overflows. */
  ghost predicate Orderly(s: State) {
    && Distinct(s.lh) && s.dirty <= s.cache.Keys && s.active.Keys <= s.seen
    && (!s.phase.Running? ==> s.active == map[]) && HistoryOk(s)
  }

  lemma OrderlyCommit(p: Params, s: State)
    requires Orderly(s) && s.phase.Committing? && Committable(p, s.phase.before, s.phase.view, s.lh)
    ensures Orderly(CommitStep(p, s))
  {
    var ws := CommitWrites(p, s.phase.before, s.lh, s.phase.view);
    assert |ws| == if s.lh == [] then 0 else 2 * |s.lh| + 2;
    NonEmptyBlocks(s.current);
    hide WellFormed, CommitWrites, Covers;
  }

  lemma OrderlyWrite(p: Params, s: State, op: Op, at: nat, data: Block)
    requires Orderly(s) && Step(p, s, LogWrite(op, at, data)).Some?
    ensures Orderly(Step(p, s, LogWrite(op, at, data)).value)
  {
    ElemsAbsorb(s.lh, at);
    Append(s.disk, s.current, OpWrite(op, at, data));
    hide Elems, Blocks, Distinct, Absorb;
    assert op in Step(p, s, LogWrite(op, at, data)).value.active;
  }

  lemma OrderlyStep(p: Params, s: State, e: Event)
    requires Orderly(s) && Step(p, s, e).Some?
    ensures Orderly(Step(p, s, e).value)
  {
    if e.LogWrite? {
      OrderlyWrite(p, s, e.op, e.at, e.data);
    } else if e.DiskStep? && s.phase.Committing? {
      OrderlyCommit(p, s);
    } else {
      hide WellFormed, CommitWrites, RecoverWrites, Committable, LogCode.View, Distinct;
      assert Distinct([]) && Blocks([]) == {} && Elems([]) == {} by { NoneDistinct(); }
    }
  }

  lemma NoneDistinct()
    ensures Distinct([]) && Blocks([]) == {} && Elems([]) == {}
  {
  }

  lemma {:induction false} OrderlyExec(p: Params, init: Image, es: seq<Event>)
    requires Exec(p, Boot(init), es).Some?
    ensures Orderly(Exec(p, Boot(init), es).value)
    decreases |es|
  {
    if es == [] {
      NoneDistinct();
    } else {
      hide Orderly;
      OrderlyExec(p, init, es[..|es| - 1]);
      OrderlyStep(p, Exec(p, Boot(init), es[..|es| - 1]).value, es[|es| - 1]);
    }
  }

  // ---------- whole operations ----------

  /** `ws` holds nothing of `op`, or all `op` ever issued. */
  ghost predicate AllOrNone(ws: seq<OpWrite>, issued: seq<OpWrite>, op: Op) {
    Of(ws, op) == [] || Of(ws, op) == Of(issued, op)
  }

  ghost predicate Whole(s: State) {
    && s.active.Keys <= s.seen
    && (forall op | op !in s.seen :: Of(s.issued, op) == [])
    && (forall op :: AllOrNone(s.current, s.issued, op))
    && (forall op | op in s.active :: Of(s.current, op) == Of(s.issued, op))
    && (forall g, op | 0 <= g < |s.groups| :: AllOrNone(s.groups[g], s.issued, op))
    && (forall g, op | 0 <= g < |s.groups| && Of(s.groups[g], op) != [] ::
          op !in s.active && Of(s.current, op) == [])
    && (forall g, h, op | 0 <= g < h < |s.groups| && Of(s.groups[g], op) != [] ::
          Of(s.groups[h], op) == [])
  }

  lemma WholeBegin(p: Params, s: State, op: Op)
    requires Whole(s) && Step(p, s, Begin(op)).Some?
    ensures Whole(Step(p, s, Begin(op)).value)
  {
    assert AllOrNone(s.current, s.issued, op);
    forall g | 0 <= g < |s.groups| ensures Of(s.groups[g], op) == [] {
      assert AllOrNone(s.groups[g], s.issued, op);
    }
  }

  lemma WholeLogWrite(p: Params, s: State, op: Op, at: nat, data: Block)
    requires Whole(s) && Step(p, s, LogWrite(op, at, data)).Some?
    ensures Whole(Step(p, s, LogWrite(op, at, data)).value)
  {
    var s' := Step(p, s, LogWrite(op, at, data)).value;
    Append(s.disk, s.current, OpWrite(op, at, data));
    Append(s.disk, s.issued, OpWrite(op, at, data));
    forall g | 0 <= g < |s.groups| ensures Of(s.groups[g], op) == [] {
      assert AllOrNone(s.groups[g], s.issued, op);
    }
    forall o | o != op ensures Of(s'.current, o) == Of(s.current, o)
                            && Of(s'.issued, o) == Of(s.issued, o) {
    }
    forall o ensures AllOrNone(s'.current, s'.issued, o) {
      assert AllOrNone(s.current, s.issued, o);
    }
    forall g, o | 0 <= g < |s.groups| ensures AllOrNone(s.groups[g], s'.issued, o) {
      assert AllOrNone(s.groups[g], s.issued, o);
    }
  }

  lemma WholeStep(p: Params, s: State, e: Event)
    requires Whole(s) && Step(p, s, e).Some? && !e.Begin? && !e.LogWrite?
    requires s.phase.Committing? ==> s.active == map[]
    ensures Whole(Step(p, s, e).value)
  {
    hide CommitWrites, RecoverWrites, WellFormed, Committable, LogCode.View;
    var s' := Step(p, s, e).value;
    assert s'.issued == s.issued && s'.seen == s.seen && s'.active.Keys <= s.active.Keys;
    if |s'.groups| > |s.groups| {
      WholeCommit(s);
      assert s' == s'.(groups := s.groups + [s.current], current := []);
    } else {
      assert s'.groups == s.groups;
      assert s'.current == s.current || s'.current == [];
    }
  }

  lemma WholeCommit(s: State)
    requires Whole(s) && s.active == map[]
    ensures Whole(s.(groups := s.groups + [s.current], current := []))
  {
    var s' := s.(groups := s.groups + [s.current], current := []);
    assert forall g | 0 <= g < |s.groups| :: s'.groups[g] == s.groups[g];
    forall g, op | 0 <= g < |s'.groups| ensures AllOrNone(s'.groups[g], s.issued, op) {
      assert AllOrNone(s.current, s.issued, op);
      assert g < |s.groups| ==> AllOrNone(s.groups[g], s.issued, op);
    }
  }

  lemma {:induction false} WholeExec(p: Params, init: Image, es: seq<Event>)
    requires Exec(p, Boot(init), es).Some?
    ensures Whole(Exec(p, Boot(init), es).value)
    decreases |es|
  {
    if es != [] {
      var front := es[..|es| - 1];
      WholeExec(p, init, front);
      OrderlyExec(p, init, front);
      var s, e := Exec(p, Boot(init), front).value, es[|es| - 1];
      match e
      case Begin(op) => WholeBegin(p, s, op);
      case LogWrite(op, at, data) => WholeLogWrite(p, s, op, at, data);
      case _ => WholeStep(p, s, e);
    }
  }

  /** All or nothing: an operation has no write in any committed transaction, or all its writes, in
  order, in exactly one, and then it had ended before that transaction committed. */
  lemma AllOrNothing(p: Params, init: Image, es: seq<Event>, op: Op)
    requires Exec(p, Boot(init), es).Some?
    ensures var s := Exec(p, Boot(init), es).value;
            || (forall g | 0 <= g < |s.groups| :: Of(s.groups[g], op) == [])
            || (exists g | 0 <= g < |s.groups| ::
                  && Of(s.groups[g], op) == Of(s.issued, op) && op !in s.active
                  && (forall h | 0 <= h < |s.groups| && h != g :: Of(s.groups[h], op) == []))
  {
    WholeExec(p, init, es);
    var s := Exec(p, Boot(init), es).value;
    if g :| 0 <= g < |s.groups| && Of(s.groups[g], op) != [] {
      assert AllOrNone(s.groups[g], s.issued, op);
      forall h | 0 <= h < |s.groups| && h != g ensures Of(s.groups[h], op) == [] {
      }
    }
  }

  /** No crash, and all `op` issued is in the open transaction or in one committed one. */
  ghost predicate Kept(s: State, op: Op) {
    || Of(s.issued, op) == [] || Of(s.current, op) == Of(s.issued, op)
    || exists g: nat :: g < |s.groups| && Of(s.groups[g], op) == Of(s.issued, op)
  }

  lemma KeptStep(p: Params, s: State, e: Event, op: Op)
    requires Orderly(s) && Whole(s) && Kept(s, op) && Step(p, s, e).Some? && !e.Crash?
    ensures Kept(Step(p, s, e).value, op)
  {
    hide CommitWrites, RecoverWrites, WellFormed, Committable, LogCode.View;
    var s' := Step(p, s, e).value;
    if e.LogWrite? {
      Append(s.disk, s.current, OpWrite(e.op, e.at, e.data));
      Append(s.disk, s.issued, OpWrite(e.op, e.at, e.data));
      assert e.op == op ==> Of(s.current, op) == Of(s.issued, op);
    } else {
      assert s'.issued == s.issued && (s'.groups == s.groups || s'.groups == s.groups + [s.current]);
      if |s'.groups| > |s.groups| {
        assert s'.groups[|s.groups|] == s.current;
      }
      if g: nat :| g < |s.groups| && Of(s.groups[g], op) == Of(s.issued, op) {
        assert s'.groups[g] == s.groups[g];
      }
    }
  }

  lemma ExecPrefix(p: Params, init: Image, es: seq<Event>, fs: seq<Event>)
    requires fs != [] && Exec(p, Boot(init), es + fs).Some?
    ensures var r := Exec(p, Boot(init), es + fs[..|fs| - 1]);
            r.Some? && Exec(p, Boot(init), es + fs) == Step(p, r.value, fs[|fs| - 1])
  {
    hide Step, Boot;
    assert (es + fs)[..|es + fs| - 1] == es + fs[..|fs| - 1];
  }

  lemma {:induction false} KeptRun(p: Params, init: Image, es: seq<Event>, fs: seq<Event>, op: Op)
    requires Exec(p, Boot(init), es).Some? && op !in Exec(p, Boot(init), es).value.seen
    requires Exec(p, Boot(init), es + fs).Some? && forall i | 0 <= i < |fs| :: !fs[i].Crash?
    ensures Kept(Exec(p, Boot(init), es + fs).value, op)
    decreases |fs|
  {
    if fs == [] {
      assert es + fs == es;
      WholeExec(p, init, es);
    } else {
      hide Exec, Boot, Step, Kept, Orderly, Whole;
      var k := |fs| - 1;
      ExecPrefix(p, init, es, fs);
      KeptRun(p, init, es, fs[..k], op);
      OrderlyExec(p, init, es + fs[..k]);
      WholeExec(p, init, es + fs[..k]);
      KeptStep(p, Exec(p, Boot(init), es + fs[..k]).value, fs[k], op);
    }
  }

  /** `end_op` is durable: in a run without a crash since `op` began, once the system runs with no
  operation active, everything `op` wrote is in one committed transaction. */
  lemma EndedIsCommitted(p: Params, init: Image, es: seq<Event>, fs: seq<Event>, op: Op)
    requires Exec(p, Boot(init), es).Some? && op !in Exec(p, Boot(init), es).value.seen
    requires Exec(p, Boot(init), es + fs).Some? && forall i | 0 <= i < |fs| :: !fs[i].Crash?
    ensures var s := Exec(p, Boot(init), es + fs).value;
            s.phase.Running? && s.active == map[] && Of(s.issued, op) != [] ==>
              exists g: nat :: g < |s.groups| && Of(s.groups[g], op) == Of(s.issued, op)
  {
    hide Exec, Boot;
    KeptRun(p, init, es, fs, op);
    OrderlyExec(p, init, es + fs);
    assert Of([], op) == [];
  }

  /** While a commit runs no operation is active and none can begin, write or end; whatever else
  happens short of a crash, the header and the pinned blocks not yet installed stay as they are
  until the commit returns. */
  lemma CommitIsQuiet(p: Params, init: Image, es: seq<Event>, e: Event)
    requires Exec(p, Boot(init), es).Some?
    requires var s := Exec(p, Boot(init), es).value; s.phase.Committing? && Enabled(p, s, e)
    ensures var s := Exec(p, Boot(init), es).value;
            && s.active == map[] && !e.Begin? && !e.Test? && !e.LogWrite? && !e.End?
            && var s' := Step(p, s, e);
            (s'.Some? && s'.value.phase.Committing? ==>
               && s'.value.lh == s.lh && s'.value.dirty <= s.dirty
               && (forall b | b in s'.value.dirty ::
                     b in s.cache && b in s'.value.cache && s'.value.cache[b] == s.cache[b]))
  {
    OrderlyExec(p, init, es);
    hide Exec, Boot, CommitWrites, RecoverWrites, WellFormed, Committable, LogCode.View;
  }

  // ---------- log space ----------

  /** The blocks the active operations may still add. */
  ghost function Left(p: Params, active: map<Op, nat>): int
    decreases |active|
  {
    if active == map[] then 0 else
    var op :| op in active;
    p.maxop - active[op] + Left(p, active - {op})
  }

  lemma {:induction false} LeftRemove(p: Params, active: map<Op, nat>, op: Op)
    requires op in active
    ensures Left(p, active) == p.maxop - active[op] + Left(p, active - {op})
    decreases |active|
  {
    var o :| o in active && Left(p, active) == p.maxop - active[o] + Left(p, active - {o});
    if o != op {
      LeftRemove(p, active - {o}, op);
      LeftRemove(p, active - {op}, o);
      assert active - {o} - {op} == active - {op} - {o};
    }
  }

  lemma {:induction false} LeftBound(p: Params, active: map<Op, nat>)
    requires forall o | o in active :: active[o] <= p.maxop
    ensures 0 <= Left(p, active) <= |active| * p.maxop
    decreases |active|
  {
    if active != map[] {
      var o :| o in active;
      LeftRemove(p, active, o);
      LeftBound(p, active - {o});
      RemoveSize(active, o);
      MulSucc(|active| - 1, p.maxop);
    }
  }

  ghost predicate Reserved(p: Params, s: State) {
    && (forall op | op in s.active :: s.active[op] <= p.maxop)
    && |s.lh| + Left(p, s.active) <= p.logsize
  }

  lemma LeftUpdate(p: Params, active: map<Op, nat>, op: Op, k: nat)
    ensures Left(p, active[op := k])
         == Left(p, active - {op}) + p.maxop - k
  {
    LeftRemove(p, active[op := k], op);
    assert active[op := k] - {op} == active - {op};
  }

  lemma ReservedBegin(p: Params, s: State, op: Op)
    requires Reserved(p, s) && op !in s.active && Admits(p, |s.lh|, |s.active|, false)
    ensures |s.lh| + Left(p, s.active[op := 0]) <= p.logsize
  {
    assert s.active - {op} == s.active;
    LeftUpdate(p, s.active, op, 0);
    LeftBound(p, s.active);
    MulSucc(|s.active|, p.maxop);
  }

  lemma ReservedLogWrite(p: Params, s: State, op: Op)
    requires Reserved(p, s) && op in s.active && s.active[op] < p.maxop
    ensures |s.lh| + 1 + Left(p, s.active[op := s.active[op] + 1]) <= p.logsize
  {
    LeftRemove(p, s.active, op);
    LeftUpdate(p, s.active, op, s.active[op] + 1);
  }

  /** An operation must not add more than MAXOPBLOCKS fresh blocks. */
  predicate InBudget(p: Params, s: State, op: Op, at: nat)
    requires op in s.active
  {
    at in s.lh || s.active[op] < p.maxop
  }

  predicate WriteInBudget(p: Params, s: State, e: Event) {
    e.LogWrite? && e.op in s.active ==> InBudget(p, s, e.op, e.at)
  }

  ghost predicate InBudgetRun(p: Params, init: Image, es: seq<Event>)
    decreases |es|
  {
    es == [] ||
    var front := es[..|es| - 1];
    InBudgetRun(p, init, front) &&
    (Exec(p, Boot(init), front).Some? ==>
       WriteInBudget(p, Exec(p, Boot(init), front).value, es[|es| - 1]))
  }

  /** Steps that are not calls leave the reservations as they are, or clear them. */
  lemma StepCounts(p: Params, s: State, e: Event)
    requires Step(p, s, e).Some? && (e.Test? || e.DiskStep? || e.Load? || e.Evict? || e.Crash?)
    ensures var s' := Step(p, s, e).value;
            && (s'.lh == s.lh || s'.lh == []) && (s'.active == s.active || s'.active == map[])
            && (s'.active == map[] ==> s.active == map[] || s'.lh == [])
  {
    hide CommitWrites, RecoverWrites, WellFormed, Committable, LogCode.View;
  }

  lemma ReservedStep(p: Params, s: State, e: Event)
    requires Reserved(p, s) && Step(p, s, e).Some? && s.active.Keys <= s.seen && WriteInBudget(p, s, e)
    ensures Reserved(p, Step(p, s, e).value)
  {
    hide Left, LogCode.View;
    match e
    case Begin(op) => ReservedBegin(p, s, op);
    case LogWrite(op, at, data) => if at !in s.lh { ReservedLogWrite(p, s, op); }
    case End(op) => LeftRemove(p, s.active, op);
    case _ =>
      StepCounts(p, s, e);
      hide Step;
      assert Left(p, map[]) == 0 by { LeftBound(p, map[]); }
      LeftBound(p, s.active);
  }

  lemma RemoveSize(m: map<Op, nat>, op: Op)
    requires op in m
    ensures |m - {op}| == |m| - 1
  {
    assert (m - {op}).Keys == m.Keys - {op};
    assert |m.Keys - {op}| == |m.Keys| - 1;
  }

  lemma MulSucc(k: nat, m: nat)
    ensures (k + 1) * m == k * m + m
  {
  }

  lemma {:induction false} ReservedExec(p: Params, init: Image, es: seq<Event>)
    requires Exec(p, Boot(init), es).Some? && InBudgetRun(p, init, es)
    ensures Reserved(p, Exec(p, Boot(init), es).value)
    decreases |es|
  {
    if es != [] {
      ReservedExec(p, init, es[..|es| - 1]);
      OrderlyExec(p, init, es[..|es| - 1]);
      ReservedStep(p, Exec(p, Boot(init), es[..|es| - 1]).value, es[|es| - 1]);
    }
  }

  /** Reservation: in a run within budget the header never holds more than LOGSIZE blocks, all
  distinct. With a log area larger than LOGSIZE a write within budget is refused by the "too big a
  transaction" test exactly when the header is full, and then it is a repeated write of a logged
  block by an operation that has no budget left. */
  lemma ReservationHolds(p: Params, init: Image, es: seq<Event>, op: Op, at: nat)
    requires Exec(p, Boot(init), es).Some? && InBudgetRun(p, init, es)
    ensures var s := Exec(p, Boot(init), es).value;
            && |s.lh| <= p.logsize && Distinct(s.lh)
            && (p.size > p.logsize && op in s.active && InBudget(p, s, op, at) ==>
                  && (!Fits(p, |s.lh|) <==> |s.lh| == p.logsize)
                  && (!Fits(p, |s.lh|) ==> at in s.lh && s.active[op] == p.maxop))
  {
    ReservedExec(p, init, es);
    OrderlyExec(p, init, es);
    var s := Exec(p, Boot(init), es).value;
    LeftBound(p, s.active);
    if op in s.active {
      LeftRemove(p, s.active, op);
      LeftBound(p, s.active - {op});
    }
  }

  lemma StepHasRoom(p: Params, s: State, e: Event)
    requires Reserved(p, s) && p.size > p.logsize && WriteInBudget(p, s, e) && Enabled(p, s, e)
    ensures HasRoom(p, s, e)
  {
    if e.LogWrite? {
      LeftRemove(p, s.active, e.op);
      LeftBound(p, s.active - {e.op});
    }
  }

  /** With a log area larger than LOGSIZE every run within budget finds room for its blocks,
  although `log_write` tests for it before it takes the lock. */
  lemma {:induction false} InBudgetIsRoomy(p: Params, init: Image, es: seq<Event>)
    requires p.size > p.logsize && Exec(p, Boot(init), es).Some? && InBudgetRun(p, init, es)
    ensures Roomy(p, init, es)
    decreases |es|
  {
    if es != [] {
      var front := es[..|es| - 1];
      InBudgetIsRoomy(p, init, front);
      ReservedExec(p, init, front);
      StepHasRoom(p, Exec(p, Boot(init), front).value, es[|es| - 1]);
    }
  }
}
