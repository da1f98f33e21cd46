/** Every run of the logging system: file-system operations begin, write and end in any
interleaving, commits proceed one disk write at a time, the cache loads and evicts clean blocks,
and a crash may strike between any two steps, also during recovery. */
module LogRuns {
  import opened Common
  import opened Disk
  import opened Log
  import opened LogCode

  type Op = nat

  /** One `log_write`, tagged with the operation that issued it. */
  datatype OpWrite = OpWrite(op: Op, at: nat, data: Block)

  datatype Phase =
    | Running
    | Committing(before: Image, view: Image, done: nat)
    | Recovering(before: Image, done: nat)

  /** `groups`, `current`, `issued` and `seen` record the history: the committed transactions, the
  writes of the open one, all writes ever issued, and all operations ever begun. */
  datatype State = State(
    disk: Image, cache: Image, dirty: set<nat>, lh: seq<nat>,
    active: map<Op, nat>,   // operations between begin_op and end_op, with the blocks they added
    cleared: set<Op>,       // operations in log_write, past its tests and before its lock
    phase: Phase,
    groups: seq<seq<OpWrite>>, current: seq<OpWrite>, issued: seq<OpWrite>, seen: set<Op>)

  datatype Event =
    | Begin(op: Op)
    | Test(op: Op)             // the tests log_write makes without the lock
    | LogWrite(op: Op, at: nat, data: Block)
    | End(op: Op)
    | DiskStep                 // one bwrite of commit() or recover_from_log(), or their return
    | Load(at: nat)            // bread of an uncached block
    | Evict(at: nat)           // bget recycles a clean buffer
    | Crash

  function Boot(d: Image): State {
    State(d, map[], {}, [], map[], {}, Recovering(d, 0), [], [], [], {})
  }

  predicate Enabled(p: Params, s: State, e: Event) {
    match e
    case Begin(op) => op !in s.seen && Admits(p, |s.lh|, |s.active|, !s.phase.Running?)
    case Test(op) => op in s.active && op !in s.cleared && Fits(p, |s.lh|)
    case LogWrite(op, at, _) => op in s.active && op in s.cleared && at in s.disk && p.Home(at)
    case End(op) => op in s.active && op !in s.cleared
    case DiskStep => !s.phase.Running?
    case Load(at) => at in s.disk && at !in s.cache
    case Evict(at) => at in s.cache && at !in s.dirty
    case Crash => true
  }

  function Bwrite(s: State, w: Write): State {
    s.(disk := s.disk[w.at := w.data], cache := s.cache[w.at := w.data], dirty := s.dirty - {w.at})
  }

  predicate Committable(p: Params, d: Image, view: Image, lh: seq<nat>) {
    WellFormed(p, d) && |lh| < WORDS && Covers(view, lh)
  }

  function CommitStep(p: Params, s: State): State
    requires s.phase.Committing? && Committable(p, s.phase.before, s.phase.view, s.lh)
  {
    var Committing(before, view, done) := s.phase;
    var ws := CommitWrites(p, before, s.lh, view);
    if done < |ws| then
      var s' := Bwrite(s, ws[done]).(phase := Committing(before, view, done + 1));
      // the header write is the commit point
      if done == |s.lh| then s'.(groups := s.groups + [s.current], current := []) else s'
    else
      s.(phase := Running, lh := [])
  }

  function RecoverStep(p: Params, s: State): State
    requires s.phase.Recovering? && WellFormed(p, s.phase.before)
  {
    var Recovering(before, done) := s.phase;
    var ws := RecoverWrites(p, before);
    if done < |ws| then Bwrite(s, ws[done]).(phase := Recovering(before, done + 1))
    else s.(phase := Running)
  }

  function Step(p: Params, s: State, e: Event): (r: Option<State>)
  {
    if !Enabled(p, s, e) then None else
    match e
    case Begin(op) => Some(s.(active := s.active[op := 0], seen := s.seen + {op}))
    case Test(op) => Some(s.(cleared := s.cleared + {op}))
    case LogWrite(op, at, data) =>
      var w := OpWrite(op, at, data);
      Some(s.(cache := s.cache[at := data], dirty := s.dirty + {at}, lh := Absorb(s.lh, at),
              active := if at in s.lh then s.active else s.active[op := s.active[op] + 1],
              cleared := s.cleared - {op},
              current := s.current + [w], issued := s.issued + [w]))
    case End(op) =>
      var s' := s.(active := s.active - {op});
      if s'.active != map[] then Some(s')
      else Some(s'.(phase := Committing(s.disk, View(s.disk, s.cache), 0)))
    case DiskStep =>
      if s.phase.Committing? then
        if Committable(p, s.phase.before, s.phase.view, s.lh) then Some(CommitStep(p, s)) else None
      else
        if WellFormed(p, s.phase.before) then Some(RecoverStep(p, s)) else None
    case Load(at) => Some(s.(cache := s.cache[at := s.disk[at]]))
    case Evict(at) => Some(s.(cache := s.cache - {at}))
    case Crash =>
      Some(s.(cache := map[], dirty := {}, lh := [], active := map[], cleared := {}, current := [],
              phase := Recovering(s.disk, 0)))
  }

  /** The state after the events `es`, or None when one of them was not possible. */
  function Exec(p: Params, s: State, es: seq<Event>): Option<State>
    decreases |es|
  {
    if es == [] then Some(s) else
    var r := Exec(p, s, es[..|es| - 1]);
    if r.None? then None else Step(p, r.value, es[|es| - 1])
  }

  /** The header and the log area have room for the block when it is recorded. */
  predicate HasRoom(p: Params, s: State, e: Event) {
    e.LogWrite? ==> e.at in s.lh || Fits(p, |s.lh|)
  }

  /** Every block of the run found room. */
  ghost predicate Roomy(p: Params, init: Image, es: seq<Event>)
    decreases |es|
  {
    es == [] ||
    var front := es[..|es| - 1];
    Roomy(p, init, front) &&
    (Exec(p, Boot(init), front).Some? ==> HasRoom(p, Exec(p, Boot(init), front).value, es[|es| - 1]))
  }

  // ---------- the history ----------

  function Replay(d: Image, ws: seq<OpWrite>): Image
    decreases |ws|
  {
    if ws == [] then d else
    var w := ws[|ws| - 1];
    Replay(d, ws[..|ws| - 1])[w.at := w.data]
  }

  function ReplayAll(d: Image, gs: seq<seq<OpWrite>>): Image
    decreases |gs|
  {
    if gs == [] then d else Replay(ReplayAll(d, gs[..|gs| - 1]), gs[|gs| - 1])
  }

  function Blocks(ws: seq<OpWrite>): set<nat> {
    set i | 0 <= i < |ws| :: ws[i].at
  }

  /** The writes of one operation, in order. */
  function Of(ws: seq<OpWrite>, op: Op): seq<OpWrite>
    decreases |ws|
  {
    if ws == [] then [] else
    var w := ws[|ws| - 1];
    Of(ws[..|ws| - 1], op) + if w.op == op then [w] else []
  }

  lemma Append(d: Image, ws: seq<OpWrite>, w: OpWrite)
    ensures Replay(d, ws + [w]) == Replay(d, ws)[w.at := w.data]
    ensures Blocks(ws + [w]) == Blocks(ws) + {w.at}
    ensures forall op :: Of(ws + [w], op) == Of(ws, op) + if w.op == op then [w] else []
  {
    var xs := ws + [w];
    assert xs[..|xs| - 1] == ws;
    assert forall i | 0 <= i < |ws| :: xs[i] == ws[i];
    assert xs[|ws|] == w;
  }

  lemma NonEmptyBlocks(ws: seq<OpWrite>)
    ensures ws != [] ==> Blocks(ws) != {}
  {
    assert ws != [] ==> ws[0].at in Blocks(ws);
  }

  // ---------- invariants ----------

  /** Same contents on every home block. */
  ghost predicate SameHome(p: Params, d: Image, e: Image) {
    d.Keys == e.Keys && forall b | b in d && p.Home(b) :: d[b] == e[b]
  }

  /** The committed contents: the initial disk, recovered, plus all committed transactions. */
  ghost function Committed(p: Params, init: Image, s: State): Image
    requires WellFormed(p, init)
  {
    ReplayAll(Recover(p, init), s.groups)
  }

  ghost predicate Durable(p: Params, init: Image, s: State)
    requires WellFormed(p, init)
  {
    && WellFormed(p, s.disk) && s.disk.Keys == init.Keys
    && SameHome(p, Recover(p, s.disk), Committed(p, init, s))
  }

  ghost predicate CacheOk(p: Params, s: State) {
    && s.dirty <= s.cache.Keys <= s.disk.Keys
    && (forall b | b in s.cache && b !in s.dirty :: s.cache[b] == s.disk[b])
    && (forall b | b in s.dirty :: p.Home(b))
  }

  ghost predicate LogOk(p: Params, d: Image, lh: seq<nat>) {
    WellFormed(p, d) && Decode(d[p.start]) == [] && Loggable(p, d, lh) && Distinct(lh)
  }

  ghost predicate RunningOk(p: Params, base: Image, s: State) {
    && LogOk(p, s.disk, s.lh)
    && Elems(s.lh) == s.dirty == Blocks(s.current)
    && SameHome(p, base, s.disk)
    && SameHome(p, Replay(base, s.current), View(s.disk, s.cache))
  }

  /** The blocks still pinned after `done` writes of a commit: those not yet installed. */
  function Pinned(lh: seq<nat>, done: nat): set<nat> {
    if done <= |lh| then Elems(lh)
    else if done <= 2 * |lh| then Elems(lh[done - |lh| - 1..]) else {}
  }

  /** What the home blocks become when the commit is through. */
  ghost function Target(before: Image, lh: seq<nat>, view: Image): Image
    requires Covers(view, lh)
  {
    map b | b in before :: if b in Elems(lh) && b in view then view[b] else before[b]
  }

  ghost predicate CommittingOk(p: Params, base: Image, s: State)
    requires s.phase.Committing?
  {
    var Committing(before, view, done) := s.phase;
    && s.active == map[] && LogOk(p, before, s.lh) && Covers(view, s.lh)
    && var ws := CommitWrites(p, before, s.lh, view);
    && done <= |ws| && s.disk == Apply(before, ws[..done])
    && s.dirty == Pinned(s.lh, done)
    && (forall b | b in s.dirty :: b in s.cache && b in view && s.cache[b] == view[b])
    && CommitHistory(p, base, s)
  }

  /** The transaction joins the committed ones with the header write. */
  ghost predicate CommitHistory(p: Params, base: Image, s: State)
    requires s.phase.Committing? && Covers(s.phase.view, s.lh)
  {
    var Committing(before, view, done) := s.phase;
    if done <= |s.lh| then
      && Elems(s.lh) == Blocks(s.current) && SameHome(p, base, before)
      && SameHome(p, Replay(base, s.current), Target(before, s.lh, view))
    else
      s.current == [] && SameHome(p, base, Target(before, s.lh, view))
  }

  ghost predicate RecoveringOk(p: Params, s: State)
    requires s.phase.Recovering?
  {
    var Recovering(before, done) := s.phase;
    && s.active == map[] && s.lh == [] && s.current == [] && s.dirty == {}
    && WellFormed(p, before) && done <= |RecoverWrites(p, before)|
    && s.disk == Apply(before, RecoverWrites(p, before)[..done])
  }

  ghost predicate Inv(p: Params, init: Image, s: State)
    requires WellFormed(p, init)
  {
    && Durable(p, init, s) && CacheOk(p, s)
    && match s.phase
       case Running => RunningOk(p, Committed(p, init, s), s)
       case Committing(_, _, _) => CommittingOk(p, Committed(p, init, s), s)
       case Recovering(_, _) => RecoveringOk(p, s)
  }

  lemma BootInv(p: Params, init: Image)
    requires WellFormed(p, init)
    ensures Inv(p, init, Boot(init))
  {
    RecoverResult(p, init);
    assert RecoverWrites(p, init)[..0] == [];
  }

  // ---------- every step keeps the invariant ----------

  lemma ElemsAbsorb(lh: seq<nat>, b: nat)
    ensures Elems(Absorb(lh, b)) == Elems(lh) + {b}
    ensures Distinct(lh) ==> Distinct(Absorb(lh, b))
  {
    if b in lh {
      var i :| 0 <= i < |lh| && lh[i] == b;
    } else {
      var a := lh + [b];
      ElemsNext(a, |lh|);
      assert a[..|lh|] == lh && a[..|lh| + 1] == a;
    }
  }

  /** A disk with an empty log is its own recovery, up to the header block. */
  lemma EmptyLog(p: Params, d: Image)
    requires WellFormed(p, d) && Decode(d[p.start]) == []
    ensures SameHome(p, Recover(p, d), d)
  {
    RecoverResult(p, d);
  }

  lemma BeginInv(p: Params, init: Image, s: State, op: Op)
    requires WellFormed(p, init) && Inv(p, init, s) && Enabled(p, s, Begin(op))
    ensures Inv(p, init, Step(p, s, Begin(op)).value)
  {
  }

  lemma TestInv(p: Params, init: Image, s: State, op: Op)
    requires WellFormed(p, init) && Inv(p, init, s) && Enabled(p, s, Test(op))
    ensures Inv(p, init, Step(p, s, Test(op)).value)
  {
  }

  /** The view of the home blocks after one more logged write. */
  lemma ViewWrite(p: Params, base: Image, s: State, w: OpWrite)
    requires w.at in s.disk && SameHome(p, Replay(base, s.current), View(s.disk, s.cache))
    ensures SameHome(p, Replay(base, s.current + [w]), View(s.disk, s.cache[w.at := w.data]))
  {
    Append(base, s.current, w);
  }

  lemma LogWriteInv(p: Params, init: Image, s: State, op: Op, at: nat, data: Block)
    requires WellFormed(p, init) && Inv(p, init, s) && Enabled(p, s, LogWrite(op, at, data))
    requires HasRoom(p, s, LogWrite(op, at, data))
    ensures Inv(p, init, Step(p, s, LogWrite(op, at, data)).value)
  {
    var s' := Step(p, s, LogWrite(op, at, data)).value;
    RunningWrite(p, Committed(p, init, s), s, op, at, data);
    assert s'.groups == s.groups;
    hide RunningOk, Durable;
  }

  lemma RunningWrite(p: Params, base: Image, s: State, op: Op, at: nat, data: Block)
    requires s.phase.Running? && CacheOk(p, s) && RunningOk(p, base, s)
    requires Enabled(p, s, LogWrite(op, at, data)) && HasRoom(p, s, LogWrite(op, at, data))
    ensures var s' := Step(p, s, LogWrite(op, at, data)).value;
            CacheOk(p, s') && RunningOk(p, base, s')
  {
    ElemsAbsorb(s.lh, at);
    Append(base, s.current, OpWrite(op, at, data));
    ViewWrite(p, base, s, OpWrite(op, at, data));
  }

  /** The last operation out starts the commit. */
  lemma StartCommit(p: Params, init: Image, s: State, s': State)
    requires WellFormed(p, init) && Inv(p, init, s) && s.phase.Running?
    requires s' == s.(active := map[], phase := Committing(s.disk, View(s.disk, s.cache), 0))
    ensures CommittingOk(p, Committed(p, init, s'), s')
  {
    var view := View(s.disk, s.cache);
    forall i | 0 <= i < |s.lh| ensures s.lh[i] in view && s.lh[i] in Elems(s.lh) {
    }
    assert CommitWrites(p, s.disk, s.lh, view)[..0] == [];
    hide Durable, WellFormed, Recover, Decode, IsHeader;
  }

  /** While an operation is active the system runs. */
  lemma ActiveRuns(p: Params, init: Image, s: State)
    requires WellFormed(p, init) && Inv(p, init, s) && s.active != map[]
    ensures s.phase.Running? && Durable(p, init, s) && CacheOk(p, s)
    ensures RunningOk(p, Committed(p, init, s), s)
  {
    hide Durable, CacheOk, RunningOk, CommitHistory;
  }

  /** What holds of the disk, the cache and the open transaction does not depend on who is active. */
  lemma ActiveFree(p: Params, init: Image, s: State, s': State)
    requires WellFormed(p, init) && Durable(p, init, s) && CacheOk(p, s)
    requires RunningOk(p, Committed(p, init, s), s)
    requires s' == s.(active := s'.active, phase := s'.phase)
    ensures Durable(p, init, s') && CacheOk(p, s') && RunningOk(p, Committed(p, init, s'), s')
  {
    hide Recover, WellFormed, LogOk, SameHome;
  }

  lemma EndInv(p: Params, init: Image, s: State, op: Op)
    requires WellFormed(p, init) && Inv(p, init, s) && Enabled(p, s, End(op))
    ensures Inv(p, init, Step(p, s, End(op)).value)
  {
    var s' := Step(p, s, End(op)).value;
    ActiveRuns(p, init, s);
    if s'.phase.Committing? { StartCommit(p, init, s, s'); }
    hide Durable, CacheOk, RunningOk, CommittingOk, RecoveringOk, WellFormed;
    ActiveFree(p, init, s, s');
  }

  lemma CrashInv(p: Params, init: Image, s: State)
    requires WellFormed(p, init) && Inv(p, init, s)
    ensures Inv(p, init, Step(p, s, Crash).value)
  {
    assert RecoverWrites(p, s.disk)[..0] == [];
  }

  /** Only the set of cached clean blocks changes. */
  lemma CleanCacheInv(p: Params, init: Image, s: State, cache: Image)
    requires WellFormed(p, init) && Inv(p, init, s)
    requires s.dirty <= cache.Keys <= s.disk.Keys
    requires forall b | b in cache :: cache[b] == Read(s.disk, s.cache, b)
    ensures Inv(p, init, s.(cache := cache))
  {
    var s' := s.(cache := cache);
    assert Durable(p, init, s');
    assert Committed(p, init, s') == Committed(p, init, s);
    hide Durable, WellFormed, Committed;
    CleanCache(p, s, cache);
    match s.phase
    case Running => CleanRunning(p, Committed(p, init, s), s, cache);
    case Committing(_, _, _) => CleanCommitting(p, Committed(p, init, s), s, cache);
    case Recovering(_, _) =>
  }

  lemma CleanCache(p: Params, s: State, cache: Image)
    requires CacheOk(p, s) && s.dirty <= cache.Keys <= s.disk.Keys
    requires forall b | b in cache :: cache[b] == Read(s.disk, s.cache, b)
    ensures CacheOk(p, s.(cache := cache)) && View(s.disk, cache) == View(s.disk, s.cache)
  {
  }

  lemma CleanRunning(p: Params, base: Image, s: State, cache: Image)
    requires RunningOk(p, base, s) && View(s.disk, cache) == View(s.disk, s.cache)
    ensures RunningOk(p, base, s.(cache := cache))
  {
    hide LogOk, SameHome, Replay, View;
  }

  lemma CleanCommitting(p: Params, base: Image, s: State, cache: Image)
    requires s.phase.Committing? && CommittingOk(p, base, s) && s.dirty <= cache.Keys <= s.disk.Keys
    requires forall b | b in cache :: cache[b] == Read(s.disk, s.cache, b)
    ensures CommittingOk(p, base, s.(cache := cache))
  {
    hide LogOk, SameHome, Replay, CommitWrites, Apply, Target, Pinned;
  }

  lemma RecoverStepIs(p: Params, s: State)
    requires s.phase.Recovering? && WellFormed(p, s.phase.before)
    requires s.phase.done < |RecoverWrites(p, s.phase.before)|
    ensures var w := RecoverWrites(p, s.phase.before)[s.phase.done];
            RecoverStep(p, s) == s.(disk := s.disk[w.at := w.data], cache := s.cache[w.at := w.data],
                                    dirty := s.dirty - {w.at},
                                    phase := Recovering(s.phase.before, s.phase.done + 1))
  {
    hide RecoverWrites, WellFormed;
  }

  /** The disk after one more write of a recovery, and what recovery would make of it. */
  lemma RecoverDisk(p: Params, before: Image, k: nat)
    requires WellFormed(p, before) && k < |RecoverWrites(p, before)|
    ensures var ws := RecoverWrites(p, before);
            var d, e := Apply(before, ws[..k]), Apply(before, ws[..k + 1]);
            && d.Keys == e.Keys == before.Keys && ws[k].at in before
            && e == d[ws[k].at := ws[k].data] && WellFormed(p, d) && WellFormed(p, e)
            && Recover(p, d) == Recover(p, e) == Recover(p, before)
  {
    var ws := RecoverWrites(p, before);
    RecoverAfterPartial(p, before, k);
    RecoverAfterPartial(p, before, k + 1);
    RecoverKeys(p, before, k);
    forall b | b in Targets(ws[..k]) || b in Targets(ws[..k + 1]) ensures b in before {
      var i: nat :| i < k + 1 && ws[i].at == b;
      RecoverKeys(p, before, i);
    }
    ApplyFrame(before, ws[..k]);
    ApplyFrame(before, ws[..k + 1]);
    hide WellFormed, RecoverWrites, Recover, Apply, Targets;
    ProgressStep(before, [], ws, k);
  }

  lemma RecoverStepInv(p: Params, init: Image, s: State)
    requires WellFormed(p, init) && Inv(p, init, s) && s.phase.Recovering?
    requires s.phase.done < |RecoverWrites(p, s.phase.before)|
    ensures Inv(p, init, RecoverStep(p, s))
  {
    var Recovering(before, done) := s.phase;
    var w := RecoverWrites(p, before)[done];
    RecoverStepIs(p, s);
    RecoverDisk(p, before, done);
    hide WellFormed, RecoverWrites, RecoverStep, Recover, Apply, SameHome;
    DirtyOk(p, s, RecoverStep(p, s), w);
    hide CacheOk;
  }

  lemma RecoverEndInv(p: Params, init: Image, s: State)
    requires WellFormed(p, init) && Inv(p, init, s) && s.phase.Recovering?
    requires s.phase.done >= |RecoverWrites(p, s.phase.before)|
    ensures Inv(p, init, RecoverStep(p, s))
  {
    var Recovering(before, done) := s.phase;
    var ws := RecoverWrites(p, before);
    assert ws[..done] == ws;
    RecoverResult(p, before);
    EmptyLog(p, s.disk);
  }

  lemma RecoverKeys(p: Params, d: Image, k: nat)
    requires WellFormed(p, d) && k < |RecoverWrites(p, d)|
    ensures RecoverWrites(p, d)[k].at in d
  {
    var lh := Decode(d[p.start]);
    if k < |lh| { assert RecoverWrites(p, d)[k].at == lh[k]; }
  }

  // ---------- the steps of a commit ----------

  /** The disk writes of a commit, by position. */
  lemma CommitWriteAt(p: Params, d: Image, lh: seq<nat>, view: Image, k: nat)
    requires LogOk(p, d, lh) && Covers(view, lh)
    requires k < |CommitWrites(p, d, lh, view)|
    ensures var ws := CommitWrites(p, d, lh, view);
            && |ws| == 2 * |lh| + 2 && ws[k].at in d
            && (k < |lh| ==> ws[k].at == p.Slot(k))
            && (k == |lh| || k == 2 * |lh| + 1 ==> ws[k].at == p.start)
            && (|lh| < k <= 2 * |lh| ==> ws[k] == Write(lh[k - |lh| - 1], view[lh[k - |lh| - 1]]))
  {
  }

  lemma UnpinOne(lh: seq<nat>, done: nat)
    requires Distinct(lh) && |lh| < done <= 2 * |lh|
    ensures Pinned(lh, done + 1) == Pinned(lh, done) - {lh[done - |lh| - 1]}
  {
    var j := done - |lh| - 1;
    var a, c := lh[j..], lh[j + 1..];
    forall b | b in Elems(a) && b != lh[j] ensures b in Elems(c) {
      var i :| 0 <= i < |a| && a[i] == b;
      assert c[i - 1] == b;
    }
    forall b | b in Elems(c) ensures b in Elems(a) && b != lh[j] {
      var i :| 0 <= i < |c| && c[i] == b;
      assert a[i + 1] == b && lh[j + 1 + i] == b;
    }
    if done == 2 * |lh| { assert c == []; }
  }

  /** The disk after one more write of the commit, and what recovery would make of it. */
  lemma CommitDisk(p: Params, before: Image, lh: seq<nat>, view: Image, k: nat)
    requires LogOk(p, before, lh) && Covers(view, lh)
    requires k <= |CommitWrites(p, before, lh, view)|
    ensures var d := Apply(before, CommitWrites(p, before, lh, view)[..k]);
            && WellFormed(p, d) && d.Keys == before.Keys
            && SameHome(p, Recover(p, d), if k > |lh| then Target(before, lh, view) else before)
  {
    var d := Apply(before, CommitWrites(p, before, lh, view)[..k]);
    CommitCrashAtomic(p, before, lh, view, k);
    RecoverResult(p, d);
  }

  /** What the next write of a commit needs: the disk so far. */
  ghost predicate MidCommit(p: Params, s: State) {
    && s.phase.Committing? && LogOk(p, s.phase.before, s.lh) && Covers(s.phase.view, s.lh)
    && var ws := CommitWrites(p, s.phase.before, s.lh, s.phase.view);
    && s.phase.done < |ws| && s.disk == Apply(s.phase.before, ws[..s.phase.done])
  }

  /** The fields after one write of a commit. */
  lemma CommitStepIs(p: Params, s: State)
    requires MidCommit(p, s)
    ensures var s', ws := CommitStep(p, s), CommitWrites(p, s.phase.before, s.lh, s.phase.view);
            var w := ws[s.phase.done];
            && s'.disk == s.disk[w.at := w.data] && s'.cache == s.cache[w.at := w.data]
            && s'.dirty == s.dirty - {w.at} && s'.lh == s.lh && s'.active == s.active
            && s'.phase == Committing(s.phase.before, s.phase.view, s.phase.done + 1)
  {
    hide CommitWrites, Apply, LogOk;
  }

  lemma DirtyOk(p: Params, s: State, s': State, w: Write)
    requires CacheOk(p, s) && w.at in s.disk
    requires s'.disk == s.disk[w.at := w.data] && s'.cache == s.cache[w.at := w.data]
    requires s'.dirty == s.dirty - {w.at}
    ensures CacheOk(p, s')
    ensures forall b | b in s'.dirty :: b in s'.cache && s'.cache[b] == s.cache[b]
  {
  }

  /** Each write of a commit leaves pinned what is not installed yet. */
  lemma PinnedNext(p: Params, before: Image, lh: seq<nat>, view: Image, k: nat)
    requires LogOk(p, before, lh) && Covers(view, lh) && k < |CommitWrites(p, before, lh, view)|
    ensures var w := CommitWrites(p, before, lh, view)[k];
            w.at in before && Pinned(lh, k + 1) == Pinned(lh, k) - {w.at}
  {
    CommitWriteAt(p, before, lh, view, k);
    if k == |lh| { assert lh[0..] == lh; }
    if |lh| < k <= 2 * |lh| { UnpinOne(lh, k); }
  }

  lemma CommitStepCache(p: Params, s: State)
    requires MidCommit(p, s) && CacheOk(p, s) && s.dirty == Pinned(s.lh, s.phase.done)
    requires s.disk.Keys == s.phase.before.Keys
    ensures var s' := CommitStep(p, s);
            && CacheOk(p, s') && s'.dirty == Pinned(s.lh, s.phase.done + 1)
            && (forall b | b in s'.dirty :: b in s'.cache && s'.cache[b] == s.cache[b])
  {
    CommitStepIs(p, s);
    hide CommitWrites, CommitStep, Pinned, CacheOk, LogOk, Apply;
    var Committing(before, view, done) := s.phase;
    var w := CommitWrites(p, before, s.lh, view)[done];
    PinnedNext(p, before, s.lh, view, done);
    DirtyOk(p, s, CommitStep(p, s), w);
  }

  lemma CommitStepDisk(p: Params, s: State)
    requires MidCommit(p, s)
    ensures var s', Committing(before, view, done) := CommitStep(p, s), s.phase;
            && s.disk.Keys == before.Keys == s'.disk.Keys
            && s'.disk == Apply(before, CommitWrites(p, before, s.lh, view)[..done + 1])
            && WellFormed(p, s'.disk)
            && SameHome(p, Recover(p, s'.disk),
                        if done >= |s.lh| then Target(before, s.lh, view) else before)
  {
    CommitStepIs(p, s);
    hide WellFormed, Target, Recover, SameHome, CommitWrites, CommitStep, Apply, LogOk;
    var Committing(before, view, done) := s.phase;
    var ws := CommitWrites(p, before, s.lh, view);
    CommitDisk(p, before, s.lh, view, done);
    CommitDisk(p, before, s.lh, view, done + 1);
    ProgressStep(before, [], ws, done);
    assert CommitStep(p, s).disk == Apply(before, ws[..done + 1]);
  }

  lemma CommitStepHistory(p: Params, init: Image, s: State)
    requires WellFormed(p, init) && MidCommit(p, s)
    requires CommitHistory(p, Committed(p, init, s), s)
    ensures var s', Committing(before, view, done) := CommitStep(p, s), s.phase;
            && CommitHistory(p, Committed(p, init, s'), s')
            && SameHome(p, if done >= |s.lh| then Target(before, s.lh, view) else before,
                        Committed(p, init, s'))
  {
    var s' := CommitStep(p, s);
    if s.phase.done == |s.lh| {
      assert s'.groups[..|s.groups|] == s.groups;
      assert Committed(p, init, s') == Replay(Committed(p, init, s), s.current);
    }
  }

  lemma SameHomeTrans(p: Params, a: Image, b: Image, c: Image)
    requires SameHome(p, a, b) && SameHome(p, b, c)
    ensures SameHome(p, a, c)
  {
  }

  /** What a state in the middle of a commit gives. */
  lemma CommitParts(p: Params, init: Image, s: State)
    requires WellFormed(p, init) && Inv(p, init, s) && s.phase.Committing?
    requires s.phase.done < |CommitWrites(p, s.phase.before, s.lh, s.phase.view)|
    ensures MidCommit(p, s) && CommitHistory(p, Committed(p, init, s), s) && CacheOk(p, s)
    ensures s.active == map[] && s.dirty == Pinned(s.lh, s.phase.done) && s.disk.Keys == init.Keys
    ensures forall b | b in s.dirty :: b in s.cache && b in s.phase.view && s.cache[b] == s.phase.view[b]
  {
    hide LogOk, CommitHistory, CacheOk, SameHome, CommitWrites, Apply;
  }

  /** One more write leaves a state in the middle of a commit, or at its end. */
  lemma CommitStepOk(p: Params, s: State, base: Image)
    requires MidCommit(p, s) && CacheOk(p, s) && s.active == map[]
    requires s.dirty == Pinned(s.lh, s.phase.done) && s.disk.Keys == s.phase.before.Keys
    requires forall b | b in s.dirty :: b in s.cache && b in s.phase.view && s.cache[b] == s.phase.view[b]
    requires CommitStep(p, s).disk
      == Apply(s.phase.before, CommitWrites(p, s.phase.before, s.lh, s.phase.view)[..s.phase.done + 1])
    requires CommitStep(p, s).phase.Committing? && CommitStep(p, s).phase.view == s.phase.view
    requires CommitStep(p, s).lh == s.lh && CommitHistory(p, base, CommitStep(p, s))
    ensures CommittingOk(p, base, CommitStep(p, s)) && CacheOk(p, CommitStep(p, s))
  {
    CommitStepIs(p, s);
    CommitStepCache(p, s);
    hide CommitStep, LogOk, CommitHistory, CacheOk, CommitWrites, Apply, Pinned;
    var s' := CommitStep(p, s);
    forall b | b in s'.dirty ensures b in s'.cache && b in s.phase.view && s'.cache[b] == s.phase.view[b] {
      assert b in s.dirty;
    }
  }

  lemma CommitStepInv(p: Params, init: Image, s: State)
    requires WellFormed(p, init) && Inv(p, init, s) && s.phase.Committing?
    requires s.phase.done < |CommitWrites(p, s.phase.before, s.lh, s.phase.view)|
    ensures Inv(p, init, CommitStep(p, s))
  {
    CommitParts(p, init, s);
    CommitStepIs(p, s);
    hide Inv, LogOk, CommitHistory, CacheOk, CommitWrites, Apply, Target, SameHome, Recover, WellFormed;
    CommitStepDisk(p, s);
    CommitStepHistory(p, init, s);
    var s' := CommitStep(p, s);
    CommitStepOk(p, s, Committed(p, init, s'));
    var Committing(before, view, done) := s.phase;
    var mid := if done >= |s.lh| then Target(before, s.lh, view) else before;
    SameHomeTrans(p, Recover(p, s'.disk), mid, Committed(p, init, s'));
    CommittingInv(p, init, s');
  }

  lemma CommittingInv(p: Params, init: Image, s: State)
    requires WellFormed(p, init) && s.phase.Committing? && s.disk.Keys == init.Keys
    requires WellFormed(p, s.disk) && SameHome(p, Recover(p, s.disk), Committed(p, init, s))
    requires CacheOk(p, s) && CommittingOk(p, Committed(p, init, s), s)
    ensures Inv(p, init, s)
  {
    hide CacheOk, CommittingOk, WellFormed, SameHome;
  }

  lemma CommitEndInv(p: Params, init: Image, s: State)
    requires WellFormed(p, init) && Inv(p, init, s) && s.phase.Committing?
    requires s.phase.done >= |CommitWrites(p, s.phase.before, s.lh, s.phase.view)|
    ensures Inv(p, init, CommitStep(p, s))
  {
    CommittingParts(p, init, s);
    CommitEndRunning(p, Committed(p, init, s), s);
    var s' := s.(phase := Running, lh := []);
    assert CommitStep(p, s) == s';
    hide CommitStep, CommittingOk, RunningOk, CommitWrites;
    SameDurable(p, init, s, s');
    assert CacheOk(p, s');
    hide Durable, CacheOk, Committed;
  }

  lemma CommittingParts(p: Params, init: Image, s: State)
    requires WellFormed(p, init) && Inv(p, init, s) && s.phase.Committing?
    ensures Durable(p, init, s) && CacheOk(p, s) && CommittingOk(p, Committed(p, init, s), s)
  {
    hide Durable, CacheOk, CommittingOk, Committed;
  }

  /** What is durable depends on the disk and the committed transactions only. */
  lemma SameDurable(p: Params, init: Image, s: State, s': State)
    requires WellFormed(p, init) && Durable(p, init, s)
    requires s'.disk == s.disk && s'.groups == s.groups
    ensures Durable(p, init, s') && Committed(p, init, s') == Committed(p, init, s)
  {
    hide SameHome;
  }

  /** After the last write of a commit nothing is pinned and the disk holds what was committed. */
  lemma CommitEndRunning(p: Params, base: Image, s: State)
    requires s.phase.Committing? && CommittingOk(p, base, s) && CacheOk(p, s)
    requires s.phase.done >= |CommitWrites(p, s.phase.before, s.lh, s.phase.view)|
    ensures RunningOk(p, base, s.(phase := Running, lh := []))
  {
    CommitEndDisk(p, base, s);
    hide LogOk, CommittingOk, CommitWrites;
    CommitEndHome(p, base, s);
    hide CommitHistory;
    assert View(s.disk, s.cache) == s.disk;
    assert Elems([]) == {};
    hide SameHome;
  }

  lemma CommitEndDisk(p: Params, base: Image, s: State)
    requires s.phase.Committing? && CommittingOk(p, base, s)
    requires s.phase.done >= |CommitWrites(p, s.phase.before, s.lh, s.phase.view)|
    ensures LogOk(p, s.disk, []) && s.disk.Keys == s.phase.before.Keys && s.dirty == {}
    ensures Covers(s.phase.view, s.lh) && CommitHistory(p, base, s)
    ensures s.phase.done == if s.lh == [] then 0 else 2 * |s.lh| + 2
    ensures forall b | b in s.disk && p.Home(b) ::
              s.disk[b] == if b in Elems(s.lh) then s.phase.view[b] else s.phase.before[b]
  {
    var Committing(before, view, done) := s.phase;
    var ws := CommitWrites(p, before, s.lh, view);
    assert ws[..done] == ws;
    CommitComplete(p, before, s.lh, view);
    CommitLength(p, before, s.lh, view);
    hide Apply, Decode, CommitWrites, CommitHistory, IsHeader;
  }

  lemma CommitLength(p: Params, before: Image, lh: seq<nat>, view: Image)
    requires WellFormed(p, before) && |lh| < WORDS && Covers(view, lh)
    ensures |CommitWrites(p, before, lh, view)| == if lh == [] then 0 else 2 * |lh| + 2
  {
  }

  lemma CommitEndHome(p: Params, base: Image, s: State)
    requires s.phase.Committing? && Covers(s.phase.view, s.lh) && CommitHistory(p, base, s)
    requires s.disk.Keys == s.phase.before.Keys
    requires s.phase.done == if s.lh == [] then 0 else 2 * |s.lh| + 2
    requires forall b | b in s.disk && p.Home(b) ::
               s.disk[b] == if b in Elems(s.lh) then s.phase.view[b] else s.phase.before[b]
    ensures s.current == [] && SameHome(p, base, s.disk)
  {
    NonEmptyBlocks(s.current);
    hide Blocks;
  }

  lemma LoadInv(p: Params, init: Image, s: State, at: nat)
    requires WellFormed(p, init) && Inv(p, init, s) && Enabled(p, s, Load(at))
    ensures Inv(p, init, s.(cache := s.cache[at := s.disk[at]]))
  {
    CleanCacheInv(p, init, s, s.cache[at := s.disk[at]]);
  }

  lemma EvictInv(p: Params, init: Image, s: State, at: nat)
    requires WellFormed(p, init) && Inv(p, init, s) && Enabled(p, s, Evict(at))
    ensures Inv(p, init, s.(cache := s.cache - {at}))
  {
    CleanCacheInv(p, init, s, s.cache - {at});
  }

  lemma NotStuck(p: Params, init: Image, s: State)
    requires WellFormed(p, init) && Inv(p, init, s)
    ensures s.phase.Recovering? ==> WellFormed(p, s.phase.before)
    ensures s.phase.Committing? ==> Committable(p, s.phase.before, s.phase.view, s.lh)
  {
  }

  lemma DiskStepInv(p: Params, init: Image, s: State)
    requires WellFormed(p, init) && Inv(p, init, s) && !s.phase.Running?
    ensures Step(p, s, DiskStep).Some? && Inv(p, init, Step(p, s, DiskStep).value)
  {
    hide Inv, CommitStep, RecoverStep, Committable, WellFormed, RecoverWrites, CommitWrites;
    NotStuck(p, init, s);
    if s.phase.Recovering? {
      if s.phase.done < |RecoverWrites(p, s.phase.before)| {
        RecoverStepInv(p, init, s);
      } else {
        RecoverEndInv(p, init, s);
      }
    } else if s.phase.done < |CommitWrites(p, s.phase.before, s.lh, s.phase.view)| {
      CommitStepInv(p, init, s);
    } else {
      CommitEndInv(p, init, s);
    }
  }

  /** No enabled step with room for its block is ever stuck, and every step keeps the invariant. */
  lemma StepInv(p: Params, init: Image, s: State, e: Event)
    requires WellFormed(p, init) && Inv(p, init, s) && Enabled(p, s, e) && HasRoom(p, s, e)
    ensures Step(p, s, e).Some? && Inv(p, init, Step(p, s, e).value)
  {
    hide Inv;
    match e
    case Begin(op) => BeginInv(p, init, s, op);
    case Test(op) => TestInv(p, init, s, op);
    case LogWrite(op, at, data) => LogWriteInv(p, init, s, op, at, data);
    case End(op) => EndInv(p, init, s, op);
    case DiskStep => DiskStepInv(p, init, s);
    case Load(at) => LoadInv(p, init, s, at);
    case Evict(at) => EvictInv(p, init, s, at);
    case Crash => CrashInv(p, init, s);
  }

  lemma {:induction false} ExecInv(p: Params, init: Image, es: seq<Event>)
    requires WellFormed(p, init) && Exec(p, Boot(init), es).Some? && Roomy(p, init, es)
    ensures Inv(p, init, Exec(p, Boot(init), es).value)
    decreases |es|
  {
    hide Inv;
    if es == [] {
      BootInv(p, init);
    } else {
      var front := es[..|es| - 1];
      ExecInv(p, init, front);
      StepInv(p, init, Exec(p, Boot(init), front).value, es[|es| - 1]);
    }
  }
}
