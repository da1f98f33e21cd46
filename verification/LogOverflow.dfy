/** How large the log area must be. `log_write` tests for room before it takes the lock, and `mkfs`
makes the area LOGSIZE blocks, header included: the runs that show what this costs, and the exact
conditions under which the log keeps its promises. */
module LogOverflow {
  import opened Common
  import opened Disk
  import opened Log
  import opened LogCode
  import opened LogRuns
  import opened LogTheorems

  // ---------- building runs ----------

  /** A run within budget that ends in `s`. */
  ghost predicate Reaches(p: Params, init: Image, es: seq<Event>, s: State) {
    Exec(p, Boot(init), es) == Some(s) && InBudgetRun(p, init, es)
  }

  lemma Go(p: Params, init: Image, es: seq<Event>, s: State, e: Event)
    requires Reaches(p, init, es, s) && Step(p, s, e).Some? && WriteInBudget(p, s, e)
    ensures Reaches(p, init, es + [e], Step(p, s, e).value)
  {
    assert (es + [e])[..|es|] == es;
  }

  /** The disk after booting with an empty log. */
  function Clean(p: Params, init: Image): Image
    requires WellFormed(p, init)
  {
    init[p.start := Encode(init[p.start], [])]
  }

  lemma BootRun(p: Params, init: Image) returns (es: seq<Event>, s: State)
    requires WellFormed(p, init) && Decode(init[p.start]) == []
    ensures Reaches(p, init, es, s)
    ensures s == Boot(init).(disk := Clean(p, init), phase := Running, cache := s.cache)
  {
    es, s := [], Boot(init);
    assert Reaches(p, init, es, s);
    assert RecoverWrites(p, init) == [Write(p.start, Encode(init[p.start], []))];
    hide Reaches, Encode, Decode, WellFormed, RecoverWrites;
    Go(p, init, es, s, DiskStep);
    es, s := es + [DiskStep], Step(p, s, DiskStep).value;
    Go(p, init, es, s, DiskStep);
    es, s := es + [DiskStep], Step(p, s, DiskStep).value;
  }

  /** `c` operations are active; the log holds `q` blocks of each and one more of the first `r`. */
  ghost predicate Filled(p: Params, init: Image, s: State, h: nat, c: nat, q: nat, r: nat)
    requires WellFormed(p, init)
  {
    && s.phase.Running? && s.cleared == {} && s.groups == [] && s.disk == Clean(p, init)
    && |s.lh| == q * c + r && (forall i | 0 <= i < |s.lh| :: s.lh[i] < h + |s.lh|)
    && (forall i | 0 <= i < |s.lh| :: s.lh[i] in init)
    && (forall o: nat :: o in s.active <==> o < c) && s.active.Keys == s.seen
    && (forall o: nat | o < c :: s.active[o] == q + if o < r then 1 else 0)
  }

  lemma {:induction false} KeysBelow(k: nat, m: map<Op, nat>)
    requires forall op: nat :: op in m <==> op < k
    ensures |m| == k
  {
    if k == 0 {
      assert m == map[];
    } else {
      KeysBelow(k - 1, m - {k - 1});
      RemoveSize(m, k - 1);
    }
  }

  lemma BootFilled(p: Params, init: Image, s: State, h: nat)
    requires WellFormed(p, init)
    requires s == Boot(init).(disk := Clean(p, init), phase := Running, cache := s.cache)
    ensures Filled(p, init, s, h, 0, 0, 0)
  {
    hide WellFormed, Clean;
  }

  lemma BeginNext(p: Params, init: Image, s: State, h: nat, k: nat)
    requires WellFormed(p, init) && Filled(p, init, s, h, k, 0, 0) && (k + 1) * p.maxop <= p.logsize
    ensures var s' := s.(active := s.active[k := 0], seen := s.seen + {k});
            Step(p, s, Begin(k)) == Some(s') && Filled(p, init, s', h, k + 1, 0, 0)
  {
    KeysBelow(k, s.active);
    assert |s.lh| == 0;
    hide WellFormed, Clean;
  }

  lemma {:induction false} BeginRun(p: Params, init: Image, h: nat, k: nat) returns (es: seq<Event>, s: State)
    requires WellFormed(p, init) && Decode(init[p.start]) == [] && k * p.maxop <= p.logsize
    ensures Reaches(p, init, es, s) && Filled(p, init, s, h, k, 0, 0)
    decreases k
  {
    hide Reaches, WellFormed, Filled, Step, Boot, Encode, Decode;
    if k == 0 {
      es, s := BootRun(p, init);
      BootFilled(p, init, s, h);
    } else {
      MulSucc(k - 1, p.maxop);
      es, s := BeginRun(p, init, h, k - 1);
      BeginNext(p, init, s, h, k - 1);
      Go(p, init, es, s, Begin(k - 1));
      es, s := es + [Begin(k - 1)], Step(p, s, Begin(k - 1)).value;
    }
  }

  /** The two halves of a `log_write` of a fresh block. */
  lemma TestRun(p: Params, init: Image, es: seq<Event>, s: State, op: Op)
    requires Reaches(p, init, es, s) && op in s.active && op !in s.cleared && Fits(p, |s.lh|)
    ensures Reaches(p, init, es + [Test(op)], s.(cleared := s.cleared + {op}))
  {
    hide Reaches;
    Go(p, init, es, s, Test(op));
  }

  function Appended(s: State, op: Op, at: nat, data: Block): State
    requires op in s.active
  {
    var w := OpWrite(op, at, data);
    s.(cache := s.cache[at := data], dirty := s.dirty + {at}, lh := s.lh + [at],
       active := s.active[op := s.active[op] + 1], cleared := s.cleared - {op},
       current := s.current + [w], issued := s.issued + [w])
  }

  lemma AppendRun(p: Params, init: Image, es: seq<Event>, s: State, op: Op, at: nat, data: Block)
    requires Reaches(p, init, es, s) && op in s.active && op in s.cleared && s.active[op] < p.maxop
    requires at in s.disk && p.Home(at) && at !in s.lh
    ensures Reaches(p, init, es + [LogWrite(op, at, data)], Appended(s, op, at, data))
  {
    hide Reaches;
    Go(p, init, es, s, LogWrite(op, at, data));
  }

  lemma TurnBudget(c: nat, maxop: nat, q: nat, r: nat)
    requires q * c + r < c * maxop
    ensures q < maxop
  {
    if q >= maxop { MulMono(maxop, q, c); }
  }

  lemma MulMono(a: nat, b: nat, m: nat)
    requires a <= b
    ensures a * m <= b * m
  {
    assert b * m == a * m + (b - a) * m;
  }

  lemma FillNext(p: Params, init: Image, s: State, h: nat, c: nat, q: nat, r: nat, data: Block)
    returns (q': nat, r': nat)
    requires WellFormed(p, init) && Filled(p, init, s, h, c, q, r) && r < c && h + |s.lh| in init
    ensures r in s.active && q' * c + r' == |s.lh| + 1 && r' < c
    ensures Filled(p, init, Appended(s.(cleared := {r}), r, h + |s.lh|, data), h, c, q', r')
  {
    hide WellFormed, Clean;
    var s' := Appended(s.(cleared := {r}), r, h + |s.lh|, data);
    assert s'.active.Keys == s.active.Keys && s'.cleared == {};
    if r + 1 < c {
      q', r' := q, r + 1;
    } else {
      MulSucc(q, c);
      q', r' := q + 1, 0;
    }
  }

  /** The operations fill the log in turn, one block at a time, up to `k` blocks. */
  lemma {:induction false} FillRun(p: Params, init: Image, h: nat, c: nat, k: nat)
    returns (es: seq<Event>, s: State, q: nat, r: nat)
    requires WellFormed(p, init) && Decode(init[p.start]) == [] && c >= 1
    requires p.logsize == c * p.maxop && k <= p.logsize && k < p.size
    requires forall b | h <= b < h + p.logsize :: b in init && p.Home(b)
    ensures Reaches(p, init, es, s) && Filled(p, init, s, h, c, q, r) && q * c + r == k && r < c
    decreases k
  {
    if k == 0 {
      es, s := BeginRun(p, init, h, c);
      q, r := 0, 0;
    } else {
      hide Reaches, WellFormed;
      es, s, q, r := FillRun(p, init, h, c, k - 1);
      TurnBudget(c, p.maxop, q, r);
      var op, at := r, h + k - 1;
      q, r := FillNext(p, init, s, h, c, q, r, Block([]));
      TestRun(p, init, es, s, op);
      assert s.cleared + {op} == {op};
      es, s := es + [Test(op)], s.(cleared := {op});
      AppendRun(p, init, es, s, op, at, Block([]));
      es, s := es + [LogWrite(op, at, Block([]))], Appended(s, op, at, Block([]));
    }
  }

  // ---------- refused writes ----------

  /** No run within budget refuses an operation that has budget left. */
  ghost predicate NeverTooBig(p: Params, init: Image) {
    forall es, s, op | Reaches(p, init, es, s) && op in s.active && s.active[op] < p.maxop ::
      Fits(p, |s.lh|)
  }

  /** With LOGSIZE a multiple of MAXOPBLOCKS, an operation that has budget left is never refused
  exactly when the log area has more than LOGSIZE blocks. */
  lemma ReservationIff(p: Params, init: Image, h: nat, c: nat)
    requires WellFormed(p, init) && Decode(init[p.start]) == []
    requires p.maxop >= 1 && p.logsize == c * p.maxop && c >= 1
    requires forall b | h <= b < h + p.logsize :: b in init && p.Home(b)
    ensures NeverTooBig(p, init) <==> p.size > p.logsize
  {
    if p.size > p.logsize {
      forall es, s, op | Reaches(p, init, es, s) && op in s.active && s.active[op] < p.maxop
        ensures Fits(p, |s.lh|)
      {
        ReservationHolds(p, init, es, op, 0);
      }
    } else {
      var es, s, q, r := FillRun(p, init, h, c, p.size - 1);
      TurnBudget(c, p.maxop, q, r);
      hide Reaches;
      assert r in s.active && s.active[r] < p.maxop && !Fits(p, |s.lh|);
    }
  }

  /** However large the area, a repeated write of a logged block is refused once the header is full:
  the test comes before the search for the block. */
  lemma RepeatedWriteRefused(p: Params, init: Image, h: nat, c: nat)
    returns (es: seq<Event>, s: State, op: Op, at: nat)
    requires WellFormed(p, init) && Decode(init[p.start]) == []
    requires p.maxop >= 1 && p.logsize == c * p.maxop && c >= 1 && p.size > p.logsize
    requires forall b | h <= b < h + p.logsize :: b in init && p.Home(b)
    ensures Reaches(p, init, es, s) && op in s.active && InBudget(p, s, op, at) && !Fits(p, |s.lh|)
  {
    var q, r;
    es, s, q, r := FillRun(p, init, h, c, p.logsize);
    MulMono(1, c, p.maxop);
    op, at := 0, s.lh[0];
  }

  // ---------- a run that overflows the area ----------

  lemma LastTwo(c: nat, maxop: nat, q: nat, r: nat)
    requires c >= 2 && r < c && q * c + r + 2 <= c * maxop
    ensures q < maxop && (c - 2 < r ==> q + 1 < maxop)
  {
    TurnBudget(c, maxop, q, r);
    MulSucc(q, c);
    if c - 2 < r { TurnBudget(c, maxop, q + 1, 0); }
  }

  /** The log is one block longer than its area, although nobody exceeded a budget. */
  ghost predicate Overfull(p: Params, init: Image, s: State, c: nat, data: Block)
    requires WellFormed(p, init)
  {
    && s.phase.Running? && s.cleared == {} && s.groups == [] && s.disk == Clean(p, init)
    && |s.lh| == p.size && (forall i | 0 <= i < |s.lh| :: s.lh[i] in init)
    && s.lh[p.size - 1] in s.cache && s.cache[s.lh[p.size - 1]] == data
    && (forall o: nat :: o in s.active <==> o < c)
  }

  lemma OverfullNow(p: Params, init: Image, s: State, h: nat, c: nat, q: nat, r: nat, data: Block)
    requires WellFormed(p, init) && Filled(p, init, s, h, c, q, r) && c >= 2 && r < c
    requires |s.lh| == p.size - 2 && h + p.size - 2 in init && h + p.size - 1 in init
    ensures c - 2 in s.active && c - 1 in s.active
    ensures var t := Appended(s.(cleared := {c - 2, c - 1}), c - 2, h + p.size - 2, Block([]));
            c - 1 in t.active && t.active[c - 1] == s.active[c - 1] && t.cleared == {c - 1}
            && Overfull(p, init, Appended(t, c - 1, h + p.size - 1, data), c, data)
  {
    hide WellFormed, Clean;
  }

  /** Two operations test for the one slot that is left, and then both record a block. */
  lemma BothTest(p: Params, init: Image, h: nat, c: nat, data: Block) returns (es: seq<Event>, s: State)
    requires WellFormed(p, init) && Decode(init[p.start]) == []
    requires c >= 2 && p.logsize == c * p.maxop && 2 <= p.size <= p.logsize
    requires forall b | h <= b < h + p.logsize :: b in init && p.Home(b)
    ensures Reaches(p, init, es, s) && Overfull(p, init, s, c, data)
  {
    hide Reaches, WellFormed, Overfull;
    var q, r;
    es, s, q, r := FillRun(p, init, h, c, p.size - 2);
    LastTwo(c, p.maxop, q, r);
    OverfullNow(p, init, s, h, c, q, r, data);
    var a, b, x, y := c - 2, c - 1, h + p.size - 2, h + p.size - 1;
    TestRun(p, init, es, s, a);
    es, s := es + [Test(a)], s.(cleared := {} + {a});
    TestRun(p, init, es, s, b);
    assert {} + {a} + {b} == {a, b};
    es, s := es + [Test(b)], s.(cleared := {a, b});
    AppendRun(p, init, es, s, a, x, Block([]));
    es, s := es + [LogWrite(a, x, Block([]))], Appended(s, a, x, Block([]));
    AppendRun(p, init, es, s, b, y, data);
    es, s := es + [LogWrite(b, y, data)], Appended(s, b, y, data);
  }

  /** The operations end; the last one starts the commit. */
  lemma {:induction false} EndRun(p: Params, init: Image, es: seq<Event>, s: State, j: nat, c: nat)
    returns (es': seq<Event>, s': State)
    requires Reaches(p, init, es, s) && s.phase.Running? && s.cleared == {} && j < c
    requires forall o: nat :: o in s.active <==> j <= o < c
    ensures Reaches(p, init, es', s')
    ensures s' == s.(active := map[], phase := Committing(s.disk, View(s.disk, s.cache), 0))
    decreases c - j
  {
    hide Reaches, LogCode.View;
    Go(p, init, es, s, End(j));
    var t := Step(p, s, End(j)).value;
    if j + 1 == c {
      assert s.active - {j} == map[];
      es', s' := es + [End(j)], t;
    } else {
      assert j + 1 in s.active - {j};
      es', s' := EndRun(p, init, es + [End(j)], t, j + 1, c);
    }
  }

  /** The first writes of a commit go to the log slots. */
  lemma SlotStep(p: Params, s: State)
    requires s.phase.Committing? && Committable(p, s.phase.before, s.phase.view, s.lh)
    requires s.phase.done < |s.lh|
    ensures var w := LogWrites(p, s.lh, s.phase.view)[s.phase.done];
            Step(p, s, DiskStep) == Some(s.(
              disk := s.disk[w.at := w.data], cache := s.cache[w.at := w.data], dirty := s.dirty - {w.at},
              phase := Committing(s.phase.before, s.phase.view, s.phase.done + 1)))
  {
    var ws := CommitWrites(p, s.phase.before, s.lh, s.phase.view);
    assert s.phase.done < |ws| && ws[s.phase.done] == LogWrites(p, s.lh, s.phase.view)[s.phase.done];
    hide CommitWrites, LogWrites, WellFormed;
  }

  lemma {:induction false} SlotRun(p: Params, init: Image, es: seq<Event>, s: State, k: nat)
    returns (es': seq<Event>, s': State)
    requires Reaches(p, init, es, s) && s.phase.Committing? && s.phase.done == 0
    requires s.disk == s.phase.before && Committable(p, s.disk, s.phase.view, s.lh) && k <= |s.lh|
    ensures Reaches(p, init, es', s')
    ensures s'.groups == s.groups && s'.lh == s.lh
    ensures s'.phase == Committing(s.phase.before, s.phase.view, k)
    ensures s'.disk == Apply(s.disk, LogWrites(p, s.lh, s.phase.view)[..k])
    decreases k
  {
    if k == 0 {
      es', s' := es, s;
    } else {
      es', s' := SlotRun(p, init, es, s, k - 1);
      ProgressStep(s.disk, [], LogWrites(p, s.lh, s.phase.view), k - 1);
      SlotStep(p, s');
      hide Reaches, LogWrites, Committable, Apply, Step;
      Go(p, init, es', s', DiskStep);
      es', s' := es' + [DiskStep], Step(p, s', DiskStep).value;
    }
  }

  lemma SlotsWritten(p: Params, d: Image, lh: seq<nat>, view: Image, k: nat)
    requires Covers(view, lh) && k < |lh|
    ensures var e := Apply(d, LogWrites(p, lh, view));
            && e.Keys == d.Keys + Targets(LogWrites(p, lh, view))
            && p.Slot(k) in e && e[p.Slot(k)] == view[lh[k]]
            && (forall b | b in d && b <= p.start :: e[b] == d[b])
  {
    var ws := LogWrites(p, lh, view);
    ApplyDistinct(d, ws, k);
    ApplyFrame(d, ws);
  }

  /** What a crash during the commit of an overfull log would leave. */
  lemma CommitOverfull(p: Params, init: Image, s: State, c: nat, data: Block)
    requires WellFormed(p, init) && Decode(init[p.start]) == [] && p.size < WORDS
    requires Overfull(p, init, s, c, data) && p.start + p.size in init && data != init[p.start + p.size]
    ensures var view := View(s.disk, s.cache);
            && s.lh != [] && Committable(p, s.disk, view, s.lh)
            && var e := Apply(s.disk, LogWrites(p, s.lh, view));
            WellFormed(p, e) ==> !SameHome(p, Recover(p, e), Recover(p, init))
  {
    var view := View(s.disk, s.cache);
    RecoverResult(p, init);
    forall i | 0 <= i < |s.lh| ensures s.lh[i] in view {
      assert s.lh[i] in s.disk;
    }
    hide WellFormed, Recover;
    NotRecovered(p, init, s.disk, s.lh, view);
  }

  /** The slot past the area is a home block: it is overwritten before anything is committed, and
  recovery does not bring it back. */
  lemma OverflowRun(p: Params, init: Image, h: nat, c: nat) returns (es: seq<Event>, s: State)
    requires WellFormed(p, init) && Decode(init[p.start]) == []
    requires c >= 2 && p.logsize == c * p.maxop && 2 <= p.size <= p.logsize
    requires forall b | h <= b < h + p.logsize :: b in init && p.Home(b)
    requires p.start + p.size in init
    ensures Reaches(p, init, es, s) && !Safe(p, init, s)
  {
    var x := p.start + p.size;
    var data := if init[x] == Block([]) then Block([1]) else Block([]);
    assert p.logsize < WORDS;
    es, s := BothTest(p, init, h, c, data);
    hide Reaches, WellFormed, SameHome, Recover, Apply, LogWrites, LogCode.View, Committable;
    CommitOverfull(p, init, s, c, data);
    es, s := EndRun(p, init, es, s, 0, c);
    var lh, view := s.lh, s.phase.view;
    es, s := SlotRun(p, init, es, s, p.size);
    assert LogWrites(p, lh, view)[..p.size] == LogWrites(p, lh, view);
    assert ReplayAll(Recover(p, init), []) == Recover(p, init);
  }

  lemma NotRecovered(p: Params, init: Image, d: Image, lh: seq<nat>, view: Image)
    requires WellFormed(p, init) && Decode(init[p.start]) == [] && d == Clean(p, init)
    requires Covers(view, lh) && |lh| == p.size && p.start + p.size in init
    requires view[lh[p.size - 1]] != init[p.start + p.size]
    ensures var e := Apply(d, LogWrites(p, lh, view));
            WellFormed(p, e) ==> !SameHome(p, Recover(p, e), Recover(p, init))
  {
    var e, x := Apply(d, LogWrites(p, lh, view)), p.start + p.size;
    SlotsWritten(p, d, lh, view, p.size - 1);
    RecoverResult(p, init);
    hide LogWrites, Apply, Recover, Decode, IsHeader;
    if WellFormed(p, e) {
      RecoverResult(p, e);
      assert Recover(p, e)[x] == e[x] == view[lh[p.size - 1]];
      assert Recover(p, init)[x] == init[x] && p.Home(x);
    }
  }

  // ---------- when the log is crash-safe ----------

  /** Every state of every run within budget is safe. */
  ghost predicate AlwaysSafe(p: Params, init: Image)
    requires WellFormed(p, init)
  {
    forall es, s | Reaches(p, init, es, s) :: Safe(p, init, s)
  }

  lemma StepLogsNothing(p: Params, s: State, e: Event)
    requires p.size < 2 && s.cleared == {} && Step(p, s, e).Some?
    ensures HasRoom(p, s, e) && Step(p, s, e).value.cleared == {}
  {
    hide CommitWrites, RecoverWrites, WellFormed, Committable, LogCode.View, Absorb;
  }

  /** With an area of one block nothing passes the test, so nothing is ever logged. */
  lemma {:induction false} NothingLogged(p: Params, init: Image, es: seq<Event>)
    requires p.size < 2 && Exec(p, Boot(init), es).Some?
    ensures Roomy(p, init, es) && Exec(p, Boot(init), es).value.cleared == {}
    decreases |es|
  {
    if es != [] {
      hide Step, HasRoom;
      NothingLogged(p, init, es[..|es| - 1]);
      StepLogsNothing(p, Exec(p, Boot(init), es[..|es| - 1]).value, es[|es| - 1]);
    }
  }

  /** Crash safety of all runs within budget, for a log that several operations share: it holds
  exactly when the log area has more than LOGSIZE blocks, or too few to log anything. */
  lemma CrashSafetyIff(p: Params, init: Image, h: nat, c: nat)
    requires WellFormed(p, init) && Decode(init[p.start]) == []
    requires c >= 2 && p.logsize == c * p.maxop
    requires forall b | h <= b < h + p.logsize :: b in init && p.Home(b)
    requires p.start + p.size in init
    ensures AlwaysSafe(p, init) <==> p.size > p.logsize || p.size < 2
  {
    if p.size > p.logsize || p.size < 2 {
      forall es, s | Reaches(p, init, es, s) ensures Safe(p, init, s) {
        if p.size < 2 { NothingLogged(p, init, es); } else { InBudgetIsRoomy(p, init, es); }
        CrashSafety(p, init, es);
      }
    } else {
      var es, s := OverflowRun(p, init, h, c);
      hide Reaches, Safe;
      assert Reaches(p, init, es, s) && !Safe(p, init, s);
    }
  }
}
