/** What every interleaving of faults, forks and `sbrk` guarantees: each process sees a memory of
its own. The memory a process sees is that of a kernel without sharing or counts, in which a fork
copies page by page and only a process's own stores change its pages. */
module CowIsolation {
  import opened Common
  import opened Cow
  import opened CowRaces
  import opened CowRaceSteps
  import T = CowTheorems

  // ---------- what a process sees ----------

  /** Between lowering the count and mapping the copy, the copy is already the page. */
  predicate OnCopy(s: Kernel, x: Slot) {
    && x.pid in s.work && (s.work[x.pid].Lowered? || s.work[x.pid].Cleared?)
    && s.work[x.pid].page == x.page
  }

  predicate Has(s: Kernel, x: Slot) {
    OnCopy(s, x) || x in s.pt
  }

  function FrameOf(s: Kernel, x: Slot): nat
    requires Has(s, x)
  {
    if OnCopy(s, x) then s.work[x.pid].m else s.pt[x].frame
  }

  /** The memory all processes see, by process and page. */
  ghost predicate Sees(s: Kernel, a: map<Slot, Page>) {
    && (forall x :: x in a <==> Has(s, x))
    && (forall x | x in a :: FrameOf(s, x) in s.mem && a[x] == s.mem[FrameOf(s, x)])
  }

  /** There is always such a memory. */
  ghost function Memory(s: Kernel): (a: map<Slot, Page>)
    requires Sound(s)
    ensures Sees(s, a)
  {
    Framed(s);
    map x | x in s.pt.Keys + (set p | p in s.work && OnCopy(s, AtPage(p, s.work[p])) :: AtPage(p, s.work[p]))
      :: s.mem[FrameOf(s, x)]
  }

  function AtPage(p: nat, w: Work): Slot {
    if w.Lowered? || w.Cleared? then Slot(p, w.page) else Slot(p, 0)
  }

  lemma Framed(s: Kernel)
    requires Sound(s)
    ensures forall x | Has(s, x) :: FrameOf(s, x) in s.mem
  {
    forall x | Has(s, x) ensures FrameOf(s, x) in s.mem {
      if OnCopy(s, x) { PlaceOf(s, x); } else { EntryOf(s, x); }
    }
  }

  /** The same step where every process has its own pages. */
  function Apply(a: map<Slot, Page>, e: Event): map<Slot, Page> {
    match e
    case Store(x, off, b) => if x in a then a[x := PutByte(a[x], off, b)] else a
    case Grow(x) => a[x := Filled(0)]
    case SharePage(parent, child, page) =>
      if Slot(parent, page) in a then a[Slot(child, page) := a[Slot(parent, page)]] else a
    case Unmap(x) => a - {x}
    case _ => a
  }

  // ---------- steps ----------

  lemma StoreSeen(s: Kernel, e: Event, a: map<Slot, Page>)
    requires Sound(s) && e.Store? && Enabled(s, e) && Sees(s, a)
    ensures Sees(Step(s, e), Apply(a, e))
  {
    hide Tidy, Places;
    var x, f := e.x, s.pt[e.x].frame;
    EntryOf(s, x);
    forall y | Has(s, y) && y != x ensures FrameOf(s, y) != f {
      if OnCopy(s, y) {
        PlaceOf(s, y);
      }
    }
    hide EntryFine, WorkOk, PutByte;
  }

  /** The same pages in the same frames, or in frames with the same contents. */
  lemma SameSeen(s: Kernel, s': Kernel, a: map<Slot, Page>)
    requires Sees(s, a)
    requires forall x | Has(s, x) :: Has(s', x) && FrameOf(s', x) in s'.mem && FrameOf(s, x) in s.mem
                                     && s'.mem[FrameOf(s', x)] == s.mem[FrameOf(s, x)]
    requires forall x | Has(s', x) :: Has(s, x)
    ensures Sees(s', a)
  {
    hide Has, FrameOf;
  }

  /** Nobody sees a spare frame that is put by for nobody, or for a copy not yet in use. */
  lemma Unseen(s: Kernel, m: nat, busy: set<nat>, x: Slot)
    requires Sound(s) && Spare(s, m) && NoneKeeps(s, busy, m) && Has(s, x)
    requires x.pid in busy ==> !OnCopy(s, x)
    ensures FrameOf(s, x) != m
  {
    hide Tidy, Places;
  }

  lemma CopySeen(s: Kernel, e: Event, a: map<Slot, Page>)
    requires Sound(s) && e.CopyFrame? && Enabled(s, e) && Sees(s, a)
    ensures Sees(Step(s, e), a)
  {
    hide Tidy, Places;
    var m := s.work[e.x.pid].m;
    PlaceOf(s, e.x);
    forall x | Has(s, x) ensures FrameOf(s, x) != m {
      Unseen(s, m, {e.x.pid}, x);
    }
    hide WorkOk;
    SameSeen(s, Step(s, e), a);
  }

  lemma LowerSeen(s: Kernel, e: Event, a: map<Slot, Page>)
    requires Sound(s) && e.LowerCount? && Enabled(s, e) && Sees(s, a)
    ensures Sees(Step(s, e), a)
  {
    hide Tidy, Places;
    PlaceOf(s, e.x);
    SameSeen(s, Step(s, e), a);
  }

  lemma ClearSeen(s: Kernel, e: Event, a: map<Slot, Page>)
    requires Sound(s) && (e.ClearEntry? || e.MapCopy? || e.SetCount?) && Enabled(s, e) && Sees(s, a)
    ensures Sees(Step(s, e), a)
  {
    hide Tidy, Places;
    PlaceOf(s, e.x);
    SameSeen(s, Step(s, e), a);
  }

  lemma GrowSeen(s: Kernel, e: Event, a: map<Slot, Page>)
    requires Sound(s) && e.Grow? && Enabled(s, e) && Sees(s, a)
    ensures Sees(Step(s, e), Apply(a, e))
  {
    hide Tidy, Places, Filled;
    FirstSpare(s);
    var m := s.free[0];
    forall x | Has(s, x) ensures FrameOf(s, x) != m {
      Unseen(s, m, {}, x);
    }
  }

  lemma FirstSpare(s: Kernel)
    requires Sound(s) && s.free != []
    ensures Spare(s, s.free[0]) && NoneKeeps(s, {}, s.free[0])
  {
    FreeIsKept(s);
    hide WorkOk, CountOk, EntryFine;
    assert Spare(s, s.free[0]);
  }

  lemma ShareSeen(s: Kernel, e: Event, a: map<Slot, Page>)
    requires Sound(s) && e.SharePage? && Enabled(s, e) && Sees(s, a)
    ensures Sees(Step(s, e), Apply(a, e))
  {
    hide Tidy, Places;
    ForkFamily(s, e.child);
    EntryOf(s, Slot(e.parent, e.page));
    hide WorkOk, Unrelated;
    assert Has(s, Slot(e.parent, e.page));
    var s' := Step(s, e);
    assert forall x :: OnCopy(s', x) <==> OnCopy(s, x);
  }

  lemma UnmapSeen(s: Kernel, e: Event, a: map<Slot, Page>)
    requires Sound(s) && e.Unmap? && Enabled(s, e) && Sees(s, a)
    ensures Sees(Step(s, e), Apply(a, e))
  {
    hide Sound, Step;
    UnmapSound(s, e);
    var s' := Step(s, e);
    assert !OnCopy(s, e.x);
    assert forall x :: OnCopy(s', x) <==> OnCopy(s, x);
    hide OnCopy;
  }

  lemma KernelSeen(s: Kernel, e: Event, a: map<Slot, Page>)
    requires Sound(s) && (e.KernelAlloc? || e.KernelFree?) && Enabled(s, e) && Sees(s, a)
    ensures Sees(Step(s, e), a)
  {
    hide Tidy, Places, Filled;
    var f := if e.KernelAlloc? then s.free[0] else e.f;
    if e.KernelAlloc? { FirstSpare(s); } else { KernelSpare(s, f); }
    forall x | Has(s, x) ensures FrameOf(s, x) != f {
      Unseen(s, f, {}, x);
    }
    SameSeen(s, Step(s, e), a);
  }

  lemma KernelSpare(s: Kernel, f: nat)
    requires Sound(s) && f in s.kernel
    ensures Spare(s, f) && NoneKeeps(s, {}, f)
  {
    FreeIsKept(s);
    hide WorkOk, CountOk, EntryFine;
  }

  /** Steps of the fault handler that touch flags and places only. */
  lemma HandlerSeen(s: Kernel, e: Event, a: map<Slot, Page>)
    requires Sound(s) && Enabled(s, e) && Sees(s, a) && (e.Fault? || e.OpenSole? || e.TakeFrame? || e.NoFrame?)
    ensures Sees(Step(s, e), a)
  {
    hide Sound, Sees;
    SeesMem(s, a);
    SameSeen(s, Step(s, e), a);
  }

  lemma SeesMem(s: Kernel, a: map<Slot, Page>)
    requires Sees(s, a)
    ensures forall x | Has(s, x) :: FrameOf(s, x) in s.mem
  {
    hide Has, FrameOf;
  }

  /** Steps of `copyuvm` that touch flags, counts and places only. */
  lemma RoundSeen(s: Kernel, e: Event, a: map<Slot, Page>)
    requires Sound(s) && Enabled(s, e) && Sees(s, a) && (e.MarkPage? || e.CountPage? || e.GiveUp?)
    ensures Sees(Step(s, e), a)
  {
    hide Sound, Sees;
    SeesMem(s, a);
    SameSeen(s, Step(s, e), a);
  }

  /** Processes that come and go. */
  lemma ForkSeen(s: Kernel, e: Event, a: map<Slot, Page>)
    requires Sound(s) && Enabled(s, e) && Sees(s, a) && (e.Fork? || e.ForkDone? || e.Gone?)
    ensures Sees(Step(s, e), a)
  {
    hide Sound, Sees, WorkOk, Unrelated;
    SeesMem(s, a);
    LivePids(s);
    if e.ForkDone? { ForkFamily(s, e.child); }
    if e.Gone? && e.pid in s.work { ForkFamily(s, e.pid); }
    SameSeen(s, Step(s, e), a);
  }

  lemma StepSeen(s: Kernel, e: Event, a: map<Slot, Page>)
    requires Sound(s) && Enabled(s, e) && Sees(s, a)
    ensures Sees(Step(s, e), Apply(a, e))
  {
    hide Sound, Enabled, Step, Sees;
    match e
    case Store(_, _, _) => StoreSeen(s, e, a);
    case CopyFrame(_) => CopySeen(s, e, a);
    case LowerCount(_) => LowerSeen(s, e, a);
    case ClearEntry(_) => ClearSeen(s, e, a);
    case MapCopy(_) => ClearSeen(s, e, a);
    case SetCount(_) => ClearSeen(s, e, a);
    case Grow(_) => GrowSeen(s, e, a);
    case SharePage(_, _, _) => ShareSeen(s, e, a);
    case Unmap(_) => UnmapSeen(s, e, a);
    case KernelAlloc(_) => KernelSeen(s, e, a);
    case KernelFree(_) => KernelSeen(s, e, a);
    case Fault(_) => HandlerSeen(s, e, a);
    case OpenSole(_) => HandlerSeen(s, e, a);
    case TakeFrame(_) => HandlerSeen(s, e, a);
    case NoFrame(_) => HandlerSeen(s, e, a);
    case Fork(_, _, _) => ForkSeen(s, e, a);
    case ForkDone(_, _) => ForkSeen(s, e, a);
    case Gone(_) => ForkSeen(s, e, a);
    case _ => RoundSeen(s, e, a);
  }

  // ---------- every run ----------

  /** The kernel after the events `es`, or None when one of them was not possible. */
  function Exec(s: Kernel, es: seq<Event>): Option<Kernel>
    decreases |es|
  {
    if es == [] then Some(s) else
    var r := Exec(s, es[..|es| - 1]);
    if r.Some? && Enabled(r.value, es[|es| - 1]) then Some(Step(r.value, es[|es| - 1])) else None
  }

  function ApplyAll(a: map<Slot, Page>, es: seq<Event>): map<Slot, Page>
    decreases |es|
  {
    if es == [] then a else Apply(ApplyAll(a, es[..|es| - 1]), es[|es| - 1])
  }

  /** However the steps of different processes interleave, the processes see what they would see if
  `fork` copied every page and nothing were ever shared. */
  lemma {:induction false} Isolation(s: Kernel, es: seq<Event>, a: map<Slot, Page>)
    requires Sound(s) && Sees(s, a) && Exec(s, es).Some?
    ensures Sound(Exec(s, es).value) && Sees(Exec(s, es).value, ApplyAll(a, es))
    decreases |es|
  {
    hide Sound, Sees, Enabled, Step, Apply;
    if es != [] {
      var k := |es| - 1;
      Isolation(s, es[..k], a);
      var s1 := Exec(s, es[..k]).value;
      StepSound(s1, es[k]);
      StepSeen(s1, es[k], ApplyAll(a, es[..k]));
    }
  }

  /** The events that may change what process `x.pid` sees at page `x.page`: its own. */
  predicate Touches(e: Event, x: Slot) {
    || ((e.Store? || e.Grow? || e.Unmap?) && e.x == x)
    || (e.SharePage? && Slot(e.child, e.page) == x)
  }

  /** No store, fault or fork of another process shows in a page. */
  lemma PagesArePrivate(s: Kernel, es: seq<Event>, x: Slot)
    requires Sound(s) && Exec(s, es).Some? && Has(s, x)
    requires forall e | e in es :: !Touches(e, x)
    ensures var s' := Exec(s, es).value;
      && Has(s', x) && FrameOf(s', x) in s'.mem && FrameOf(s, x) in s.mem
      && s'.mem[FrameOf(s', x)] == s.mem[FrameOf(s, x)]
  {
    hide Sound, Exec, ApplyAll, Has, FrameOf;
    var a := Memory(s);
    Isolation(s, es, a);
    Untouched(a, es, x);
    assert x in a;
    assert x in ApplyAll(a, es);
  }

  lemma {:induction false} Untouched(a: map<Slot, Page>, es: seq<Event>, x: Slot)
    requires x in a && forall e | e in es :: !Touches(e, x)
    ensures x in ApplyAll(a, es) && ApplyAll(a, es)[x] == a[x]
    decreases |es|
  {
    hide Filled, PutByte;
    if es != [] {
      Untouched(a, es[..|es| - 1], x);
      assert es[|es| - 1] in es;
    }
  }

  /** The mappings of `f` that its count does not cover just now. */
  function Late(s: Kernel, f: nat): set<Slot> {
    set x | x in s.pt && s.pt[x].frame == f && !Counted(s.work, x)
  }

  /** In every interleaving the count of a frame covers all its mappings but the late ones: those
  lowered and not yet cleared, or made and not yet counted. When none is late it covers them all.
  A writable page is mapped by nobody else who will still use that mapping. */
  lemma CountsCoverMappings(s: Kernel, es: seq<Event>, f: nat)
    requires Sound(s) && Exec(s, es).Some? && f in Exec(s, es).value.mem
    ensures var s' := Exec(s, es).value;
      && f in s'.count && |Refs(s'.pt, f)| - |Late(s', f)| <= s'.count[f] <= 255
      && (Late(s', f) == {} ==> |Refs(s'.pt, f)| <= s'.count[f])
      && (forall x | x in s'.pt && s'.pt[x].frame == f && s'.pt[x].w :: Alone(s', x))
  {
    hide Exec, Sees, ApplyAll;
    Isolation(s, es, Memory(s));
    var s' := Exec(s, es).value;
    CountsOf(s');
    assert Refs(s'.pt, f) == Held(s', f) + Late(s', f);
    assert Held(s', f) !! Late(s', f);
    forall x | x in s'.pt && s'.pt[x].frame == f && s'.pt[x].w ensures Alone(s', x) {
      EntryOf(s', x);
    }
    hide Sound, Counted;
  }

  // ---------- a run through the window ----------

  /** After `userinit`: one process with one page, all other frames free. */
  function Boot(image: Page, frames: nat): Kernel
    requires frames > 0
  {
    var vm := T.Boot(image, frames);
    Kernel(vm.procs.Keys, vm.pt, vm.mem, vm.count, vm.free, vm.kernel, map[])
  }

  lemma BootSound(image: Page, frames: nat)
    requires frames > 0
    ensures Sound(Boot(image, frames))
  {
    hide Filled;
    var s := Boot(image, frames);
    assert Held(s, 0) == {Slot(1, 0)};
    forall f: nat | f != 0 ensures Held(s, f) == {} {
    }
  }

  lemma ExecNext(s: Kernel, es: seq<Event>, e: Event)
    requires Exec(s, es).Some? && Enabled(Exec(s, es).value, e)
    ensures Exec(s, es + [e]) == Some(Step(Exec(s, es).value, e))
  {
    hide Enabled, Step;
    assert (es + [e])[..|es|] == es;
  }

  /** One process, one page, a free frame. */
  predicate OneProcess(b: Kernel) {
    && b.live == {1} && b.pt == map[Slot(1, 0) := Own(0)] && b.work == map[]
    && 0 in b.mem && 0 in b.count && b.count[0] == 1 && b.free != [] && b.free[0] == 1
  }

  /** What `fork` makes of it up to the child's mapping. */
  lemma MappedRun(b: Kernel) returns (es: seq<Event>)
    requires OneProcess(b)
    ensures Exec(b, es) == Some(b.(live := {1, 2},
        pt := map[Slot(1, 0) := Share(Own(0)), Slot(2, 0) := Share(Own(0))],
        work := map[1 := Forking(2), 2 := Building(1, 1, 0, Count)]))
  {
    var x, y, pte := Slot(1, 0), Slot(2, 0), Share(Own(0));
    assert Exec(b, []) == Some(b);
    hide Exec;
    ExecNext(b, [], Event.Fork(1, 2, 1));
    es := [] + [Event.Fork(1, 2, 1)];
    assert Exec(b, es).value.work == map[1 := Forking(2), 2 := Building(1, 1, 0, Mark)];
    ExecNext(b, es, MarkPage(1, 2, 0));
    es := es + [MarkPage(1, 2, 0)];
    assert Exec(b, es).value.work == map[1 := Forking(2), 2 := Building(1, 1, 0, Map)];
    assert Exec(b, es).value.pt == map[x := pte];
    ExecNext(b, es, SharePage(1, 2, 0));
    es := es + [SharePage(1, 2, 0)];
    assert Exec(b, es).value.work == map[1 := Forking(2), 2 := Building(1, 1, 0, Count)];
    assert Exec(b, es).value.pt == map[x := pte, y := pte];
    assert Exec(b, es).value.live == {1, 2};
  }

  /** Two processes share frame 0, and its count is 2. */
  predicate TwoShare(s: Kernel) {
    && s.live == {1, 2} && s.work == map[]
    && s.pt == map[Slot(1, 0) := Share(Own(0)), Slot(2, 0) := Share(Own(0))]
    && 0 in s.mem && 0 in s.count && s.count[0] == 2 && s.free != [] && s.free[0] == 1
  }

  lemma SharedRun(b: Kernel) returns (es: seq<Event>)
    requires OneProcess(b)
    ensures Exec(b, es).Some? && TwoShare(Exec(b, es).value)
  {
    es := MappedRun(b);
    hide Exec;
    ExecNext(b, es, CountPage(1, 2, 0));
    es := es + [CountPage(1, 2, 0)];
    assert Exec(b, es).value.work == map[1 := Forking(2), 2 := Building(1, 1, 1, Mark)];
    ExecNext(b, es, ForkDone(1, 2));
    es := es + [ForkDone(1, 2)];
    assert Exec(b, es).value.work == map[];
  }

  /** Process 1 has copied the page and lowered the count. */
  predicate OneLowered(s: Kernel) {
    && s.live == {1, 2} && s.work == map[1 := Lowered(0, 1)]
    && s.pt == map[Slot(1, 0) := Share(Own(0)), Slot(2, 0) := Share(Own(0))]
    && 0 in s.mem && 0 in s.count && s.count[0] == 1
  }

  lemma LoweredRun(b: Kernel) returns (es: seq<Event>)
    requires OneProcess(b)
    ensures Exec(b, es).Some? && OneLowered(Exec(b, es).value)
  {
    var x := Slot(1, 0);
    es := SharedRun(b);
    hide Exec;
    ExecNext(b, es, Fault(x));
    es := es + [Fault(x)];
    assert Exec(b, es).value.work == map[1 := Looked(0)];
    ExecNext(b, es, TakeFrame(x));
    es := es + [TakeFrame(x)];
    assert Exec(b, es).value.work == map[1 := Taken(0, 1)];
    ExecNext(b, es, CopyFrame(x));
    es := es + [CopyFrame(x)];
    assert Exec(b, es).value.work == map[1 := Copied(0, 1)];
    ExecNext(b, es, LowerCount(x));
    es := es + [LowerCount(x)];
    assert Exec(b, es).value.work == map[1 := Lowered(0, 1)];
  }

  /** The count of frame 0 can be 1 while two processes map it: process 1 has lowered the count and
  not yet cleared its entry, and process 2 has meanwhile made the frame its own. */
  lemma WindowRun(image: Page, frames: nat) returns (es: seq<Event>)
    requires frames > 1
    ensures Exec(Boot(image, frames), es).Some?
    ensures var s := Exec(Boot(image, frames), es).value;
      && Refs(s.pt, 0) == {Slot(1, 0), Slot(2, 0)} && 0 in s.count && s.count[0] == 1
      && Slot(2, 0) in s.pt && s.pt[Slot(2, 0)].w
  {
    var b, y := Boot(image, frames), Slot(2, 0);
    assert OneProcess(b);
    hide Exec, Boot, OneProcess;
    es := LoweredRun(b);
    ExecNext(b, es, Fault(y));
    es := es + [Fault(y)];
    assert Exec(b, es).value.work == map[1 := Lowered(0, 1), 2 := Sole(0)];
    ExecNext(b, es, OpenSole(y));
    es := es + [OpenSole(y)];
  }
}
