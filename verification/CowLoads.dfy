/** What a program sees of copy-on-write memory, in loads: a store is read back, `fork` gives the child
what the parent has, and memory from `sbrk` is zero. And how exact the counts are while nothing is
unmapped, which is what a store without a free frame hangs on. */
module CowLoads {
  import opened Common
  import opened Cow
  import opened CowRuns
  import opened CowTheorems

  // ---------- whole pages ----------

  /** Every page a process sees is a whole page. */
  predicate Whole(a: Eager) {
    forall x | x in a.pages :: |a.pages[x].page.bytes| == PGSIZE
  }

  lemma StepWhole(a: Eager, e: Event, ok: bool)
    requires Whole(a)
    ensures Whole(EagerStep(a, e, ok))
  {
  }

  lemma {:induction false} RunWhole(a: Eager, es: seq<Event>, oks: seq<bool>)
    requires Whole(a) && |es| == |oks|
    ensures Whole(EagerExec(a, es, oks))
    decreases |es|
  {
    hide Whole, EagerStep;
    if es != [] {
      var k := |es| - 1;
      RunWhole(a, es[..k], oks[..k]);
      StepWhole(EagerExec(a, es[..k], oks[..k]), es[k], oks[k]);
    }
  }

  /** In every run from a whole image all pages stay whole. */
  lemma PagesStayWhole(image: Page, frames: nat, es: seq<Event>)
    requires frames > 0 && |image.bytes| == PGSIZE && Exec(Boot(image, frames), es).Some?
    ensures var vm := Exec(Boot(image, frames), es).value.0; Good(vm) && Known(vm) && Whole(Abs(vm))
  {
    BootGood(image, frames);
    var b := Boot(image, frames);
    CowRefinesCopying(b, es);
    RunWhole(Abs(b), es, Exec(b, es).value.1);
  }

  // ---------- loads ----------

  lemma LoadAbs(vm: Vm, pid: nat, va: nat)
    requires Known(vm)
    ensures Load(vm, pid, va) == EagerLoad(Abs(vm), pid, va)
  {
  }

  lemma StoreAbs(vm: Vm, pid: nat, va: nat, b: nat)
    requires Good(vm) && Known(vm) && Enabled(vm, Event.Store(pid, va, b)) && Cow.Store(vm, pid, va, b).1
    ensures var vm' := Cow.Store(vm, pid, va, b).0;
      Known(vm') && Abs(vm') == EagerStore(Abs(vm), pid, va, b)
    ensures var (x, p) := (Slot(pid, va / PGSIZE), Abs(vm).pages); x in p && p[x].u
  {
    StepRefines(vm, Event.Store(pid, va, b));
    StoreRefused(vm, pid, va, b);
    hide Good, Known, Abs, Cow.Store, EagerStore;
  }

  lemma EagerStoreLoad(e: Eager, pid: nat, va: nat, b: nat, q: nat, a: nat)
    requires Whole(e) && Slot(pid, va / PGSIZE) in e.pages && e.pages[Slot(pid, va / PGSIZE)].u
    ensures var e' := EagerStore(e, pid, va, b);
      && EagerLoad(e', pid, va) == Some(b)
      && ((q, a) != (pid, va) ==> EagerLoad(e', q, a) == EagerLoad(e, q, a))
  {
    if a / PGSIZE == va / PGSIZE && a % PGSIZE == va % PGSIZE {
      assert a == va;
    }
  }

  /** A store that succeeds is read back, and no other load by anyone changes. */
  lemma StoreThenLoad(vm: Vm, pid: nat, va: nat, b: nat, q: nat, a: nat)
    requires Good(vm) && Known(vm) && Whole(Abs(vm)) && Enabled(vm, Event.Store(pid, va, b))
    requires Cow.Store(vm, pid, va, b).1
    ensures var vm' := Cow.Store(vm, pid, va, b).0;
      && Load(vm', pid, va) == Some(b)
      && ((q, a) != (pid, va) ==> Load(vm', q, a) == Load(vm, q, a))
  {
    hide Good, Known, Abs, Cow.Store, Load, EagerLoad, EagerStore, Whole;
    var vm' := Cow.Store(vm, pid, va, b).0;
    StoreAbs(vm, pid, va, b);
    EagerStoreLoad(Abs(vm), pid, va, b, q, a);
    LoadAbs(vm', pid, va);
    LoadAbs(vm', q, a);
    LoadAbs(vm, q, a);
  }

  lemma ForkAbs(vm: Vm, parent: nat, child: nat, room: nat)
    requires Good(vm) && Known(vm) && Enabled(vm, Event.Fork(parent, child, true, room))
    requires Cow.Fork(vm, parent, child, true, room).1
    ensures var vm' := Cow.Fork(vm, parent, child, true, room).0;
      && Known(vm') && Abs(vm).procs == vm.procs && parent in vm.procs
      && Abs(vm') == EagerFork(Abs(vm), parent, child)
    ensures forall x | x in Abs(vm).pages :: x.pid != child
  {
    StepRefines(vm, Event.Fork(parent, child, true, room));
    NoPagesYet(vm, child);
    AbsParts(vm);
    hide Good, Known, Abs, Cow.Fork, EagerFork;
  }

  lemma EagerForkLoad(e: Eager, parent: nat, child: nat, va: nat, q: nat)
    requires parent in e.procs && parent != child && q != parent && q != child
    requires forall x | x in e.pages :: x.pid != child
    ensures var e' := EagerFork(e, parent, child);
      && (va / PGSIZE < PgUp(e.procs[parent].sz) ==> EagerLoad(e', child, va) == EagerLoad(e', parent, va))
      && (EagerLoad(e, parent, va).Some? ==> EagerLoad(e', parent, va) == EagerLoad(e, parent, va))
      && EagerLoad(e', q, va) == EagerLoad(e, q, va)
  {
    hide PgUp;
    var n, k := PgUp(e.procs[parent].sz), va / PGSIZE;
    var c := CopiesFor(e.pages, parent, child, n);
    assert Slot(child, k) in c <==> k < n && Slot(parent, k) in e.pages;
    assert Slot(parent, k) !in c && Slot(q, k) !in c;
  }

  /** After a fork that succeeds parent and child read the same at every address below the size; what
  the parent could read it still reads, and nobody else notices. */
  lemma ForkThenLoad(vm: Vm, parent: nat, child: nat, room: nat, va: nat, q: nat)
    requires Good(vm) && Known(vm) && Enabled(vm, Event.Fork(parent, child, true, room))
    requires Cow.Fork(vm, parent, child, true, room).1 && q != parent && q != child
    ensures var vm' := Cow.Fork(vm, parent, child, true, room).0;
      && (va / PGSIZE < PgUp(vm.procs[parent].sz) ==> Load(vm', child, va) == Load(vm', parent, va))
      && (Load(vm, parent, va).Some? ==> Load(vm', parent, va) == Load(vm, parent, va))
      && Load(vm', q, va) == Load(vm, q, va)
  {
    hide Good, Known, Abs, Cow.Fork, Load, EagerLoad, EagerFork, PgUp;
    var vm' := Cow.Fork(vm, parent, child, true, room).0;
    ForkAbs(vm, parent, child, room);
    EagerForkLoad(Abs(vm), parent, child, va, q);
    LoadAbs(vm', parent, va);
    LoadAbs(vm', child, va);
    LoadAbs(vm', q, va);
    LoadAbs(vm, q, va);
    LoadAbs(vm, parent, va);
  }

  lemma NoPagesYet(vm: Vm, child: nat)
    requires Good(vm) && child !in vm.procs
    ensures forall x | x in vm.pt :: x.pid != child
  {
  }

  lemma GrowAbs(vm: Vm, pid: nat, n: int, room: nat)
    requires Good(vm) && Known(vm) && Enabled(vm, Event.Sbrk(pid, n, room)) && n > 0
    requires Cow.Sbrk(vm, pid, n, room).1 && (vm.procs[pid].sz + n) % WORD >= vm.procs[pid].sz
    ensures var vm' := Cow.Sbrk(vm, pid, n, room).0;
      && Known(vm') && Abs(vm).procs == vm.procs && Abs(vm').procs == vm'.procs
      && vm.procs[pid].sz + n < WORD
      && Abs(vm') == Eager(vm.procs[pid := vm.procs[pid].(sz := vm.procs[pid].sz + n)],
                           Abs(vm).pages + NewPages(pid, PgUp(vm.procs[pid].sz), PgUp(vm.procs[pid].sz + n)))
    ensures forall x | x in Abs(vm).pages && x.pid == pid :: x.page < PgUp(vm.procs[pid].sz)
  {
    hide Good, Known, Abs, Cow.Sbrk, NewPages, Without, PgUp;
    SizeBelow(vm, pid);
    AbsParts(vm);
    PagesBounded(vm);
    StepRefines(vm, Event.Sbrk(pid, n, room));
    AbsParts(Cow.Sbrk(vm, pid, n, room).0);
  }

  lemma EagerGrowLoad(e: Eager, pid: nat, lo: nat, sz: nat, va: nat, q: nat)
    requires forall x | x in e.pages && x.pid == pid :: x.page < lo
    ensures var e' := Eager(e.procs, e.pages + NewPages(pid, lo, PgUp(sz)));
      && (lo * PGSIZE <= va < sz ==> EagerLoad(e', pid, va) == Some(0))
      && (EagerLoad(e, q, va).Some? ==> EagerLoad(e', q, va) == EagerLoad(e, q, va))
  {
    NewPagesAre(pid, lo, PgUp(sz));
  }

  /** Memory from `sbrk` reads zero up to the new size, and what could be read before reads as before. */
  lemma GrowThenLoad(vm: Vm, pid: nat, n: int, room: nat, va: nat, q: nat)
    requires Good(vm) && Known(vm) && Enabled(vm, Event.Sbrk(pid, n, room)) && n > 0
    requires Cow.Sbrk(vm, pid, n, room).1 && (vm.procs[pid].sz + n) % WORD >= vm.procs[pid].sz
    ensures var vm' := Cow.Sbrk(vm, pid, n, room).0;
      && pid in vm'.procs && vm'.procs[pid].sz == vm.procs[pid].sz + n
      && (PgUp(vm.procs[pid].sz) * PGSIZE <= va < vm'.procs[pid].sz ==> Load(vm', pid, va) == Some(0))
      && (Load(vm, q, va).Some? ==> Load(vm', q, va) == Load(vm, q, va))
  {
    hide Good, Known, Abs, Cow.Sbrk, Load, NewPages, PgUp;
    var vm' := Cow.Sbrk(vm, pid, n, room).0;
    GrowAbs(vm, pid, n, room);
    var sz := vm.procs[pid].sz;
    EagerGrowLoad(Abs(vm), pid, PgUp(sz), sz + n, va, q);
    LoadAbs(vm', pid, va);
    LoadAbs(vm', q, va);
    LoadAbs(vm, q, va);
  }

  lemma SizeBelow(vm: Vm, pid: nat)
    requires Good(vm) && pid in vm.procs
    ensures vm.procs[pid].sz < KERNBASE
  {
  }

  lemma PagesBounded(vm: Vm)
    requires Good(vm)
    ensures forall x | x in vm.pt :: x.pid in vm.procs && x.page < PgUp(vm.procs[x.pid].sz)
  {
  }

  // ---------- exact counts ----------

  /** The count of every frame is the number of entries that map it. */
  ghost predicate Exact(vm: Vm) {
    forall f | f in vm.count :: vm.count[f] == |Refs(vm.pt, f)|
  }

  /** One entry's frame counted once more: far from saturation. */
  lemma ShareExact(vm: Vm, x: Slot, y: Slot, pte: Pte)
    requires Inv(vm) && Exact(vm) && y in vm.pt && x !in vm.pt && pte.frame == vm.pt[y].frame
    requires pte.frame in vm.count
    ensures Exact(vm.(pt := vm.pt[y := pte][x := pte],
                      count := vm.count[pte.frame := Inc(vm.count[pte.frame])]))
  {
    PidsKnown(vm);
    RefsBound(vm, pte.frame);
    RefsFlag(vm.pt, y, pte);
    RefsAdd(vm.pt[y := pte], x, pte);
    ProcsBound(vm);
    hide Inv, Refs;
  }

  lemma ProcsBound(vm: Vm)
    requires Inv(vm)
    ensures |vm.procs| <= NPROC && Injective(vm.pt)
  {
  }

  lemma {:induction false} CopyExact(vm: Vm, parent: nat, child: nat, k: nat)
    requires Inv(vm) && Exact(vm) && parent in vm.procs && child in vm.procs && parent != child
    requires forall x | x in vm.pt :: x.pid != child
    requires forall v: nat | v < k :: Slot(parent, v) in vm.pt
    ensures Exact(CopyPages(vm, parent, child, k))
  {
    hide Inv, Exact;
    if k > 0 {
      CopyExact(vm, parent, child, k - 1);
      CopyPagesInv(vm, parent, child, k - 1);
      var vm1 := CopyPages(vm, parent, child, k - 1);
      var x, y := Slot(child, k - 1), Slot(parent, k - 1);
      EntryOk(vm1, y);
      ShareExact(vm1, x, y, Share(vm1.pt[y]));
    }
  }

  lemma FreshExact(vm: Vm, x: Slot, page: Page, w: bool, u: bool)
    requires Inv(vm) && Exact(vm) && vm.free != [] && x !in vm.pt
    ensures Exact(MapFresh(vm, x, page, w, u))
  {
    assert Unused(vm, vm.free[0]);
    RefsAdd(vm.pt, x, Pte(vm.free[0], w, u, false));
    hide Inv, Refs;
  }

  lemma {:induction false} GrowExact(vm: Vm, pid: nat, lo: nat, k: nat)
    requires Inv(vm) && Known(vm) && Exact(vm) && pid in vm.procs && k <= |vm.free|
    requires forall v | lo <= v < lo + k :: Slot(pid, v) !in vm.pt
    ensures Exact(GrowPages(vm, pid, lo, k))
  {
    hide Inv, Known, Exact, Abs, NewPages, MapFresh, Filled;
    if k > 0 {
      GrowExact(vm, pid, lo, k - 1);
      GrowPagesAbs(vm, pid, lo, k - 1);
      GrowPagesFrame(vm, pid, lo, k - 1);
      assert Slot(pid, lo + k - 1) !in GrowPages(vm, pid, lo, k - 1).pt;
      FreshExact(GrowPages(vm, pid, lo, k - 1), Slot(pid, lo + k - 1), Filled(0), true, true);
    }
  }

  lemma SplitExact(vm: Vm, x: Slot)
    requires Inv(vm) && Exact(vm) && Mapped(vm, x) && (vm.count[vm.pt[x].frame] == 1 || vm.free != [])
    ensures Exact(SplitPage(vm, x))
  {
    hide Inv, Refs;
    var pte := vm.pt[x];
    var f := pte.frame;
    RefsAre(vm.pt);
    if vm.count[f] == 1 {
      RefsFlag(vm.pt, x, pte.(w := true, cow := false));
    } else {
      var m := vm.free[0];
      FirstUnused(vm);
      RefsDrop(vm.pt, x);
      RefsAdd(vm.pt - {x}, x, Pte(m, true, pte.u, false));
      assert vm.pt[x := Pte(m, true, pte.u, false)] == (vm.pt - {x})[x := Pte(m, true, pte.u, false)];
    }
  }

  lemma FirstUnused(vm: Vm)
    requires Inv(vm) && vm.free != []
    ensures Unused(vm, vm.free[0])
  {
    hide Unused;
  }

  /** The events that take no mapping away: forks and growth that succeed, stores, exits, and what the
  kernel does with frames of its own. */
  predicate TakesNothing(e: Event, ok: bool) {
    match e
    case Fork(_, _, _, _) => ok
    case Sbrk(_, n, _) => n >= 0 && ok
    case Wait(_) => false
    case _ => true
  }

  lemma StepExact(vm: Vm, e: Event)
    requires Good(vm) && Known(vm) && Exact(vm) && Enabled(vm, e) && TakesNothing(e, Step(vm, e).1)
    ensures Exact(Step(vm, e).0)
  {
    match e
    case Fork(parent, child, dir, room) => ForkExact(vm, parent, child, room);
    case Sbrk(pid, n, room) => SbrkExact(vm, pid, n, room);
    case Store(pid, va, b) => StoreExact(vm, pid, va, b);
    case Exit(pid, _) => ExitCounts(vm, e);
    case KernelAlloc(_) =>
    case KernelFree(_) =>
  }

  lemma ForkExact(vm: Vm, parent: nat, child: nat, room: nat)
    requires Good(vm) && Known(vm) && Exact(vm) && Enabled(vm, Event.Fork(parent, child, true, room))
    requires Cow.Fork(vm, parent, child, true, room).1
    ensures Exact(Cow.Fork(vm, parent, child, true, room).0)
  {
    hide Inv, PgUp, Exact;
    AddChild(vm, parent, child);
    var vm0 := vm.(procs := vm.procs[child := Proc(vm.procs[parent].sz, false)]);
    SameExact(vm, vm0);
    CopyExact(vm0, parent, child, PgUp(vm.procs[parent].sz));
  }

  lemma SameExact(vm: Vm, vm': Vm)
    requires Exact(vm) && vm'.pt == vm.pt && vm'.count == vm.count
    ensures Exact(vm')
  {
  }

  lemma SbrkExact(vm: Vm, pid: nat, n: int, room: nat)
    requires Good(vm) && Known(vm) && Exact(vm) && Enabled(vm, Event.Sbrk(pid, n, room)) && n >= 0
    requires Cow.Sbrk(vm, pid, n, room).1
    ensures Exact(Cow.Sbrk(vm, pid, n, room).0)
  {
    hide Inv, PgUp, Exact, Bounded;
    var sz := vm.procs[pid].sz;
    var newsz := (sz + n) % WORD;
    if n > 0 && sz <= newsz < KERNBASE {
      PgUpMono(sz, newsz);
      NothingThere(vm, pid, PgUp(newsz));
      GrowExact(vm, pid, PgUp(sz), PgUp(newsz) - PgUp(sz));
      var vm1 := GrowPages(vm, pid, PgUp(sz), PgUp(newsz) - PgUp(sz));
      SameExact(vm1, Cow.Sbrk(vm, pid, n, room).0);
    }
  }

  lemma StoreExact(vm: Vm, pid: nat, va: nat, b: nat)
    requires Good(vm) && Exact(vm)
    ensures Exact(Cow.Store(vm, pid, va, b).0)
  {
    hide Inv, PutByte;
    var x := Slot(pid, va / PGSIZE);
    if CanSplit(vm, x, va) { SplitExact(vm, x); }
  }

  /** In every run that takes no mapping away, every count is exact. */
  lemma {:induction false} CountsStayExact(vm: Vm, es: seq<Event>)
    requires Good(vm) && Known(vm) && Exact(vm) && Exec(vm, es).Some?
    requires var oks := Exec(vm, es).value.1;
      |oks| == |es| && forall i | 0 <= i < |es| :: TakesNothing(es[i], oks[i])
    ensures Exact(Exec(vm, es).value.0)
    decreases |es|
  {
    hide Good, Known, Abs, Step, EagerStep, Enabled, Exact, TakesNothing, EagerExec;
    if es != [] {
      var k := |es| - 1;
      CowRefinesCopying(vm, es[..k]);
      var (vm1, oks1) := Exec(vm, es[..k]).value;
      assert forall i | 0 <= i < k :: oks1[i] == Exec(vm, es).value.1[i];
      CountsStayExact(vm, es[..k]);
      assert TakesNothing(es[k], Step(vm1, es[k]).1);
      StepExact(vm1, es[k]);
    }
  }

  lemma BootExact(image: Page, frames: nat)
    requires frames > 0
    ensures Exact(Boot(image, frames))
  {
    hide Filled;
    var vm := Boot(image, frames);
    assert Refs(vm.pt, 0) == {Slot(1, 0)};
    forall f: nat | f != 0 ensures Refs(vm.pt, f) == {} {
    }
  }

  /** From boot on, in runs that take no mapping away, the only process left on a shared frame stores
  to it without any free frame. */
  lemma LastSharerStores(image: Page, frames: nat, es: seq<Event>, pid: nat, va: nat, b: nat)
    requires frames > 0 && Exec(Boot(image, frames), es).Some?
    requires var oks := Exec(Boot(image, frames), es).value.1;
      |oks| == |es| && forall i | 0 <= i < |es| :: TakesNothing(es[i], oks[i])
    requires var (vm, x) := (Exec(Boot(image, frames), es).value.0, Slot(pid, va / PGSIZE));
      && Live(vm, pid) && va < vm.procs[pid].sz && x in vm.pt && vm.pt[x].u && (vm.pt[x].w || vm.pt[x].cow)
      && Refs(vm.pt, vm.pt[x].frame) == {x}
    ensures Cow.Store(Exec(Boot(image, frames), es).value.0, pid, va, b).1
  {
    BootGood(image, frames);
    BootExact(image, frames);
    var v := Boot(image, frames);
    CowRefinesCopying(v, es);
    CountsStayExact(v, es);
    hide Exec, EagerExec, Boot;
    var vm := Exec(v, es).value.0;
    EntryOk(vm, Slot(pid, va / PGSIZE));
    StoreRefused(vm, pid, va, b);
  }
}
