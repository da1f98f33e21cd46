/** What every run of the copy-on-write kernel guarantees, and where it differs from a kernel that
copies. */
module CowTheorems {
  import opened Common
  import opened Cow
  import opened CowRuns

  function First<T>(f: nat, a: T, b: T): T {
    if f == 0 then a else b
  }

  /** After `userinit`: one process with one page, all other frames free. */
  function Boot(image: Page, frames: nat): Vm
    requires frames > 0
  {
    Vm(map[1 := Proc(PGSIZE, false)], map[Slot(1, 0) := Pte(0, true, true, false)],
       map f: nat | f < frames :: First(f, image, Filled(1)),
       map f: nat | f < frames :: First(f, 1, 0),
       seq(frames - 1, i requires 0 <= i < frames - 1 => i + 1), {})
  }

  lemma BootGood(image: Page, frames: nat)
    requires frames > 0
    ensures Good(Boot(image, frames)) && Known(Boot(image, frames))
  {
    hide Filled;
    var vm := Boot(image, frames);
    assert Refs(vm.pt, 0) == {Slot(1, 0)};
    forall f: nat | f != 0 ensures Refs(vm.pt, f) == {} {
    }
    forall f: nat | f in vm.count ensures |Refs(vm.pt, f)| <= vm.count[f] <= 255 {
    }
    assert PteOk(vm, Slot(1, 0));
  }

  /** Copy-on-write refines copying: over every run of fork, stores with their faults, sbrk, exit
  and wait, with kernel allocations in between, every process has exactly the pages, contents and
  access that a kernel copying every page at fork would give it. */
  lemma {:induction false} CowRefinesCopying(vm: Vm, es: seq<Event>)
    requires Good(vm) && Known(vm) && Exec(vm, es).Some?
    ensures var (vm', oks) := Exec(vm, es).value;
            && Good(vm') && Known(vm') && |oks| == |es|
            && Abs(vm') == EagerExec(Abs(vm), es, oks)
    decreases |es|
  {
    hide Good, Known, Abs, Step, EagerStep, Enabled;
    if es != [] {
      var k := |es| - 1;
      CowRefinesCopying(vm, es[..k]);
      var (vm1, oks1) := Exec(vm, es[..k]).value;
      StepRefines(vm1, es[k]);
      var (vm', oks) := Exec(vm, es).value;
      assert oks[..k] == oks1;
    }
  }

  /** A user load: None is a fault that kills the process. */
  function Load(vm: Vm, pid: nat, va: nat): Option<nat> {
    var x := Slot(pid, va / PGSIZE);
    if x in vm.pt && vm.pt[x].u && vm.pt[x].frame in vm.mem
       && va % PGSIZE < |vm.mem[vm.pt[x].frame].bytes|
    then Some(vm.mem[vm.pt[x].frame].bytes[va % PGSIZE]) else None
  }

  function EagerLoad(a: Eager, pid: nat, va: nat): Option<nat> {
    var x := Slot(pid, va / PGSIZE);
    if x in a.pages && a.pages[x].u && va % PGSIZE < |a.pages[x].page.bytes|
    then Some(a.pages[x].page.bytes[va % PGSIZE]) else None
  }

  /** Every load in every run returns what it would if fork had copied every page. */
  lemma LoadsAsIfCopied(vm: Vm, es: seq<Event>, pid: nat, va: nat)
    requires Good(vm) && Known(vm) && Exec(vm, es).Some?
    ensures var (vm', oks) := Exec(vm, es).value;
            |oks| == |es|
            && Load(vm', pid, va) == EagerLoad(EagerExec(Abs(vm), es, oks), pid, va)
  {
    CowRefinesCopying(vm, es);
    hide Good, EagerExec, Exec;
    var (vm', oks) := Exec(vm, es).value;
    assert Load(vm', pid, va) == EagerLoad(Abs(vm'), pid, va);
  }

  /** Counts bound sharing in every run, despite saturation at 255 and although entries are removed
  without lowering a count: a count of 1 means a sole owner, and free frames are mapped nowhere. */
  lemma CountsBoundSharing(vm: Vm, es: seq<Event>, f: nat)
    requires Good(vm) && Known(vm) && Exec(vm, es).Some?
    ensures var vm' := Exec(vm, es).value.0;
            && (f in vm'.mem ==>
                  && f in vm'.count && |Refs(vm'.pt, f)| <= vm'.count[f] <= 255
                  && |Refs(vm'.pt, f)| <= NPROC)
            && (f in vm'.free ==> f in vm'.count && vm'.count[f] == 0 && Refs(vm'.pt, f) == {})
            && (forall x | x in vm'.pt && vm'.pt[x].frame == f && f in vm'.count
                           && vm'.count[f] == 1 :: Refs(vm'.pt, f) == {x})
  {
    CowRefinesCopying(vm, es);
    hide Exec, EagerExec, Abs;
    var vm' := Exec(vm, es).value.0;
    PidsKnown(vm');
    RefsBound(vm', f);
    forall x | x in vm'.pt && vm'.pt[x].frame == f && f in vm'.count && vm'.count[f] == 1
      ensures Refs(vm'.pt, f) == {x}
    {
      EntryOk(vm', x);
      CountOneMeansSole(vm', x);
    }
    if f in vm'.free {
      var i :| 0 <= i < |vm'.free| && vm'.free[i] == f;
      assert Unused(vm', f);
    }
  }

  /** A store is refused exactly when the copying kernel would refuse it too, or the page is still
  copy-on-write and the address lies at or above `sz`, or a copy is due and no frame is free. */
  lemma StoreRefused(vm: Vm, pid: nat, va: nat, b: nat)
    requires Good(vm) && Known(vm) && Live(vm, pid)
    ensures var x := Slot(pid, va / PGSIZE);
            var a := Abs(vm).pages;
            !Cow.Store(vm, pid, va, b).1 <==>
              || x !in a || !a[x].u || !a[x].w
              || (vm.pt[x].cow && va >= vm.procs[pid].sz)
              || (vm.pt[x].cow && vm.count[vm.pt[x].frame] > 1 && vm.free == [])
  {
    hide Good, PutByte, Poke, SplitPage;
    var x := Slot(pid, va / PGSIZE);
    InvOf(vm);
    if x in vm.pt { EntryOk(vm, x); }
    hide Inv;
  }

  lemma InvOf(vm: Vm)
    requires Good(vm)
    ensures Inv(vm)
  {
  }

  /** `sbrk` keeps all pages below `sz` present unless it is asked to give back everything: then
  the pages are gone although the call fails and `sz` stays, and the next fork panics. */
  lemma SbrkKeepsPages(vm: Vm, pid: nat, n: int, room: nat)
    requires Good(vm) && Known(vm) && Enabled(vm, Event.Sbrk(pid, n, room))
    requires AllPresent(vm, pid) && vm.procs[pid].sz > 0
    ensures var vm' := Cow.Sbrk(vm, pid, n, room).0;
            pid in vm'.procs && (AllPresent(vm', pid) <==> vm.procs[pid].sz + n != 0)
  {
    var e := Event.Sbrk(pid, n, room);
    StepRefines(vm, e);
    InvOf(vm);
    SmallSizes(vm, pid);
    var (vm', ok) := Step(vm, e);
    assert (vm', ok) == Cow.Sbrk(vm, pid, n, room);
    AbsParts(vm);
    AbsParts(vm');
    hide Good, Inv, Abs, Known, Step, Cow.Sbrk;
    PagesAfterSbrk(Abs(vm), Abs(vm'), pid, n, ok);
  }

  /** The same, on the pages the process sees. */
  lemma PagesAfterSbrk(a: Eager, a': Eager, pid: nat, n: int, ok: bool)
    requires pid in a.procs && 0 < a.procs[pid].sz < KERNBASE && a' == EagerSbrk(a, pid, n, ok)
    requires -0x8000_0000 <= n < 0x8000_0000
    requires forall v: nat | v < PgUp(a.procs[pid].sz) :: Slot(pid, v) in a.pages
    ensures pid in a'.procs
    ensures (forall v: nat | v < PgUp(a'.procs[pid].sz) :: Slot(pid, v) in a'.pages)
        <==> a.procs[pid].sz + n != 0
  {
    hide Filled, NewPages;
    var sz := a.procs[pid].sz;
    var newsz := (sz + n) % WORD;
    if n >= 0 {
      NewPagesAre(pid, PgUp(sz), PgUp(newsz));
    } else if sz + n == 0 {
      assert Slot(pid, 0) !in a'.pages;
    } else if sz + n > 0 {
      PgUpMono(newsz, sz);
    }
  }

  lemma NewPagesAre(pid: nat, lo: nat, hi: nat)
    ensures forall x :: x in NewPages(pid, lo, hi) <==> x.pid == pid && lo <= x.page < hi
  {
    hide Filled;
  }

  /** No frame of a process ever comes back: shrinking, exiting and being reaped leave the free list
  as it is. */
  lemma FramesAreNotReclaimed(vm: Vm, e: Event)
    requires Good(vm) && Known(vm) && Enabled(vm, e)
    requires (e.Sbrk? && e.n <= 0) || e.Exit? || e.Wait?
    ensures Step(vm, e).0.free == vm.free
  {
    InvOf(vm);
    hide Good, Inv, Abs, PgUp, UnmapRange;
    if e.Wait? {
      UnmapRangeAbs(vm, e.pid, 0, USERPAGES);
    } else if e.Sbrk? {
      var sz := vm.procs[e.pid].sz;
      UnmapRangeAbs(vm, e.pid, PgUp((sz + e.n) % WORD), PgUp(sz));
    }
  }
}
