/** Copy-on-write refines copying: every run of the copy-on-write kernel shows each process what a
kernel would show whose `fork` copies every page. */
module CowRuns {
  import opened Common
  import opened Cow

  // ---------- the kernel that copies ----------

  /** A page of its own for every slot, with the access the process has to it. */
  datatype View = View(page: Page, w: bool, u: bool)
  datatype Eager = Eager(procs: map<nat, Proc>, pages: map<Slot, View>)

  function ViewOf(mem: map<nat, Page>, pte: Pte): View
    requires pte.frame in mem
  {
    View(mem[pte.frame], pte.w || pte.cow, pte.u)
  }

  ghost predicate Known(vm: Vm) {
    forall x | x in vm.pt :: vm.pt[x].frame in vm.mem
  }

  ghost function Abs(vm: Vm): Eager
    requires Known(vm)
  {
    Eager(vm.procs, map x | x in vm.pt :: ViewOf(vm.mem, vm.pt[x]))
  }

  /** `fork` opens every writable page to user mode, in the parent too. */
  function Opened(v: View): View {
    if v.w then v.(u := true) else v
  }

  /** The parent's first `k` pages opened. */
  function OpenPages(pages: map<Slot, View>, pid: nat, k: nat): map<Slot, View> {
    map x | x in pages :: if x.pid == pid && x.page < k then Opened(pages[x]) else pages[x]
  }

  /** A copy of each of the parent's first `k` pages for the child. */
  function CopiesFor(pages: map<Slot, View>, parent: nat, child: nat, k: nat): map<Slot, View> {
    map v: nat | v < k && Slot(parent, v) in pages :: Slot(child, v) := Opened(pages[Slot(parent, v)])
  }

  function EagerFork(a: Eager, parent: nat, child: nat): Eager
    requires parent in a.procs
  {
    var n := PgUp(a.procs[parent].sz);
    Eager(a.procs[child := Proc(a.procs[parent].sz, false)],
          OpenPages(a.pages, parent, n) + CopiesFor(a.pages, parent, child, n))
  }

  function NewPages(pid: nat, lo: nat, hi: nat): map<Slot, View> {
    map v: nat | lo <= v < hi :: Slot(pid, v) := View(Filled(0), true, true)
  }

  function Without(pages: map<Slot, View>, pid: nat, lo: nat, hi: nat): map<Slot, View> {
    map x | x in pages && !(x.pid == pid && lo <= x.page < hi) :: pages[x]
  }

  function EagerSbrk(a: Eager, pid: nat, n: int, ok: bool): Eager
    requires pid in a.procs
  {
    var p := a.procs[pid];
    var newsz := (p.sz + n) % WORD;
    if n == 0 || (n > 0 && (!ok || newsz < p.sz)) || (n < 0 && newsz >= p.sz) then a
    else if n > 0 then
      Eager(a.procs[pid := p.(sz := newsz)], a.pages + NewPages(pid, PgUp(p.sz), PgUp(newsz)))
    else
      Eager(if newsz == 0 then a.procs else a.procs[pid := p.(sz := newsz)],
            Without(a.pages, pid, PgUp(newsz), PgUp(p.sz)))
  }

  function EagerStore(a: Eager, pid: nat, va: nat, b: nat): Eager {
    var x := Slot(pid, va / PGSIZE);
    if x !in a.pages then a else
    a.(pages := a.pages[x := a.pages[x].(page := PutByte(a.pages[x].page, va % PGSIZE, b))])
  }

  // ---------- events ----------

  datatype Event =
    | Fork(parent: nat, child: nat, dir: bool, room: nat)
    | Sbrk(pid: nat, n: int, room: nat)
    | Store(pid: nat, va: nat, b: nat)
    | Exit(pid: nat, tables: set<nat>)   // with the frames of its page tables
    | Wait(pid: nat)                     // the parent reaps a zombie
    | KernelAlloc(page: Page)            // kalloc by the kernel for its own use
    | KernelFree(frame: nat)

  predicate Live(vm: Vm, pid: nat) {
    pid in vm.procs && !vm.procs[pid].zombie
  }

  /** `copyuvm` panics on a page that is not present. */
  predicate AllPresent(vm: Vm, pid: nat)
    requires pid in vm.procs
  {
    forall v: nat | v < PgUp(vm.procs[pid].sz) :: Slot(pid, v) in vm.pt
  }

  predicate Enabled(vm: Vm, e: Event) {
    match e
    case Fork(parent, child, _, _) =>
      && Live(vm, parent) && child !in vm.procs && |vm.procs| < NPROC && AllPresent(vm, parent)
    case Sbrk(pid, n, _) => Live(vm, pid) && -0x8000_0000 <= n < 0x8000_0000
    case Store(pid, va, _) => Live(vm, pid) && va < WORD && !(WMAP_LOW <= va < KERNBASE)
    case Exit(pid, tables) => Live(vm, pid) && tables <= vm.kernel
    case Wait(pid) => pid in vm.procs && vm.procs[pid].zombie
    case KernelAlloc(_) => vm.free != []
    case KernelFree(f) => f in vm.kernel
  }

  /** The next state, and whether the operation succeeded. */
  function Step(vm: Vm, e: Event): (Vm, bool)
    requires Enabled(vm, e)
  {
    match e
    case Fork(parent, child, dir, room) => Cow.Fork(vm, parent, child, dir, room)
    case Sbrk(pid, n, room) => Cow.Sbrk(vm, pid, n, room)
    case Store(pid, va, b) => Cow.Store(vm, pid, va, b)
    case Exit(pid, tables) =>
      (vm.(procs := vm.procs[pid := vm.procs[pid].(zombie := true)],
           count := map f | f in vm.count ::
             if f in tables then Dec(vm.count[f]) else vm.count[f]), true)
    case Wait(pid) =>
      var vm' := UnmapRange(vm, pid, 0, USERPAGES);
      (vm'.(procs := vm'.procs - {pid}), true)
    case KernelAlloc(page) =>
      var f := vm.free[0];
      (vm.(mem := vm.mem[f := page], free := vm.free[1..], kernel := vm.kernel + {f}), true)
    case KernelFree(f) => (Kfree(vm, f).(kernel := vm.kernel - {f}), true)
  }

  function EagerStep(a: Eager, e: Event, ok: bool): Eager {
    match e
    case Fork(parent, child, dir, room) =>
      if parent !in a.procs || !dir then a
      else if ok then EagerFork(a, parent, child)
      else a.(pages := OpenPages(a.pages, parent, room + 1))
    case Sbrk(pid, n, _) => if pid !in a.procs then a else EagerSbrk(a, pid, n, ok)
    case Store(pid, va, b) => if ok then EagerStore(a, pid, va, b) else a
    case Exit(pid, _) =>
      if pid !in a.procs then a else a.(procs := a.procs[pid := a.procs[pid].(zombie := true)])
    case Wait(pid) => Eager(a.procs - {pid}, map x | x in a.pages && x.pid != pid :: a.pages[x])
    case KernelAlloc(_) => a
    case KernelFree(_) => a
  }

  /** The state and the outcomes after the events `es`; None if one was not possible. */
  function Exec(vm: Vm, es: seq<Event>): Option<(Vm, seq<bool>)>
    decreases |es|
  {
    if es == [] then Some((vm, [])) else
    var r := Exec(vm, es[..|es| - 1]);
    if r.None? || !Enabled(r.value.0, es[|es| - 1]) then None else
    var (vm', ok) := Step(r.value.0, es[|es| - 1]);
    Some((vm', r.value.1 + [ok]))
  }

  function EagerExec(a: Eager, es: seq<Event>, oks: seq<bool>): Eager
    requires |es| == |oks|
    decreases |es|
  {
    if es == [] then a else
    var k := |es| - 1;
    EagerStep(EagerExec(a, es[..k], oks[..k]), es[k], oks[k])
  }

  // ---------- the invariant between operations ----------

  /** Pages lie below the size of their process. */
  ghost predicate Bounded(vm: Vm) {
    forall x | x in vm.pt :: x.pid in vm.procs && x.page < PgUp(vm.procs[x.pid].sz)
  }

  ghost predicate Good(vm: Vm) {
    Inv(vm) && Bounded(vm)
  }

  // ---------- single operations ----------

  lemma EntryOk(vm: Vm, x: Slot)
    requires Inv(vm) && x in vm.pt
    ensures PteOk(vm, x) && Mapped(vm, x) && vm.count[vm.pt[x].frame] >= 1
  {
    assert PteOk(vm, x);
    OneOrMore(Refs(vm.pt, vm.pt[x].frame), x);
  }

  lemma AllKnown(vm: Vm)
    requires Inv(vm)
    ensures Known(vm)
    ensures forall x, i | x in vm.pt && 0 <= i < |vm.free| :: vm.pt[x].frame != vm.free[i]
  {
    forall x | x in vm.pt ensures vm.pt[x].frame in vm.mem {
      assert PteOk(vm, x);
    }
    forall x, i | x in vm.pt && 0 <= i < |vm.free| ensures vm.pt[x].frame != vm.free[i] {
      assert Unused(vm, vm.free[i]);
      assert x in Refs(vm.pt, vm.pt[x].frame);
    }
  }

  lemma MapFreshAbs(vm: Vm, x: Slot, page: Page, w: bool, u: bool)
    requires Inv(vm) && vm.free != [] && x !in vm.pt && x.pid in vm.procs && Known(vm)
    ensures var vm' := MapFresh(vm, x, page, w, u);
            && Inv(vm') && Known(vm')
            && Abs(vm') == Abs(vm).(pages := Abs(vm).pages[x := View(page, w, u)])
  {
    hide Inv;
    AllKnown(vm);
    MapFreshInv(vm, x, page, w, u);
    var vm' := MapFresh(vm, x, page, w, u);
    AllKnown(vm');
    assert Abs(vm').pages == Abs(vm).pages[x := View(page, w, u)];
  }

  /** A mapped frame has a count of at least 1, so `deallocuvm` clears the entry and never frees. */
  lemma UnmapNeverFrees(vm: Vm, x: Slot)
    requires Inv(vm)
    ensures Unmap(vm, x) == vm.(pt := vm.pt - {x}) && Inv(Unmap(vm, x))
  {
    hide Inv;
    if x in vm.pt {
      EntryOk(vm, x);
      var f := vm.pt[x].frame;
      assert vm.count[f := vm.count[f]] == vm.count;
      DropInv(vm, x, vm.count[f]);
    } else {
      assert vm.pt - {x} == vm.pt;
    }
  }

  lemma OneOrMore(s: set<Slot>, x: Slot)
    requires x in s
    ensures |s| >= 1
    ensures |s| == 1 ==> s == {x}
  {
    assert s == {x} + (s - {x});
    assert |s| == 1 + |s - {x}|;
  }

  /** Count 1 at a fault means sole ownership. */
  lemma CountOneMeansSole(vm: Vm, x: Slot)
    requires Inv(vm) && Mapped(vm, x) && vm.count[vm.pt[x].frame] == 1
    ensures Refs(vm.pt, vm.pt[x].frame) == {x}
  {
    OneOrMore(Refs(vm.pt, vm.pt[x].frame), x);
  }

  /** The copy made for a shared frame, as removal of the old entry and a fresh one. */
  lemma SplitShared(vm: Vm, x: Slot)
    requires Inv(vm) && Mapped(vm, x) && vm.pt[x].cow && Known(vm)
    requires vm.count[vm.pt[x].frame] != 1 && vm.free != []
    ensures var vm' := SplitPage(vm, x);
            Inv(vm') && Known(vm') && x in vm'.pt && vm'.pt[x].w && vm'.pt[x].u
            && Abs(vm') == Abs(vm)
  {
    hide Inv;
    EntryOk(vm, x);
    var f := vm.pt[x].frame;
    var c := Dec(vm.count[f]);
    var vm1 := vm.(pt := vm.pt - {x}, count := vm.count[f := c]);
    DropInv(vm, x, c);
    MapFreshAbs(vm1, x, vm.mem[f], true, vm.pt[x].u);
    var vm' := SplitPage(vm, x);
    assert vm1.pt[x := vm'.pt[x]] == vm'.pt;
    assert vm' == MapFresh(vm1, x, vm.mem[f], true, vm.pt[x].u);
    assert Abs(vm').pages == Abs(vm).pages;
  }

  /** The fault handler makes the page writable and changes nothing any process can see. */
  lemma SplitAbs(vm: Vm, x: Slot)
    requires Inv(vm) && Mapped(vm, x) && vm.pt[x].cow && Known(vm)
    requires vm.count[vm.pt[x].frame] == 1 || vm.free != []
    ensures var vm' := SplitPage(vm, x);
            && Inv(vm') && Known(vm') && x in vm'.pt && vm'.pt[x].w && vm'.pt[x].u
            && Abs(vm') == Abs(vm)
  {
    hide Inv;
    if vm.count[vm.pt[x].frame] == 1 {
      EntryOk(vm, x);
      CountOneMeansSole(vm, x);
      FlagInv(vm, x, vm.pt[x].(w := true, cow := false));
      var vm' := SplitPage(vm, x);
      AllKnown(vm');
      assert Abs(vm').pages == Abs(vm).pages;
    } else {
      SplitShared(vm, x);
    }
  }

  lemma WritableAlone(vm: Vm, x: Slot)
    requires Inv(vm) && x in vm.pt && vm.pt[x].w
    ensures forall y | y in vm.pt && y != x :: vm.pt[y].frame != vm.pt[x].frame
  {
    assert PteOk(vm, x);
    forall y | y in vm.pt && y != x ensures vm.pt[y].frame != vm.pt[x].frame {
      assert y in Refs(vm.pt, vm.pt[y].frame);
    }
  }

  lemma PidsKnown(vm: Vm)
    requires Inv(vm)
    ensures forall x | x in vm.pt :: x.pid in vm.procs
    ensures ProcsOk(vm)
  {
    forall x | x in vm.pt ensures x.pid in vm.procs {
      assert PteOk(vm, x);
    }
  }

  /** A store through a writable entry is seen by that process at that page only. */
  lemma PokeAbs(vm: Vm, x: Slot, off: nat, b: nat)
    requires Inv(vm) && x in vm.pt && vm.pt[x].w && Known(vm)
    ensures var vm' := Poke(vm, x, off, b);
            && Inv(vm') && Known(vm')
            && Abs(vm') == Abs(vm).(pages := Abs(vm).pages[x :=
                 Abs(vm).pages[x].(page := PutByte(Abs(vm).pages[x].page, off, b))])
  {
    hide Inv, PutByte;
    EntryOk(vm, x);
    WritableAlone(vm, x);
    PidsKnown(vm);
    var vm' := Poke(vm, x, off, b);
    SameTablesInv(vm, vm.procs, vm'.mem);
    assert Abs(vm').pages == Abs(vm).pages[x :=
             Abs(vm).pages[x].(page := PutByte(Abs(vm).pages[x].page, off, b))];
  }

  // ---------- loops ----------

  lemma {:induction false} GrowPagesFrame(vm: Vm, pid: nat, lo: nat, k: nat)
    requires k <= |vm.free|
    requires forall v | lo <= v < lo + k :: Slot(pid, v) !in vm.pt
    ensures var vm' := GrowPages(vm, pid, lo, k);
            && vm'.free == vm.free[k..] && vm'.kernel == vm.kernel && vm'.procs == vm.procs
            && (forall x | x in vm'.pt :: x in vm.pt || (x.pid == pid && lo <= x.page < lo + k))
            && (forall x | x in vm.pt :: x in vm'.pt && vm'.pt[x] == vm.pt[x])
  {
    if k > 0 { GrowPagesFrame(vm, pid, lo, k - 1); }
  }

  lemma NewPagesNext(pid: nat, lo: nat, hi: nat)
    requires lo <= hi
    ensures NewPages(pid, lo, lo) == map[]
    ensures NewPages(pid, lo, hi + 1)
         == NewPages(pid, lo, hi)[Slot(pid, hi) := View(Filled(0), true, true)]
  {
    var a, b := NewPages(pid, lo, hi + 1), NewPages(pid, lo, hi);
    hide Filled;
    assert forall x :: x in a <==> x.pid == pid && lo <= x.page < hi + 1;
    assert forall x :: x in b <==> x.pid == pid && lo <= x.page < hi;
  }

  lemma {:induction false} GrowPagesAbs(vm: Vm, pid: nat, lo: nat, k: nat)
    requires Inv(vm) && pid in vm.procs && Known(vm) && k <= |vm.free|
    requires forall v | lo <= v < lo + k :: Slot(pid, v) !in vm.pt
    ensures var vm' := GrowPages(vm, pid, lo, k);
            && Inv(vm') && Known(vm')
            && Abs(vm').pages == Abs(vm).pages + NewPages(pid, lo, lo + k)
  {
    hide Inv, NewPages, Filled, Abs, Known, MapFresh;
    if k > 0 {
      var vm1 := GrowPages(vm, pid, lo, k - 1);
      GrowPagesFrame(vm, pid, lo, k - 1);
      GrowPagesAbs(vm, pid, lo, k - 1);
      assert Slot(pid, lo + k - 1) !in vm1.pt;
      MapFreshAbs(vm1, Slot(pid, lo + k - 1), Filled(0), true, true);
      NewPagesNext(pid, lo, lo + k - 1);
    } else {
      NewPagesNext(pid, lo, lo);
    }
  }

  lemma FirstFreeKnown(vm: Vm)
    requires Inv(vm) && vm.free != []
    ensures vm.free[0] in vm.mem && vm.free[0] !in vm.kernel
  {
    assert Unused(vm, vm.free[0]);
  }

  lemma {:induction false} UnmapRangeAbs(vm: Vm, pid: nat, lo: nat, hi: nat)
    requires Inv(vm) && Known(vm)
    ensures var vm' := UnmapRange(vm, pid, lo, hi);
            && Inv(vm') && Known(vm')
            && vm' == vm.(pt := vm'.pt)
            && vm'.pt == (map x | x in vm.pt && !(x.pid == pid && lo <= x.page < hi) :: vm.pt[x])
            && Abs(vm').pages == Without(Abs(vm).pages, pid, lo, hi)
    decreases hi
  {
    hide Inv, Abs, Unmap;
    if lo < hi {
      var vm1 := UnmapRange(vm, pid, lo, hi - 1);
      UnmapRangeAbs(vm, pid, lo, hi - 1);
      UnmapNeverFrees(vm1, Slot(pid, hi - 1));
      DropAbs(vm1, Slot(pid, hi - 1));
      hide Known;
      LessOne(vm.pt, vm1.pt, UnmapRange(vm, pid, lo, hi).pt, pid, lo, hi);
      WithoutOne(Abs(vm).pages, Abs(vm1).pages, Abs(UnmapRange(vm, pid, lo, hi)).pages, pid, lo, hi);
    } else {
      NoneLess(vm, pid, lo, hi);
    }
  }

  lemma DropAbs(vm: Vm, x: Slot)
    requires Known(vm)
    ensures Known(vm.(pt := vm.pt - {x})) && Abs(vm.(pt := vm.pt - {x})).pages == Abs(vm).pages - {x}
  {
  }

  lemma LessOne(a: map<Slot, Pte>, b: map<Slot, Pte>, c: map<Slot, Pte>, pid: nat, lo: nat, hi: nat)
    requires lo < hi && b == (map x | x in a && !(x.pid == pid && lo <= x.page < hi - 1) :: a[x])
    requires c == b - {Slot(pid, hi - 1)}
    ensures c == (map x | x in a && !(x.pid == pid && lo <= x.page < hi) :: a[x])
  {
  }

  lemma WithoutOne(a: map<Slot, View>, b: map<Slot, View>, c: map<Slot, View>, pid: nat, lo: nat, hi: nat)
    requires lo < hi && b == Without(a, pid, lo, hi - 1) && c == b - {Slot(pid, hi - 1)}
    ensures c == Without(a, pid, lo, hi)
  {
  }

  lemma NoneLess(vm: Vm, pid: nat, lo: nat, hi: nat)
    requires Known(vm) && hi <= lo
    ensures vm.pt == (map x | x in vm.pt && !(x.pid == pid && lo <= x.page < hi) :: vm.pt[x])
    ensures Abs(vm).pages == Without(Abs(vm).pages, pid, lo, hi)
  {
  }

  // ---------- fork ----------

  /** What `copyuvm` has done after `k` pages. */
  ghost predicate Copied(vm: Vm, vm': Vm, parent: nat, child: nat, k: nat) {
    && vm' == vm.(pt := vm'.pt, count := vm'.count)
    && (forall x | x in vm.pt :: x in vm'.pt
          && vm'.pt[x] == if x.pid == parent && x.page < k then Share(vm.pt[x]) else vm.pt[x])
    && (forall x | x in vm'.pt && x !in vm.pt ::
          && x.pid == child && x.page < k && Slot(parent, x.page) in vm.pt
          && vm'.pt[x] == Share(vm.pt[Slot(parent, x.page)]))
    && (forall v: nat | v < k :: Slot(child, v) in vm'.pt)
  }

  lemma ShareFlags(pte: Pte)
    requires pte.cow ==> pte.u && !pte.w
    ensures Share(pte).frame == pte.frame && !Share(pte).w && (Share(pte).cow ==> Share(pte).u)
  {
  }

  lemma SharePageInv(vm: Vm, parent: nat, child: nat, v: nat)
    requires Inv(vm) && parent != child && child in vm.procs
    requires Slot(parent, v) in vm.pt && Slot(child, v) !in vm.pt
    requires forall z | z in vm.pt && z.pid == child ::
               vm.pt[z].frame != vm.pt[Slot(parent, v)].frame
    ensures Inv(SharePage(vm, parent, child, v))
  {
    hide Inv;
    var x := Slot(parent, v);
    EntryOk(vm, x);
    var pte := Share(vm.pt[x]);
    var vm1 := vm.(pt := vm.pt[x := pte]);
    FlagInv(vm, x, pte);
    AddRefInv(vm1, Slot(child, v), x);
  }

  lemma CopiedNext(vm: Vm, vm': Vm, parent: nat, child: nat, k: nat)
    requires Copied(vm, vm', parent, child, k) && parent != child
    requires Slot(parent, k) in vm.pt && Mapped(vm', Slot(parent, k))
    requires forall x | x in vm.pt :: x.pid != child
    ensures Copied(vm, SharePage(vm', parent, child, k), parent, child, k + 1)
  {
    hide Share, Inc;
    var s := SharePage(vm', parent, child, k);
    forall x | x in vm.pt ensures x in s.pt
      && s.pt[x] == if x.pid == parent && x.page < k + 1 then Share(vm.pt[x]) else vm.pt[x]
    {
      assert x in vm'.pt;
    }
  }

  /** The child has none of the frames of the parent's next page. */
  lemma ChildFrames(vm: Vm, vm': Vm, parent: nat, child: nat, k: nat)
    requires Injective(vm.pt) && Copied(vm, vm', parent, child, k) && Slot(parent, k) in vm.pt
    requires parent != child && forall x | x in vm.pt :: x.pid != child
    ensures Slot(child, k) !in vm'.pt && vm'.pt[Slot(parent, k)] == vm.pt[Slot(parent, k)]
    ensures forall z | z in vm'.pt && z.pid == child ::
              vm'.pt[z].frame != vm'.pt[Slot(parent, k)].frame
  {
    forall z | z in vm'.pt && z.pid == child
      ensures vm'.pt[z].frame != vm'.pt[Slot(parent, k)].frame
    {
      assert Slot(parent, z.page) in vm.pt && Slot(parent, z.page) != Slot(parent, k);
    }
  }

  lemma {:induction false} CopyPagesInv(vm: Vm, parent: nat, child: nat, k: nat)
    requires Inv(vm) && parent != child && child in vm.procs
    requires forall v: nat | v < k :: Slot(parent, v) in vm.pt
    requires forall x | x in vm.pt :: x.pid != child
    ensures var vm' := CopyPages(vm, parent, child, k);
            Inv(vm') && Copied(vm, vm', parent, child, k) && vm'.procs == vm.procs
  {
    hide Inv, Copied, SharePage, Injective;
    if k == 0 {
      CopiedNone(vm, parent, child);
    } else {
      var vm1 := CopyPages(vm, parent, child, k - 1);
      CopyPagesInv(vm, parent, child, k - 1);
      assert Injective(vm.pt) by { InjectiveOf(vm); }
      ChildFrames(vm, vm1, parent, child, k - 1);
      KeepsEntry(vm, vm1, parent, child, k - 1);
      SharePageInv(vm1, parent, child, k - 1);
      EntryOk(vm1, Slot(parent, k - 1));
      CopiedNext(vm, vm1, parent, child, k - 1);
      SharePageProcs(vm1, parent, child, k - 1);
    }
  }

  lemma CopiedNone(vm: Vm, parent: nat, child: nat)
    ensures Copied(vm, vm, parent, child, 0)
  {
  }

  lemma InjectiveOf(vm: Vm)
    requires Inv(vm)
    ensures Injective(vm.pt)
  {
  }

  lemma KeepsEntry(vm: Vm, vm': Vm, parent: nat, child: nat, k: nat)
    requires Copied(vm, vm', parent, child, k) && Slot(parent, k) in vm.pt
    ensures Slot(parent, k) in vm'.pt
  {
  }

  lemma SharePageProcs(vm: Vm, parent: nat, child: nat, v: nat)
    ensures SharePage(vm, parent, child, v).procs == vm.procs
  {
  }

  lemma CopiesAre(pages: map<Slot, View>, parent: nat, child: nat, k: nat)
    ensures forall x :: x in CopiesFor(pages, parent, child, k) <==>
              x.pid == child && x.page < k && Slot(parent, x.page) in pages
    ensures forall x | x in CopiesFor(pages, parent, child, k) ::
              CopiesFor(pages, parent, child, k)[x] == Opened(pages[Slot(parent, x.page)])
  {
  }

  lemma ShareOpens(vm: Vm, x: Slot)
    requires Inv(vm) && x in vm.pt && Known(vm)
    ensures ViewOf(vm.mem, Share(vm.pt[x])) == Opened(ViewOf(vm.mem, vm.pt[x]))
  {
    EntryOk(vm, x);
  }

  lemma CopiedAbs(vm: Vm, vm': Vm, parent: nat, child: nat, k: nat)
    requires Inv(vm) && Known(vm) && Known(vm') && Copied(vm, vm', parent, child, k)
    requires forall v: nat | v < k :: Slot(parent, v) in vm.pt
    requires forall x | x in vm.pt :: x.pid != child
    ensures Abs(vm').pages
         == OpenPages(Abs(vm).pages, parent, k) + CopiesFor(Abs(vm).pages, parent, child, k)
  {
    hide Inv, CopiesFor, ViewOf, Share, Opened;
    CopiesAre(Abs(vm).pages, parent, child, k);
    var a, b := Abs(vm').pages,
      OpenPages(Abs(vm).pages, parent, k) + CopiesFor(Abs(vm).pages, parent, child, k);
    assert a.Keys == b.Keys;
    forall x | x in a ensures a[x] == b[x] {
      ShareOpens(vm, if x in vm.pt then x else Slot(parent, x.page));
    }
  }

  /** The state after a step refines the eager step. */
  ghost predicate Refines(vm: Vm, vm': Vm, e: Event, ok: bool)
    requires Known(vm)
  {
    Good(vm') && Known(vm') && Abs(vm') == EagerStep(Abs(vm), e, ok)
  }

  lemma AddChild(vm: Vm, parent: nat, child: nat)
    requires Good(vm) && Known(vm) && parent in vm.procs && child !in vm.procs && |vm.procs| < NPROC
    ensures var vm0 := vm.(procs := vm.procs[child := Proc(vm.procs[parent].sz, false)]);
            && Inv(vm0) && Known(vm0) && Abs(vm0).pages == Abs(vm).pages
            && (forall x | x in vm.pt :: x.pid != child)
            && PgUp(vm.procs[parent].sz) <= USERPAGES
  {
    PidsKnown(vm);
    hide Inv;
    SameTablesInv(vm, vm.procs[child := Proc(vm.procs[parent].sz, false)], vm.mem);
  }

  lemma ForkOk(vm: Vm, e: Event)
    requires Good(vm) && Known(vm) && e.Fork? && Enabled(vm, e)
    requires e.dir && PgUp(vm.procs[e.parent].sz) <= e.room
    ensures Step(vm, e).1 && Refines(vm, Step(vm, e).0, e, true)
  {
    hide Inv, PgUp, OpenPages, CopiesFor;
    var n := PgUp(vm.procs[e.parent].sz);
    var vm0 := vm.(procs := vm.procs[e.child := Proc(vm.procs[e.parent].sz, false)]);
    AddChild(vm, e.parent, e.child);
    CopyPagesInv(vm0, e.parent, e.child, n);
    var vm' := CopyPages(vm0, e.parent, e.child, n);
    AllKnown(vm');
    CopiedAbs(vm0, vm', e.parent, e.child, n);
    assert Bounded(vm');
    hide Bounded;
  }

  /** The parent's entries after a failed `fork`; the child leaves no trace. */
  lemma ForkUndone(vm: Vm, vm1: Vm, parent: nat, child: nat, room: nat)
    requires Good(vm) && Known(vm) && parent in vm.procs && child !in vm.procs
    requires Inv(vm1) && Copied(vm.(procs := vm1.procs), vm1, parent, child, room)
    requires vm1.procs == vm.procs[child := Proc(vm.procs[parent].sz, false)]
    requires Slot(parent, room) in vm.pt && room < USERPAGES
    requires forall x | x in vm.pt :: x.pid != child
    ensures var x := Slot(parent, room);
            && x in vm1.pt
            && var vm2 := vm1.(pt := vm1.pt[x := Share(vm1.pt[x])]);
            && var vm3 := UnmapRange(vm2, child, 0, USERPAGES);
            && Inv(vm3) && vm3 == vm1.(pt := vm3.pt) && vm3.pt.Keys == vm.pt.Keys
            && (forall y | y in vm.pt :: vm3.pt[y]
                  == if y.pid == parent && y.page < room + 1 then Share(vm.pt[y]) else vm.pt[y])
  {
    hide Inv, UnmapRange, Share;
    var x := Slot(parent, room);
    assert x in vm1.pt;
    EntryOk(vm1, x);
    ShareFlags(vm1.pt[x]);
    FlagInv(vm1, x, Share(vm1.pt[x]));
    var vm2 := vm1.(pt := vm1.pt[x := Share(vm1.pt[x])]);
    AllKnown(vm2);
    UnmapRangeAbs(vm2, child, 0, USERPAGES);
    hide Abs, Known, Without;
    var vm3 := UnmapRange(vm2, child, 0, USERPAGES);
    forall y | y in vm3.pt ensures y in vm.pt {
      assert y in vm2.pt && !(y.pid == child && 0 <= y.page < USERPAGES);
    }
    forall y | y in vm.pt ensures y in vm3.pt && vm3.pt[y]
        == if y.pid == parent && y.page < room + 1 then Share(vm.pt[y]) else vm.pt[y]
    {
      assert y in vm2.pt;
    }
  }

  lemma OpenedAbs(vm: Vm, vm': Vm, parent: nat, k: nat)
    requires Inv(vm) && Known(vm) && Known(vm') && vm'.mem == vm.mem && vm'.pt.Keys == vm.pt.Keys
    requires forall y | y in vm.pt :: vm'.pt[y]
               == if y.pid == parent && y.page < k then Share(vm.pt[y]) else vm.pt[y]
    ensures Abs(vm').pages == OpenPages(Abs(vm).pages, parent, k)
  {
    hide Inv, Share, ViewOf, Opened;
    var a, b := Abs(vm').pages, OpenPages(Abs(vm).pages, parent, k);
    assert a.Keys == b.Keys;
    forall x | x in a ensures a[x] == b[x] {
      ShareOpens(vm, x);
    }
  }

  lemma ForkFailed(vm: Vm, e: Event)
    requires Good(vm) && Known(vm) && e.Fork? && Enabled(vm, e)
    requires e.dir && e.room < PgUp(vm.procs[e.parent].sz)
    ensures !Step(vm, e).1 && Refines(vm, Step(vm, e).0, e, false)
  {
    hide Inv, PgUp, OpenPages, UnmapRange, CopyPages, Share, Abs;
    var vm0 := vm.(procs := vm.procs[e.child := Proc(vm.procs[e.parent].sz, false)]);
    AddChild(vm, e.parent, e.child);
    CopyPagesInv(vm0, e.parent, e.child, e.room);
    var vm1 := CopyPages(vm0, e.parent, e.child, e.room);
    ForkUndone(vm, vm1, e.parent, e.child, e.room);
    hide Copied;
    var x := Slot(e.parent, e.room);
    var vm3 := UnmapRange(vm1.(pt := vm1.pt[x := Share(vm1.pt[x])]), e.child, 0, USERPAGES);
    assert vm3.procs - {e.child} == vm.procs;
    var vm' := vm3.(procs := vm.procs);
    assert vm' == Step(vm, e).0;
    hide Step;
    ChildGone(vm, vm3, e.parent, e.child, e.room);
    AbsParts(vm);
    AbsParts(vm');
  }

  /** Without the child, the parent's pages are as they were, opened up to page `room`. */
  lemma ChildGone(vm: Vm, vm3: Vm, parent: nat, child: nat, room: nat)
    requires Good(vm) && Known(vm) && Inv(vm3) && vm3.mem == vm.mem && vm3.pt.Keys == vm.pt.Keys
    requires child !in vm.procs && vm3.procs - {child} == vm.procs
    requires forall y | y in vm.pt :: vm3.pt[y]
               == if y.pid == parent && y.page < room + 1 then Share(vm.pt[y]) else vm.pt[y]
    ensures var vm' := vm3.(procs := vm.procs);
            && Good(vm') && Known(vm') && Abs(vm').pages == OpenPages(Abs(vm).pages, parent, room + 1)
  {
    hide Inv, OpenPages, Share, Abs;
    PidsKnown(vm);
    SameTablesInv(vm3, vm.procs, vm3.mem);
    var vm' := vm3.(procs := vm.procs);
    AllKnown(vm');
    OpenedAbs(vm, vm', parent, room + 1);
  }

  lemma AbsParts(vm: Vm)
    requires Known(vm)
    ensures Abs(vm).procs == vm.procs && Abs(vm).pages.Keys == vm.pt.Keys
  {
  }

  // ---------- the free list ----------

  /** The lists may hold any unused frames. */
  lemma ListsInv(vm: Vm, free: seq<nat>, kernel: set<nat>)
    requires Inv(vm)
    requires forall i | 0 <= i < |free| :: Unused(vm, free[i]) && free[i] !in kernel
    requires forall i, j | 0 <= i < j < |free| :: free[i] != free[j]
    requires forall f | f in kernel :: Unused(vm, f)
    ensures Inv(vm.(free := free, kernel := kernel))
  {
    var vm1 := vm.(free := free, kernel := kernel);
    forall x | x in vm.pt ensures PteOk(vm1, x) {
      assert PteOk(vm, x);
    }
    assert forall f: nat | Unused(vm, f) :: Unused(vm1, f);
    hide Unused, PteOk;
  }

  /** Nobody sees an unused frame. */
  lemma UnusedUnseen(vm: Vm, mem: map<nat, Page>)
    requires Known(vm) && mem.Keys == vm.mem.Keys
    requires forall f | f in mem && mem[f] != vm.mem[f] :: Unused(vm, f)
    ensures forall x | x in vm.pt :: mem[vm.pt[x].frame] == vm.mem[vm.pt[x].frame]
  {
    forall x | x in vm.pt ensures mem[vm.pt[x].frame] == vm.mem[vm.pt[x].frame] {
      assert x in Refs(vm.pt, vm.pt[x].frame);
    }
  }

  /** Rearranging unused frames, and overwriting them, is invisible. */
  lemma UnusedFrames(vm: Vm, free: seq<nat>, kernel: set<nat>, mem: map<nat, Page>)
    requires Inv(vm) && Known(vm) && mem.Keys == vm.mem.Keys
    requires forall i | 0 <= i < |free| :: Unused(vm, free[i]) && free[i] !in kernel
    requires forall i, j | 0 <= i < j < |free| :: free[i] != free[j]
    requires forall f | f in kernel :: Unused(vm, f)
    requires forall f | f in mem && mem[f] != vm.mem[f] :: Unused(vm, f)
    ensures var vm' := vm.(free := free, kernel := kernel, mem := mem);
            Inv(vm') && Known(vm') && Abs(vm') == Abs(vm)
  {
    hide Inv, Unused, Refs;
    var vm1 := vm.(free := free, kernel := kernel);
    ListsInv(vm, free, kernel);
    PidsKnown(vm1);
    UnusedUnseen(vm, mem);
    SameTablesInv(vm1, vm.procs, mem);
    var vm' := vm.(free := free, kernel := kernel, mem := mem);
    assert Abs(vm').pages == Abs(vm).pages;
  }

  lemma FreeFacts(vm: Vm)
    requires Inv(vm)
    ensures forall i | 0 <= i < |vm.free| :: Unused(vm, vm.free[i]) && vm.free[i] !in vm.kernel
    ensures forall i, j | 0 <= i < j < |vm.free| :: vm.free[i] != vm.free[j]
    ensures forall f | f in vm.kernel :: Unused(vm, f)
  {
  }

  /** Take the first free frame off the list; it stays unused and is on no list. */
  lemma PopInv(vm: Vm, page: Page)
    requires Inv(vm) && Known(vm) && vm.free != []
    ensures var f := vm.free[0];
            var vm' := vm.(mem := vm.mem[f := page], free := vm.free[1..]);
            && Inv(vm') && Known(vm') && Abs(vm') == Abs(vm)
            && Unused(vm', f) && f !in vm'.kernel && (forall i | 0 <= i < |vm'.free| :: vm'.free[i] != f)
  {
    hide Inv, Unused, Known, Abs;
    FreeFacts(vm);
    var f := vm.free[0];
    var mem := vm.mem[f := page];
    assert Unused(vm, f);
    assert f in vm.mem by { FirstFreeKnown(vm); }
    UnusedFrames(vm, vm.free[1..], vm.kernel, mem);
    StillUnused(vm, vm.(mem := mem, free := vm.free[1..]), f);
  }

  lemma StillUnused(vm: Vm, vm': Vm, f: nat)
    requires Unused(vm, f) && vm'.pt == vm.pt && vm'.count == vm.count && vm'.mem.Keys == vm.mem.Keys
    ensures Unused(vm', f)
  {
  }

  lemma PushInv(vm: Vm, f: nat, kernel: set<nat>)
    requires Inv(vm) && Known(vm) && Unused(vm, f) && kernel == vm.kernel - {f}
    requires forall i | 0 <= i < |vm.free| :: vm.free[i] != f
    ensures var vm' := Kfree(vm, f).(kernel := kernel);
            Inv(vm') && Known(vm') && Abs(vm') == Abs(vm)
  {
    hide Inv, Known, Abs, Filled;
    FreeFacts(vm);
    UnusedFrames(vm, [f] + vm.free, kernel, vm.mem[f := Filled(1)]);
  }

  // ---------- sbrk ----------

  lemma NothingThere(vm: Vm, pid: nat, hi: nat)
    requires Bounded(vm) && pid in vm.procs
    ensures forall v | PgUp(vm.procs[pid].sz) <= v < hi :: Slot(pid, v) !in vm.pt
  {
    hide PgUp;
  }

  lemma PgUpMono(a: nat, b: nat)
    requires a <= b
    ensures PgUp(a) <= PgUp(b)
  {
  }

  /** Every page lies below the size its process will have with `pid` at `newsz`. */
  ghost predicate BoundedAt(vm: Vm, pid: nat, newsz: nat) {
    forall x | x in vm.pt :: x.pid in vm.procs
      && x.page < PgUp(if x.pid == pid then newsz else vm.procs[x.pid].sz)
  }

  lemma GrowOk(vm: Vm, pid: nat, newsz: nat, lo: nat, hi: nat)
    requires Good(vm) && Known(vm) && pid in vm.procs
    requires vm.procs[pid].sz <= newsz < KERNBASE
    requires lo == PgUp(vm.procs[pid].sz) && hi == PgUp(newsz) && lo <= hi <= lo + |vm.free|
    ensures var vm1 := GrowPages(vm, pid, lo, hi - lo);
            && vm1.procs == vm.procs
            && var vm' := SetSize(vm1, pid, newsz);
            && Good(vm') && Known(vm')
            && Abs(vm') == Eager(vm.procs[pid := vm.procs[pid].(sz := newsz)],
                                 Abs(vm).pages + NewPages(pid, lo, hi))
  {
    hide Inv, PgUp, NewPages, GrowPages, Abs, Known, SetSize;
    NothingThere(vm, pid, hi);
    GrowPagesFrame(vm, pid, lo, hi - lo);
    var vm1 := GrowPages(vm, pid, lo, hi - lo);
    assert BoundedAt(vm1, pid, newsz);
    hide BoundedAt, Bounded;
    GrowPagesAbs(vm, pid, lo, hi - lo);
    ResizeAbs(vm1, pid, newsz);
  }

  lemma ResizeAbs(vm: Vm, pid: nat, newsz: nat)
    requires Inv(vm) && Known(vm) && pid in vm.procs && newsz < KERNBASE
    requires BoundedAt(vm, pid, newsz)
    ensures var vm' := SetSize(vm, pid, newsz);
            && Good(vm') && Known(vm')
            && Abs(vm') == Abs(vm).(procs := vm.procs[pid := vm.procs[pid].(sz := newsz)])
  {
    PidsKnown(vm);
    hide Inv, PgUp;
    var vm' := SetSize(vm, pid, newsz);
    assert vm'.procs.Keys == vm.procs.Keys;
    SameTablesInv(vm, vm'.procs, vm.mem);
    assert Bounded(vm');
    assert Abs(vm').pages == Abs(vm).pages;
  }

  /** A failed `allocuvm` leaves every process as it was. */
  lemma GrowFailed(vm: Vm, pid: nat, newsz: nat, room: nat)
    requires Good(vm) && Known(vm) && pid in vm.procs && vm.procs[pid].sz <= newsz < KERNBASE
    requires !Alloc(vm, pid, vm.procs[pid].sz, newsz, room).1
    ensures var vm' := Alloc(vm, pid, vm.procs[pid].sz, newsz, room).0;
            Good(vm') && Known(vm') && Abs(vm') == Abs(vm)
  {
    var lo, hi := PgUp(vm.procs[pid].sz), PgUp(newsz);
    var j: nat := if room < |vm.free| then room else |vm.free|;
    PgUpMono(vm.procs[pid].sz, newsz);
    NothingThere(vm, pid, hi);
    hide Inv, PgUp, GrowPages, UnmapRange, Filled;
    GrowPagesFrame(vm, pid, lo, j);
    GrowPagesAbs(vm, pid, lo, j);
    var vm1 := GrowPages(vm, pid, lo, j);
    if vm1.free == [] {
      GrowUndone(vm, vm1, pid, lo, hi, j);
    } else {
      var f := vm1.free[0];
      var vm2 := vm1.(mem := vm1.mem[f := Filled(0)], free := vm1.free[1..]);
      PopInv(vm1, Filled(0));
      GrowUndone(vm, vm2, pid, lo, hi, j);
      var vm3 := UnmapRange(vm2, pid, lo, hi);
      UnmapRangeAbs(vm2, pid, lo, hi);
      assert Unused(vm3, f) by { UnmapUnused(vm2, vm3, f); }
      assert vm3.kernel - {f} == vm3.kernel;
      PushInv(vm3, f, vm3.kernel);
    }
  }

  lemma UnmapUnused(vm: Vm, vm': Vm, f: nat)
    requires Unused(vm, f) && vm'.count == vm.count && vm'.mem.Keys == vm.mem.Keys
    requires forall x | x in vm'.pt :: x in vm.pt && vm'.pt[x] == vm.pt[x]
    ensures Unused(vm', f)
  {
    forall x | x in vm'.pt ensures vm'.pt[x].frame != f {
      assert x in Refs(vm.pt, vm.pt[x].frame);
    }
  }

  lemma GrowUndone(vm: Vm, vm1: Vm, pid: nat, lo: nat, hi: nat, j: nat)
    requires Good(vm) && Known(vm) && Inv(vm1) && Known(vm1) && lo + j <= hi
    requires Abs(vm1).pages == Abs(vm).pages + NewPages(pid, lo, lo + j) && vm1.procs == vm.procs
    requires forall v | lo <= v < hi :: Slot(pid, v) !in vm.pt
    ensures var vm' := UnmapRange(vm1, pid, lo, hi);
            Good(vm') && Known(vm') && Abs(vm') == Abs(vm)
  {
    hide Inv, PgUp, UnmapRange, Filled;
    UnmapRangeAbs(vm1, pid, lo, hi);
    var vm' := UnmapRange(vm1, pid, lo, hi);
    var a, b := Abs(vm').pages, Abs(vm).pages;
    forall x ensures x in a <==> x in b {
    }
    assert a.Keys == b.Keys;
    assert a == b;
    AbsParts(vm');
    AbsParts(vm);
  }

  lemma ShrinkAbs(vm: Vm, pid: nat, newsz: nat)
    requires Good(vm) && Known(vm) && pid in vm.procs && newsz < vm.procs[pid].sz
    ensures var vm1 := UnmapRange(vm, pid, PgUp(newsz), PgUp(vm.procs[pid].sz));
            && Good(vm1) && Known(vm1) && vm1.procs == vm.procs && BoundedAt(vm1, pid, newsz)
            && Abs(vm1) == Eager(vm.procs, Without(Abs(vm).pages, pid, PgUp(newsz),
                                                   PgUp(vm.procs[pid].sz)))
  {
    hide Inv, PgUp, UnmapRange, Without, Abs;
    UnmapRangeAbs(vm, pid, PgUp(newsz), PgUp(vm.procs[pid].sz));
    AbsParts(UnmapRange(vm, pid, PgUp(newsz), PgUp(vm.procs[pid].sz)));
  }

  lemma SbrkGrows(vm: Vm, e: Event)
    requires Good(vm) && Known(vm) && e.Sbrk? && Enabled(vm, e) && e.n > 0
    ensures var (vm', ok) := Step(vm, e); Refines(vm, vm', e, ok)
  {
    hide Inv, Abs, GrowPages, UnmapRange, NewPages, Without, PgUp, Known, Bounded;
    var sz := vm.procs[e.pid].sz;
    var newsz := (sz + e.n) % WORD;
    AbsParts(vm);
    if sz <= newsz < KERNBASE {
      PgUpMono(sz, newsz);
      if Alloc(vm, e.pid, sz, newsz, e.room).1 {
        GrowOk(vm, e.pid, newsz, PgUp(sz), PgUp(newsz));
      } else {
        GrowFailed(vm, e.pid, newsz, e.room);
      }
    }
  }

  lemma SbrkShrinks(vm: Vm, e: Event)
    requires Good(vm) && Known(vm) && e.Sbrk? && Enabled(vm, e) && e.n <= 0
    ensures var (vm', ok) := Step(vm, e); Refines(vm, vm', e, ok)
  {
    hide Inv, Abs, UnmapRange, Without, PgUp, Known, Bounded, BoundedAt;
    var sz := vm.procs[e.pid].sz;
    var newsz := (sz + e.n) % WORD;
    AbsParts(vm);
    if e.n < 0 && newsz < sz {
      ShrinkAbs(vm, e.pid, newsz);
      if newsz != 0 {
        SmallSizes(vm, e.pid);
        ResizeAbs(UnmapRange(vm, e.pid, PgUp(newsz), PgUp(sz)), e.pid, newsz);
      }
    }
  }

  lemma SmallSizes(vm: Vm, pid: nat)
    requires Inv(vm) && pid in vm.procs
    ensures vm.procs[pid].sz < KERNBASE
  {
  }

  lemma StoreRefines(vm: Vm, e: Event)
    requires Good(vm) && Known(vm) && e.Store? && Enabled(vm, e)
    ensures var (vm', ok) := Step(vm, e); Refines(vm, vm', e, ok)
  {
    hide Inv, Abs, Bounded, PutByte;
    var x := Slot(e.pid, e.va / PGSIZE);
    AbsParts(vm);
    if Mapped(vm, x) && vm.pt[x].u && vm.pt[x].w {
      PokeAbs(vm, x, e.va % PGSIZE, e.b);
      StillBounded(vm, Step(vm, e).0);
    } else if CanSplit(vm, x, e.va) {
      SplitAbs(vm, x);
      var vm1 := SplitPage(vm, x);
      SplitFrame(vm, x);
      EntryOk(vm1, x);
      PokeAbs(vm1, x, e.va % PGSIZE, e.b);
      StillBounded(vm, Step(vm, e).0);
    }
  }

  lemma SplitFrame(vm: Vm, x: Slot)
    requires Mapped(vm, x) && (vm.count[vm.pt[x].frame] == 1 || vm.free != [])
    ensures SplitPage(vm, x).procs == vm.procs && SplitPage(vm, x).pt.Keys == vm.pt.Keys
  {
  }

  lemma StillBounded(vm: Vm, vm': Vm)
    requires Bounded(vm) && vm'.procs == vm.procs && vm'.pt.Keys == vm.pt.Keys
    ensures Bounded(vm')
  {
  }

  /** The frames of page tables have count 0, so `exit` lowers no count. */
  lemma ExitRefines(vm: Vm, e: Event)
    requires Good(vm) && Known(vm) && e.Exit? && Enabled(vm, e)
    ensures var (vm', ok) := Step(vm, e); Refines(vm, vm', e, ok) && vm'.count == vm.count
  {
    ExitCounts(vm, e);
    hide Good, Known, Abs, Step, Enabled;
    ZombieKept(vm, e.pid);
    AbsParts(vm);
    AbsParts(Step(vm, e).0);
  }

  lemma ExitCounts(vm: Vm, e: Event)
    requires Good(vm) && Known(vm) && e.Exit? && Enabled(vm, e)
    ensures e.pid in vm.procs
    ensures Step(vm, e)
         == (vm.(procs := vm.procs[e.pid := vm.procs[e.pid].(zombie := true)]), true)
  {
    FreeFacts(vm);
    assert Step(vm, e).0.count == vm.count;
    hide Inv;
  }

  /** A zombie keeps its pages. */
  lemma ZombieKept(vm: Vm, pid: nat)
    requires Good(vm) && Known(vm) && pid in vm.procs
    ensures var vm' := vm.(procs := vm.procs[pid := vm.procs[pid].(zombie := true)]);
            Good(vm') && Known(vm') && Abs(vm').pages == Abs(vm).pages
  {
    var vm' := vm.(procs := vm.procs[pid := vm.procs[pid].(zombie := true)]);
    PidsKnown(vm);
    hide Inv, PgUp;
    assert vm'.procs.Keys == vm.procs.Keys;
    SameTablesInv(vm, vm'.procs, vm.mem);
  }

  lemma BelowUserPages(vm: Vm, pid: nat)
    requires Good(vm)
    ensures forall x | x in vm.pt && x.pid == pid :: x.page < USERPAGES
  {
    if pid in vm.procs { SmallSizes(vm, pid); }
    hide Inv, PgUp;
    forall x | x in vm.pt && x.pid == pid ensures x.page < USERPAGES {
      assert x.pid in vm.procs && x.page < PgUp(vm.procs[x.pid].sz);
    }
  }

  lemma WaitRefines(vm: Vm, e: Event)
    requires Good(vm) && Known(vm) && e.Wait? && Enabled(vm, e)
    ensures var (vm', ok) := Step(vm, e); Refines(vm, vm', e, ok)
  {
    hide Inv, PgUp, UnmapRange;
    BelowUserPages(vm, e.pid);
    UnmapRangeAbs(vm, e.pid, 0, USERPAGES);
    PidsKnown(vm);
    var vm1 := UnmapRange(vm, e.pid, 0, USERPAGES);
    var vm' := Step(vm, e).0;
    assert forall x | x in vm1.pt :: x.pid != e.pid;
    FewerKeys(vm'.procs.Keys, vm.procs.Keys);
    SameTablesInv(vm1, vm'.procs, vm1.mem);
    assert Bounded(vm');
    AbsParts(vm);
    assert Without(Abs(vm).pages, e.pid, 0, USERPAGES)
        == map x | x in Abs(vm).pages && x.pid != e.pid :: Abs(vm).pages[x];
    assert Abs(vm').pages == Abs(vm1).pages;
  }

  lemma FewerKeys(a: set<nat>, b: set<nat>)
    requires a <= b
    ensures |a| <= |b|
  {
    assert b == a + (b - a);
  }

  lemma KernelRefines(vm: Vm, e: Event)
    requires Good(vm) && Known(vm) && (e.KernelAlloc? || e.KernelFree?) && Enabled(vm, e)
    ensures var (vm', ok) := Step(vm, e); Refines(vm, vm', e, ok)
  {
    hide Inv, Abs, Known, Filled;
    FreeFacts(vm);
    var vm' := Step(vm, e).0;
    if e.KernelAlloc? {
      FirstFreeKnown(vm);
      UnusedFrames(vm, vm.free[1..], vm.kernel + {vm.free[0]}, vm.mem[vm.free[0] := e.page]);
    } else {
      PushInv(vm, e.frame, vm.kernel - {e.frame});
    }
    StillBounded(vm, vm');
  }

  /** Every single step of the copy-on-write kernel is a step of the kernel that copies. */
  lemma StepRefines(vm: Vm, e: Event)
    requires Good(vm) && Known(vm) && Enabled(vm, e)
    ensures var (vm', ok) := Step(vm, e); Refines(vm, vm', e, ok)
  {
    match e
    case Fork(parent, child, dir, room) =>
      if dir {
        if PgUp(vm.procs[parent].sz) <= room { ForkOk(vm, e); } else { ForkFailed(vm, e); }
      }
    case Sbrk(_, n, _) => if n > 0 { SbrkGrows(vm, e); } else { SbrkShrinks(vm, e); }
    case Store(_, _, _) => StoreRefines(vm, e);
    case Exit(_, _) => ExitRefines(vm, e);
    case Wait(_) => WaitRefines(vm, e);
    case KernelAlloc(_) => KernelRefines(vm, e);
    case KernelFree(_) => KernelRefines(vm, e);
  }
}
