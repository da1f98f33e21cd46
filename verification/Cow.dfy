/** Copy-on-write address spaces (`vm.c`, `kalloc.c`, `proc.c`): processes share page frames after
`fork`, saturating 8-bit counts bound the sharing, and a write fault splits a shared frame.

The page tables of all processes together are one map from (process, page number) to a frame and
flags. Frames used by the kernel itself (page tables, kernel stacks, pipes) come from the same free
list and are tracked as a set. */
module Cow {
  import opened Common

  const KERNBASE: nat := 0x8000_0000
  const NPROC: nat := 64
  const WMAP_LOW: nat := 0x6000_0000

  datatype Page = Page(bytes: seq<nat>)

  /** A page of zeroes, or of the ones `kfree` leaves behind. */
  function Filled(b: nat): Page {
    Page(seq(PGSIZE, _ => b))
  }

  /** Page `page` of process `pid`. */
  datatype Slot = Slot(pid: nat, page: nat)

  datatype Pte = Pte(frame: nat, w: bool, u: bool, cow: bool)
  datatype Proc = Proc(sz: nat, zombie: bool)

  datatype Vm = Vm(procs: map<nat, Proc>, pt: map<Slot, Pte>, mem: map<nat, Page>,
                   count: map<nat, nat>, free: seq<nat>, kernel: set<nat>)

  function PgUp(a: nat): nat {
    (a + PGSIZE - 1) / PGSIZE
  }

  // ---------- reference counts ----------

  function Inc(c: nat): nat {
    if c < 255 then c + 1 else c
  }

  function Dec(c: nat): nat {
    if c > 0 then c - 1 else c
  }

  /** The page-table entries that map frame `f`. */
  function Refs(pt: map<Slot, Pte>, f: nat): set<Slot> {
    set x | x in pt && pt[x].frame == f
  }

  // ---------- single page-table operations ----------

  predicate Mapped(vm: Vm, x: Slot) {
    x in vm.pt && vm.pt[x].frame in vm.mem && vm.pt[x].frame in vm.count
  }

  /** Map a page to the first free frame, filled with `page`, count 1. */
  function MapFresh(vm: Vm, x: Slot, page: Page, w: bool, u: bool): Vm
    requires vm.free != []
  {
    var f := vm.free[0];
    vm.(pt := vm.pt[x := Pte(f, w, u, false)], mem := vm.mem[f := page],
        count := vm.count[f := 1], free := vm.free[1..])
  }

  function Kfree(vm: Vm, f: nat): Vm {
    vm.(mem := vm.mem[f := Filled(1)], free := [f] + vm.free)
  }

  /** One round of `deallocuvm`: clear the entry, and free the frame only if its count is 0. */
  function Unmap(vm: Vm, x: Slot): Vm {
    if !Mapped(vm, x) then vm else
    var f := vm.pt[x].frame;
    (if vm.count[f] == 0 then Kfree(vm, f) else vm).(pt := vm.pt - {x})
  }

  /** The entry both sides hold after `copyuvm`: a writable page becomes copy-on-write and user. */
  function Share(pte: Pte): Pte {
    if pte.w then pte.(w := false, cow := true, u := true) else pte
  }

  /** One round of `copyuvm`; a page that is not present is a panic, here no step. */
  function SharePage(vm: Vm, parent: nat, child: nat, v: nat): Vm {
    if !Mapped(vm, Slot(parent, v)) then vm else
    var pte := Share(vm.pt[Slot(parent, v)]);
    vm.(pt := vm.pt[Slot(parent, v) := pte][Slot(child, v) := pte],
        count := vm.count[pte.frame := Inc(vm.count[pte.frame])])
  }

  /** The checks of `handle_cow_fault`, including that `kalloc` succeeds when it is needed. */
  predicate CanSplit(vm: Vm, x: Slot, va: nat) {
    && x.pid in vm.procs && va < vm.procs[x.pid].sz && Mapped(vm, x)
    && vm.pt[x].u && vm.pt[x].cow
    && vm.count[vm.pt[x].frame] >= 1
    && (vm.count[vm.pt[x].frame] == 1 || vm.free != [])
  }

  /** `handle_cow_fault` past its checks: keep a frame of count 1, else copy it. */
  function SplitPage(vm: Vm, x: Slot): Vm
    requires Mapped(vm, x) && (vm.count[vm.pt[x].frame] == 1 || vm.free != [])
  {
    var pte := vm.pt[x];
    var f := pte.frame;
    if vm.count[f] == 1 then vm.(pt := vm.pt[x := pte.(w := true, cow := false)])
    else MapFresh(vm.(count := vm.count[f := Dec(vm.count[f])]), x, vm.mem[f], true, pte.u)
  }

  // ---------- whole operations ----------

  /** `allocuvm`'s loop: `k` zeroed pages from page `lo` on. */
  function GrowPages(vm: Vm, pid: nat, lo: nat, k: nat): Vm {
    if k == 0 then vm else
    var vm' := GrowPages(vm, pid, lo, k - 1);
    if vm'.free == [] then vm' else MapFresh(vm', Slot(pid, lo + k - 1), Filled(0), true, true)
  }

  /** `deallocuvm`'s loop over the pages from `lo` to below `hi`. */
  function UnmapRange(vm: Vm, pid: nat, lo: nat, hi: nat): Vm
    decreases hi
  {
    if hi <= lo then vm else Unmap(UnmapRange(vm, pid, lo, hi - 1), Slot(pid, hi - 1))
  }

  /** `copyuvm`'s loop over the first `k` pages. */
  function CopyPages(vm: Vm, parent: nat, child: nat, k: nat): Vm {
    if k == 0 then vm else SharePage(CopyPages(vm, parent, child, k - 1), parent, child, k - 1)
  }

  /** The pages below KERNBASE. */
  const USERPAGES: nat := KERNBASE / PGSIZE

  /** `allocuvm` to `newsz`; `room` is the number of pages for which page-table space can be found.
  On failure the new pages are unmapped again, and a page that could not be mapped is freed. */
  function Alloc(vm: Vm, pid: nat, oldsz: nat, newsz: nat, room: nat): (Vm, bool) {
    var lo, hi := PgUp(oldsz), PgUp(newsz);
    var k: nat := if hi > lo then hi - lo else 0;
    var j: nat := if room < |vm.free| then room else |vm.free|;
    if k <= j then (GrowPages(vm, pid, lo, k), true) else
    var vm1 := GrowPages(vm, pid, lo, j);
    if vm1.free == [] then (UnmapRange(vm1, pid, lo, hi), false) else
    var f := vm1.free[0];
    var vm2 := vm1.(mem := vm1.mem[f := Filled(0)], free := vm1.free[1..]);
    (Kfree(UnmapRange(vm2, pid, lo, hi), f), false)
  }

  function SetSize(vm: Vm, pid: nat, sz: nat): Vm
    requires pid in vm.procs
  {
    vm.(procs := vm.procs[pid := vm.procs[pid].(sz := sz)])
  }

  /** `growproc`: note that shrinking to size 0 reports failure and leaves `sz` as it was. */
  function Sbrk(vm: Vm, pid: nat, n: int, room: nat): (Vm, bool)
    requires pid in vm.procs
  {
    var sz := vm.procs[pid].sz;
    var newsz := (sz + n) % WORD;
    if n == 0 then (vm, true)
    else if n > 0 then
      if newsz >= KERNBASE then (vm, false)
      else if newsz < sz then (vm, sz != 0) else
      var (vm', ok) := Alloc(vm, pid, sz, newsz, room);
      (if ok && pid in vm'.procs then SetSize(vm', pid, newsz) else vm', ok)
    else if newsz >= sz then (vm, sz != 0)
    else
      var vm' := UnmapRange(vm, pid, PgUp(newsz), PgUp(sz));
      if newsz == 0 || pid !in vm'.procs then (vm', false) else (SetSize(vm', pid, newsz), true)
  }

  /** `copyuvm` in `fork`: `dir` says whether a page directory could be allocated, and `room` for
  how many pages page-table space can be found. */
  function Fork(vm: Vm, parent: nat, child: nat, dir: bool, room: nat): (Vm, bool)
    requires parent in vm.procs
  {
    if !dir then (vm, false) else
    var n := PgUp(vm.procs[parent].sz);
    var vm0 := vm.(procs := vm.procs[child := Proc(vm.procs[parent].sz, false)]);
    if n <= room then (CopyPages(vm0, parent, child, n), true) else
    var vm1 := CopyPages(vm0, parent, child, room);
    var x := Slot(parent, room);
    var vm2 := if x in vm1.pt then vm1.(pt := vm1.pt[x := Share(vm1.pt[x])]) else vm1;
    var vm3 := UnmapRange(vm2, child, 0, USERPAGES);
    (vm3.(procs := vm3.procs - {child}), false)
  }

  /** A user store of byte `b`, with the fault taken if the page is not writable. */
  function Store(vm: Vm, pid: nat, va: nat, b: nat): (Vm, bool) {
    var x := Slot(pid, va / PGSIZE);
    if Mapped(vm, x) && vm.pt[x].u && vm.pt[x].w then (Poke(vm, x, va % PGSIZE, b), true)
    else if CanSplit(vm, x, va) then (Poke(SplitPage(vm, x), x, va % PGSIZE, b), true)
    else (vm, false)
  }

  function PutByte(p: Page, off: nat, b: nat): Page {
    if off < |p.bytes| then Page(p.bytes[off := b]) else p
  }

  function Poke(vm: Vm, x: Slot, off: nat, b: nat): Vm {
    if !Mapped(vm, x) then vm else
    var f := vm.pt[x].frame;
    vm.(mem := vm.mem[f := PutByte(vm.mem[f], off, b)])
  }

  // ---------- the invariant ----------

  ghost predicate PteOk(vm: Vm, x: Slot) {
    && x in vm.pt && vm.pt[x].frame in vm.mem && x.pid in vm.procs
    && (vm.pt[x].cow ==> vm.pt[x].u && !vm.pt[x].w)
    // a writable frame has no other mapping
    && (vm.pt[x].w ==> Refs(vm.pt, vm.pt[x].frame) == {x})
  }

  /** A free or kernel frame: count 0 and no mapping. */
  ghost predicate Unused(vm: Vm, f: nat) {
    f in vm.mem && f in vm.count && vm.count[f] == 0 && Refs(vm.pt, f) == {}
  }

  /** Counts bound the mappings from above, and saturation does no harm. */
  ghost predicate CountsOk(vm: Vm) {
    && vm.count.Keys == vm.mem.Keys
    && (forall f | f in vm.count :: |Refs(vm.pt, f)| <= vm.count[f] <= 255)
  }

  ghost predicate ProcsOk(vm: Vm) {
    |vm.procs| <= NPROC && forall pid | pid in vm.procs :: vm.procs[pid].sz < KERNBASE
  }

  /** Within one process, different pages have different frames. */
  ghost predicate Injective(pt: map<Slot, Pte>) {
    forall x, y | x in pt && y in pt && x.pid == y.pid && x != y :: pt[x].frame != pt[y].frame
  }

  ghost predicate ListsOk(vm: Vm) {
    && (forall i | 0 <= i < |vm.free| :: Unused(vm, vm.free[i]) && vm.free[i] !in vm.kernel)
    && (forall i, j | 0 <= i < j < |vm.free| :: vm.free[i] != vm.free[j])
    && (forall f | f in vm.kernel :: Unused(vm, f))
  }

  ghost predicate Inv(vm: Vm) {
    && CountsOk(vm) && ProcsOk(vm) && Injective(vm.pt) && ListsOk(vm)
    && forall x | x in vm.pt :: PteOk(vm, x)
  }

  // ---------- how single operations change the references ----------

  /** Adding an entry, changing its flags, or removing it. */
  lemma RefsAdd(pt: map<Slot, Pte>, x: Slot, pte: Pte)
    requires x !in pt
    ensures forall g | g != pte.frame :: Refs(pt[x := pte], g) == Refs(pt, g)
    ensures Refs(pt[x := pte], pte.frame) == Refs(pt, pte.frame) + {x}
  {
  }

  lemma RefsFlag(pt: map<Slot, Pte>, x: Slot, pte: Pte)
    requires x in pt && pte.frame == pt[x].frame
    ensures forall g :: Refs(pt[x := pte], g) == Refs(pt, g)
  {
  }

  lemma RefsDrop(pt: map<Slot, Pte>, x: Slot)
    requires x in pt
    ensures forall g | g != pt[x].frame :: Refs(pt - {x}, g) == Refs(pt, g)
    ensures Refs(pt - {x}, pt[x].frame) == Refs(pt, pt[x].frame) - {x}
  {
  }

  lemma RefsAre(pt: map<Slot, Pte>)
    ensures forall f, x :: x in Refs(pt, f) <==> x in pt && pt[x].frame == f
  {
  }

  /** A frame is mapped at most once per process, so by at most |procs| entries. */
  lemma RefsBound(vm: Vm, f: nat)
    requires Injective(vm.pt) && forall x | x in vm.pt :: x.pid in vm.procs
    ensures |Refs(vm.pt, f)| <= |vm.procs|
  {
    PidsBound(Refs(vm.pt, f), vm.procs.Keys);
  }

  lemma {:induction false} PidsBound(r: set<Slot>, keys: set<nat>)
    requires forall x | x in r :: x.pid in keys
    requires forall x, y | x in r && y in r && x.pid == y.pid :: x == y
    ensures |r| <= |keys|
    decreases |r|
  {
    if r != {} {
      var x :| x in r;
      PidsBound(r - {x}, keys - {x.pid});
    }
  }

  // ---------- single operations keep the invariant ----------

  lemma ListsKept(vm: Vm, vm': Vm)
    requires ListsOk(vm) && vm'.free == vm.free && vm'.kernel == vm.kernel
    requires forall g: nat | Unused(vm, g) :: Unused(vm', g)
    ensures ListsOk(vm')
  {
    hide Unused;
  }

  /** Only the references and the count of frame `f` change. */
  lemma CountsKept(vm: Vm, vm': Vm, f: nat, c: nat)
    requires CountsOk(vm) && f in vm.count && vm'.count == vm.count[f := c]
    requires vm'.mem.Keys == vm.mem.Keys
    requires forall g | g != f :: Refs(vm'.pt, g) == Refs(vm.pt, g)
    requires |Refs(vm'.pt, f)| <= c <= 255
    ensures CountsOk(vm')
  {
    hide Refs;
    forall g | g in vm'.count ensures |Refs(vm'.pt, g)| <= vm'.count[g] <= 255 {
      assert g != f ==> Refs(vm'.pt, g) == Refs(vm.pt, g);
    }
  }

  lemma DropInv(vm: Vm, x: Slot, c: nat)
    requires Inv(vm) && Mapped(vm, x)
    requires Dec(vm.count[vm.pt[x].frame]) <= c <= vm.count[vm.pt[x].frame]
    ensures Inv(vm.(pt := vm.pt - {x}, count := vm.count[vm.pt[x].frame := c]))
  {
    hide Refs;
    var f := vm.pt[x].frame;
    var vm' := vm.(pt := vm.pt - {x}, count := vm.count[f := c]);
    RefsDrop(vm.pt, x);
    assert x in Refs(vm.pt, f) by { RefsAre(vm.pt); }
    assert CountsOk(vm') by {
      assert |Refs(vm.pt, f) - {x}| == |Refs(vm.pt, f)| - 1;
      CountsKept(vm, vm', f, c);
    }
    forall y | y in vm'.pt ensures PteOk(vm', y) {
      assert PteOk(vm, y);
    }
    assert forall g: nat | Unused(vm, g) :: Unused(vm', g);
    hide Unused, CountsOk, PteOk;
    ListsKept(vm, vm');
  }

  lemma MapFreshInv(vm: Vm, x: Slot, page: Page, w: bool, u: bool)
    requires Inv(vm) && vm.free != [] && x !in vm.pt
    requires x.pid in vm.procs
    ensures Inv(MapFresh(vm, x, page, w, u))
  {
    hide Refs;
    var f := vm.free[0];
    var vm' := MapFresh(vm, x, page, w, u);
    assert Unused(vm, f);
    RefsAdd(vm.pt, x, Pte(f, w, u, false));
    assert CountsOk(vm') by {
      CountsKept(vm, vm', f, 1);
    }
    assert forall y | y in vm.pt :: vm.pt[y].frame != f by { RefsAre(vm.pt); }
    forall y | y in vm'.pt ensures PteOk(vm', y) {
      if y != x { assert PteOk(vm, y); }
    }
    assert Injective(vm'.pt);
    assert forall g | Unused(vm, g) && g != f :: Unused(vm', g);
    assert forall i | 0 <= i < |vm'.free| :: vm'.free[i] == vm.free[i + 1];
    hide Unused, CountsOk, PteOk, Injective;
  }

  /** Changing only the flags of an entry. */
  lemma FlagInv(vm: Vm, x: Slot, pte: Pte)
    requires Inv(vm) && x in vm.pt
    requires pte.frame == vm.pt[x].frame && (pte.cow ==> pte.u && !pte.w)
    requires pte.w ==> Refs(vm.pt, pte.frame) == {x}
    ensures Inv(vm.(pt := vm.pt[x := pte]))
    ensures forall g :: Refs(vm.pt[x := pte], g) == Refs(vm.pt, g)
  {
    hide Refs;
    var vm' := vm.(pt := vm.pt[x := pte]);
    RefsFlag(vm.pt, x, pte);
    forall y | y in vm'.pt ensures PteOk(vm', y) {
      assert PteOk(vm, y);
    }
    assert forall g: nat | Unused(vm, g) :: Unused(vm', g);
    assert CountsOk(vm') by {
      assert PteOk(vm, x);
      assert vm.count[pte.frame := vm.count[pte.frame]] == vm.count;
      CountsKept(vm, vm', pte.frame, vm.count[pte.frame]);
    }
    hide Unused, CountsOk, PteOk;
    ListsKept(vm, vm');
  }

  /** One more read-only mapping of a frame that is mapped but nowhere writable. */
  lemma AddRefInv(vm: Vm, x: Slot, y: Slot)
    requires Inv(vm) && x !in vm.pt && Mapped(vm, y) && !vm.pt[y].w
    requires x.pid in vm.procs
    requires forall z | z in vm.pt && z.pid == x.pid :: vm.pt[z].frame != vm.pt[y].frame
    ensures var f := vm.pt[y].frame;
            Inv(vm.(pt := vm.pt[x := vm.pt[y]], count := vm.count[f := Inc(vm.count[f])]))
  {
    hide Refs;
    var f := vm.pt[y].frame;
    var vm' := vm.(pt := vm.pt[x := vm.pt[y]], count := vm.count[f := Inc(vm.count[f])]);
    assert PteOk(vm, y);
    RefsAdd(vm.pt, x, vm.pt[y]);
    assert y in Refs(vm.pt, f) by { RefsAre(vm.pt); }
    assert Injective(vm'.pt);
    forall z | z in vm'.pt ensures PteOk(vm', z) {
      if z != x { assert PteOk(vm, z); }
    }
    assert forall g: nat | Unused(vm, g) :: Unused(vm', g);
    assert CountsOk(vm') by {
      RefsBound(vm', f);
      assert |Refs(vm.pt, f) + {x}| <= |Refs(vm.pt, f)| + 1;
      CountsKept(vm, vm', f, Inc(vm.count[f]));
    }
    hide Unused, CountsOk, PteOk, Injective;
    ListsKept(vm, vm');
  }

  /** Changes that touch no entry, no count and no list. */
  lemma SameTablesInv(vm: Vm, procs: map<nat, Proc>, mem: map<nat, Page>)
    requires Inv(vm) && mem.Keys == vm.mem.Keys && |procs| <= NPROC
    requires forall p | p in procs :: procs[p].sz < KERNBASE
    requires forall x | x in vm.pt :: x.pid in procs
    ensures Inv(vm.(procs := procs, mem := mem))
  {
    hide Refs;
    var vm' := vm.(procs := procs, mem := mem);
    forall x | x in vm'.pt ensures PteOk(vm', x) {
      assert PteOk(vm, x);
    }
    assert forall g: nat | Unused(vm, g) :: Unused(vm', g);
    hide Unused;
    ListsKept(vm, vm');
  }
}
