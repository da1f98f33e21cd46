/** Which frames the operations take and give back: `fork` takes none, a store takes one only for a
page still shared, and neither an `sbrk` nor a `fork` that fails gives back all that it took. */
module CowFrames {
  import opened Common
  import opened Cow
  import opened CowRuns
  import opened CowTheorems

  // ---------- sbrk ----------

  /** The pages that growing by `n` adds. */
  function Wanted(vm: Vm, pid: nat, n: nat): (k: nat)
    requires pid in vm.procs
  {
    PgUpMono(vm.procs[pid].sz, vm.procs[pid].sz + n);
    PgUp(vm.procs[pid].sz + n) - PgUp(vm.procs[pid].sz)
  }

  /** How many pages it can have. */
  function Possible(vm: Vm, room: nat): nat {
    if room < |vm.free| then room else |vm.free|
  }

  lemma AllocFrames(vm: Vm, pid: nat, newsz: nat, room: nat)
    requires Good(vm) && Known(vm) && pid in vm.procs && vm.procs[pid].sz <= newsz < KERNBASE
    ensures var k := Wanted(vm, pid, newsz - vm.procs[pid].sz);
      var (vm', ok) := Alloc(vm, pid, vm.procs[pid].sz, newsz, room);
      && (ok <==> k <= Possible(vm, room))
      && vm'.free == vm.free[if ok then k else Possible(vm, room)..]
      && vm'.procs == vm.procs
  {
    hide Inv, PgUp, Abs, Known, Bounded, UnmapRange, GrowPages, Filled;
    var sz := vm.procs[pid].sz;
    var lo, k, j := PgUp(sz), Wanted(vm, pid, newsz - sz), Possible(vm, room);
    NothingThere(vm, pid, lo + k);
    var m := if k <= j then k else j;
    GrowPagesFrame(vm, pid, lo, m);
    GrowPagesAbs(vm, pid, lo, m);
    var vm1 := GrowPages(vm, pid, lo, m);
    if k > j {
      if vm1.free == [] {
        UnmapRangeAbs(vm1, pid, lo, lo + k);
      } else {
        PutBack(vm1, pid, lo, lo + k);
      }
    }
  }

  /** A frame taken off the list and given back at once is where it was. */
  lemma PutBack(vm: Vm, pid: nat, lo: nat, hi: nat)
    requires Inv(vm) && Known(vm) && vm.free != []
    ensures var f := vm.free[0];
      var vm2 := vm.(mem := vm.mem[f := Filled(0)], free := vm.free[1..]);
      var vm3 := Kfree(UnmapRange(vm2, pid, lo, hi), f);
      vm3.free == vm.free && vm3.procs == vm.procs
  {
    var f := vm.free[0];
    var vm2 := vm.(mem := vm.mem[f := Filled(0)], free := vm.free[1..]);
    hide UnmapRange, Filled;
    assert Inv(vm2) && Known(vm2) by { FirstOut(vm); }
    UnmapRangeAbs(vm2, pid, lo, hi);
  }

  lemma FirstOut(vm: Vm)
    requires Inv(vm) && Known(vm) && vm.free != []
    ensures var f := vm.free[0];
      var vm2 := vm.(mem := vm.mem[f := Filled(0)], free := vm.free[1..]);
      Inv(vm2) && Known(vm2)
  {
    hide Filled;
    var f := vm.free[0];
    var vm2 := vm.(mem := vm.mem[f := Filled(0)], free := vm.free[1..]);
    assert Unused(vm, f);
    forall x | x in vm2.pt ensures PteOk(vm2, x) { assert PteOk(vm, x); }
    assert vm2.mem.Keys == vm.mem.Keys;
    forall g: nat | Unused(vm, g) ensures Unused(vm2, g) { }
  }

  /** A growing `sbrk` succeeds exactly when the new size is below KERNBASE and every new page can be
  had, and takes one frame for each. If it fails for want of memory it has mapped all the pages it
  could, and none of their frames comes back. */
  lemma SbrkFrames(vm: Vm, pid: nat, n: int, room: nat)
    requires Good(vm) && Known(vm) && Enabled(vm, Event.Sbrk(pid, n, room)) && n > 0
    ensures var (vm', ok) := Cow.Sbrk(vm, pid, n, room);
      var k := Wanted(vm, pid, n);
      && (ok <==> vm.procs[pid].sz + n < KERNBASE && k <= Possible(vm, room))
      && vm'.free == if vm.procs[pid].sz + n >= KERNBASE then vm.free
                     else vm.free[if ok then k else Possible(vm, room)..]
  {
    hide Inv, PgUp, Abs, Known, Bounded, Alloc, Wanted, Possible;
    SizeSmall(vm, pid);
    var sz := vm.procs[pid].sz;
    assert (sz + n) % WORD == sz + n;
    if sz + n < KERNBASE { AllocFrames(vm, pid, sz + n, room); }
  }

  lemma SizeSmall(vm: Vm, pid: nat)
    requires Good(vm) && pid in vm.procs
    ensures vm.procs[pid].sz < KERNBASE
  {
  }

  // ---------- fork ----------

  /** The frame of one of the first `k` pages of `pid`. */
  predicate Among(vm: Vm, pid: nat, k: nat, f: nat) {
    exists v: nat :: v < k && Slot(pid, v) in vm.pt && vm.pt[Slot(pid, v)].frame == f
  }

  /** The counts of those frames have gone up by one, no other has changed. */
  predicate Raised(vm: Vm, vm': Vm, pid: nat, k: nat) {
    && vm'.count.Keys == vm.count.Keys
    && forall f | f in vm.count ::
         vm'.count[f] == if Among(vm, pid, k, f) then Inc(vm.count[f]) else vm.count[f]
  }

  lemma AmongNext(vm: Vm, pid: nat, k: nat, f: nat)
    requires Injective(vm.pt) && Slot(pid, k) in vm.pt
    ensures Among(vm, pid, k + 1, f) <==> Among(vm, pid, k, f) || f == vm.pt[Slot(pid, k)].frame
    ensures !Among(vm, pid, k, vm.pt[Slot(pid, k)].frame)
  {
    if f == vm.pt[Slot(pid, k)].frame {
      assert Slot(pid, k) in vm.pt;
    }
  }

  lemma RaisedNext(vm: Vm, vm1: Vm, pid: nat, child: nat, k: nat)
    requires Injective(vm.pt) && Slot(pid, k) in vm.pt && Raised(vm, vm1, pid, k)
    requires Mapped(vm1, Slot(pid, k)) && vm1.pt[Slot(pid, k)].frame == vm.pt[Slot(pid, k)].frame
    ensures Raised(vm, SharePage(vm1, pid, child, k), pid, k + 1)
  {
    hide Among, Injective, Inc;
    forall f | f in vm.count ensures
      && (Among(vm, pid, k + 1, f) <==> Among(vm, pid, k, f) || f == vm.pt[Slot(pid, k)].frame)
      && !Among(vm, pid, k, vm.pt[Slot(pid, k)].frame)
    {
      AmongNext(vm, pid, k, f);
    }
  }

  lemma {:induction false} CopyRaises(vm: Vm, parent: nat, child: nat, k: nat)
    requires Inv(vm) && parent != child && child in vm.procs
    requires forall v: nat | v < k :: Slot(parent, v) in vm.pt
    requires forall x | x in vm.pt :: x.pid != child
    ensures Raised(vm, CopyPages(vm, parent, child, k), parent, k)
  {
    hide Inv, SharePage, Injective;
    if k > 0 {
      var vm1, x := CopyPages(vm, parent, child, k - 1), Slot(parent, k - 1);
      CopyRaises(vm, parent, child, k - 1);
      CopyPagesInv(vm, parent, child, k - 1);
      InjectiveOf(vm);
      EntryOk(vm1, x);
      hide Raised;
      RaisedNext(vm, vm1, parent, child, k - 1);
    }
  }

  /** `fork` copies no page and takes no frame for one. It raises by one the counts of the pages it
  comes to, and if it fails they stay raised. */
  lemma ForkFrames(vm: Vm, parent: nat, child: nat, room: nat)
    requires Good(vm) && Known(vm) && Enabled(vm, Event.Fork(parent, child, true, room))
    ensures var (vm', ok) := Cow.Fork(vm, parent, child, true, room);
      var n := PgUp(vm.procs[parent].sz);
      && (ok <==> n <= room) && vm'.free == vm.free && vm'.mem == vm.mem
      && Raised(vm, vm', parent, if ok then n else room)
  {
    hide Inv, PgUp, Abs, Known, Bounded, UnmapRange, CopyPages, Raised;
    var n := PgUp(vm.procs[parent].sz);
    var vm0 := vm.(procs := vm.procs[child := Proc(vm.procs[parent].sz, false)]);
    AddChild(vm, parent, child);
    var k := if n <= room then n else room;
    CopyPagesInv(vm0, parent, child, k);
    CopyRaises(vm0, parent, child, k);
    var vm1 := CopyPages(vm0, parent, child, k);
    SameRaised(vm, vm0, vm1, vm1, parent, k);
    if room < n {
      ForkUndone(vm, vm1, parent, child, room);
      SameRaised(vm, vm0, vm1, Cow.Fork(vm, parent, child, true, room).0, parent, k);
    }
  }

  lemma SameRaised(vm: Vm, vm0: Vm, vm1: Vm, vm2: Vm, pid: nat, k: nat)
    requires Raised(vm0, vm1, pid, k) && vm.pt == vm0.pt && vm.count == vm0.count && vm1.count == vm2.count
    ensures Raised(vm, vm2, pid, k)
  {
    assert forall f :: Among(vm0, pid, k, f) == Among(vm, pid, k, f);
  }

  // ---------- stores ----------

  /** A store takes a frame exactly when its page is still shared, by the count. */
  lemma StoreFrames(vm: Vm, pid: nat, va: nat, b: nat)
    requires Good(vm) && Cow.Store(vm, pid, va, b).1
    ensures var x := Slot(pid, va / PGSIZE);
      && x in vm.pt && vm.pt[x].frame in vm.count
      && Cow.Store(vm, pid, va, b).0.free ==
           (if vm.pt[x].w || vm.count[vm.pt[x].frame] == 1 then vm.free else vm.free[1..])
  {
    hide Inv, PutByte;
  }
}
