/** The code of `vm.c` for copy-on-write: loops over pages that update page tables, counts, frames
and the free list in place. Whether page-table space can be found is given by `room`, the number of
pages for which `mappages` succeeds. */
module CowCode {
  import opened Common
  import opened Cow

  /** The page-table page an entry sits in. */
  function DirOf(x: Slot): Slot {
    Slot(x.pid, x.page / 1024)
  }

  /** Where a page-table page is missing there is no entry. */
  lemma NoneInDir(pt: map<Slot, Pte>, dirs: set<Slot>, pid: nat, v: nat)
    requires Slot(pid, v / 1024) !in dirs && forall x | x in pt :: DirOf(x) in dirs
    ensures forall u: nat | v <= u < (v / 1024 + 1) * 1024 :: Slot(pid, u) !in pt
  {
    forall u: nat | v <= u < (v / 1024 + 1) * 1024 ensures Slot(pid, u) !in pt {
      assert u / 1024 == v / 1024;
      assert Slot(pid, u) in pt ==> DirOf(Slot(pid, u)) in dirs;
    }
  }

  /** Pages without an entry need no clearing. */
  lemma {:induction false} SkipRange(s: Vm, pid: nat, lo: nat, v: nat, w: nat)
    requires lo <= v <= w
    requires forall u: nat | v <= u < w :: Slot(pid, u) !in UnmapRange(s, pid, lo, v).pt
    ensures UnmapRange(s, pid, lo, w) == UnmapRange(s, pid, lo, v)
    decreases w - v
  {
    if v < w {
      SkipRange(s, pid, lo, v, w - 1);
    }
  }

  // ---------- rounds of allocuvm's loop ----------

  lemma GrowNone(s: Vm, pid: nat, lo: nat)
    ensures GrowPages(s, pid, lo, 0) == s
  {
  }

  lemma GrowNext(s: Vm, pid: nat, lo: nat, i: nat)
    requires GrowPages(s, pid, lo, i).free != []
    ensures GrowPages(s, pid, lo, i + 1)
         == MapFresh(GrowPages(s, pid, lo, i), Slot(pid, lo + i), Filled(0), true, true)
  {
    hide Filled, MapFresh;
  }

  /** The loop ends with every page mapped. */
  lemma AllocEnough(s: Vm, pid: nat, oldsz: nat, newsz: nat, room: nat, i: nat)
    requires oldsz <= newsz && i <= room && i <= |s.free|
    requires (PgUp(oldsz) + i) * PGSIZE >= newsz && (i == 0 || PgUp(oldsz) + i <= PgUp(newsz))
    ensures Alloc(s, pid, oldsz, newsz, room) == (GrowPages(s, pid, PgUp(oldsz), i), true)
  {
    hide GrowPages, UnmapRange, Filled;
  }

  /** The loop ends without memory or without page-table space. */
  lemma AllocShort(s: Vm, pid: nat, oldsz: nat, newsz: nat, room: nat, i: nat)
    requires oldsz <= newsz && i <= room && i <= |s.free|
    requires (PgUp(oldsz) + i) * PGSIZE < newsz
    requires GrowPages(s, pid, PgUp(oldsz), i).free == s.free[i..]
    ensures PgUp(oldsz) + i < PgUp(newsz)
    ensures var (vm1, lo, hi) := (GrowPages(s, pid, PgUp(oldsz), i), PgUp(oldsz), PgUp(newsz));
            && (vm1.free == [] ==>
                  Alloc(s, pid, oldsz, newsz, room) == (UnmapRange(vm1, pid, lo, hi), false))
            && (vm1.free != [] && i == room ==>
                  var f := vm1.free[0];
                  var vm2 := vm1.(mem := vm1.mem[f := Filled(0)], free := vm1.free[1..]);
                  Alloc(s, pid, oldsz, newsz, room)
                  == (Kfree(UnmapRange(vm2, pid, lo, hi), f), false))
  {
    hide GrowPages, UnmapRange, Filled, Kfree;
  }

  // ---------- rounds of copyuvm's loop ----------

  lemma CopyNone(s: Vm, parent: nat, child: nat)
    ensures CopyPages(s, parent, child, 0) == s
  {
  }

  lemma CopyNext(s: Vm, parent: nat, child: nat, v: nat)
    ensures CopyPages(s, parent, child, v + 1)
         == SharePage(CopyPages(s, parent, child, v), parent, child, v)
  {
    hide SharePage;
  }

  /** The loop ends with all pages shared. */
  lemma ForkAll(s: Vm, parent: nat, child: nat, room: nat)
    requires parent in s.procs && PgUp(s.procs[parent].sz) <= room
    ensures var vm0 := s.(procs := s.procs[child := Proc(s.procs[parent].sz, false)]);
            Fork(s, parent, child, true, room)
            == (CopyPages(vm0, parent, child, PgUp(s.procs[parent].sz)), true)
  {
    hide CopyPages, UnmapRange, Share, PgUp;
  }

  /** The loop ends at page `room`. */
  lemma ForkStuck(s: Vm, parent: nat, child: nat, room: nat)
    requires parent in s.procs && room < PgUp(s.procs[parent].sz)
    requires var vm0 := s.(procs := s.procs[child := Proc(s.procs[parent].sz, false)]);
             Slot(parent, room) in CopyPages(vm0, parent, child, room).pt
    ensures var vm0 := s.(procs := s.procs[child := Proc(s.procs[parent].sz, false)]);
            Fork(s, parent, child, true, room)
            == (Undone(CopyPages(vm0, parent, child, room), Slot(parent, room), child), false)
  {
    hide CopyPages, UnmapRange, Share, PgUp;
  }

  /** The child is gone, and the parent's page `x` is shared although nobody shares it. */
  function Undone(vm: Vm, x: Slot, child: nat): Vm
    requires x in vm.pt
  {
    var vm' := UnmapRange(vm.(pt := vm.pt[x := Share(vm.pt[x])]), child, 0, USERPAGES);
    vm'.(procs := vm'.procs - {child})
  }

  lemma BelowSize(v: nat, sz: nat)
    ensures v * PGSIZE < sz <==> v < PgUp(sz)
  {
  }

  class Machine {
    var procs: map<nat, Proc>
    var pt: map<Slot, Pte>
    var mem: map<nat, Page>
    var count: map<nat, nat>   // cow_ref_counts
    var free: seq<nat>         // kmem.freelist
    var dirs: set<Slot>        // page-table pages, by process and place in its directory
    const kernel: set<nat>

    constructor (vm: Vm)
      ensures State() == vm && HasDirs()
    {
      procs, pt, mem, count, free, kernel := vm.procs, vm.pt, vm.mem, vm.count, vm.free, vm.kernel;
      dirs := set x | x in vm.pt :: DirOf(x);
    }

    /** Every entry sits in a page-table page. */
    ghost predicate HasDirs()
      reads this
    {
      forall x | x in pt :: DirOf(x) in dirs
    }

    ghost function State(): Vm
      reads this
    {
      Vm(procs, pt, mem, count, free, kernel)
    }

    method Kalloc() returns (r: Option<nat>)
      modifies `free
      ensures old(free) == [] ==> r == None && free == []
      ensures old(free) != [] ==> r == Some(old(free)[0]) && free == old(free)[1..]
    {
      if free == [] {
        r := None;
      } else {
        r, free := Some(free[0]), free[1..];
      }
    }

    method KfreeFrame(f: nat)
      modifies `free, `mem
      ensures State() == Kfree(old(State()), f)
    {
      mem := mem[f := Filled(1)];
      free := [f] + free;
    }

    method IncCount(f: nat)
      requires f in count
      modifies `count
      ensures count == old(count)[f := Inc(old(count)[f])]
    {
      if count[f] < 255 {
        count := count[f := count[f] + 1];
      }
    }

    method DecCount(f: nat)
      requires f in count
      modifies `count
      ensures count == old(count)[f := Dec(old(count)[f])]
    {
      if count[f] > 0 {
        count := count[f := count[f] - 1];
      }
    }

    /** Clear the entry of one page, if there is one. */
    method ClearEntry(x: Slot)
      requires forall y | y in pt :: Mapped(State(), y)
      modifies `pt, `mem, `free
      ensures State() == Unmap(old(State()), x)
      ensures forall y | y in pt :: y in old(pt) && Mapped(State(), y)
    {
      if x in pt {
        var f := pt[x].frame;
        if count[f] == 0 {
          KfreeFrame(f);
        }
        pt := pt - {x};
      }
    }

    /** `deallocuvm`, skipping 4 MB wherever a page-table page is missing. */
    method Deallocuvm(pid: nat, oldsz: nat, newsz: nat) returns (sz: nat)
      requires HasDirs() && forall x | x in pt :: Mapped(State(), x)
      modifies `pt, `mem, `free
      ensures sz == if newsz >= oldsz then oldsz else newsz
      ensures State() == if newsz >= oldsz then old(State())
                         else UnmapRange(old(State()), pid, PgUp(newsz), PgUp(oldsz))
      ensures HasDirs()
    {
      if newsz >= oldsz {
        return oldsz;
      }
      ghost var s, lo, hi := State(), PgUp(newsz), PgUp(oldsz);
      var v := PgUp(newsz);
      while v * PGSIZE < oldsz
        invariant lo <= v && HasDirs()
        invariant State() == UnmapRange(s, pid, lo, if v < hi then v else hi)
        invariant forall x | x in pt :: Mapped(State(), x)
        decreases hi - v
      {
        if Slot(pid, v / 1024) !in dirs {
          ghost var w := (v / 1024 + 1) * 1024;
          NoneInDir(pt, dirs, pid, v);
          SkipRange(s, pid, lo, v, if w < hi then w else hi);
          v := (v / 1024 + 1) * 1024 - 1;
        } else {
          ClearEntry(Slot(pid, v));
        }
        v := v + 1;
      }
      sz := newsz;
    }

    /** Map a page to the frame `f` just taken and zeroed: `mappages` and the count of 1. */
    method MapZeroed(ghost was: Vm, x: Slot, f: nat)
      requires HasDirs() && was.free != [] && f == was.free[0]
      requires State() == was.(mem := was.mem[f := Filled(0)], free := was.free[1..])
      requires forall y | y in pt :: Mapped(State(), y)
      modifies `pt, `count, `dirs
      ensures State() == MapFresh(was, x, Filled(0), true, true) && free == was.free[1..]
      ensures HasDirs() && forall y | y in pt :: Mapped(State(), y)
    {
      dirs := dirs + {DirOf(x)};
      pt := pt[x := Pte(f, true, true, false)];
      count := count[f := 1];
    }

    /** Returns the new size, or 0 when memory runs out. */
    method Allocuvm(pid: nat, oldsz: nat, newsz: nat, room: nat) returns (sz: nat)
      requires HasDirs() && forall x | x in pt :: Mapped(State(), x)
      modifies `pt, `mem, `count, `free, `dirs
      ensures HasDirs()
      ensures newsz >= KERNBASE ==> sz == 0 && State() == old(State())
      ensures newsz < KERNBASE && newsz < oldsz ==> sz == oldsz && State() == old(State())
      ensures oldsz <= newsz < KERNBASE ==>
                var (vm, ok) := Alloc(old(State()), pid, oldsz, newsz, room);
                State() == vm && sz == if ok then newsz else 0
    {
      if newsz >= KERNBASE {
        return 0;
      }
      if newsz < oldsz {
        return oldsz;
      }
      hide UnmapRange, Filled, MapFresh, GrowPages, Alloc;
      ghost var s := State();
      var lo, i := PgUp(oldsz), 0;
      GrowNone(s, pid, lo);
      while (lo + i) * PGSIZE < newsz
        invariant i <= room && i <= |s.free| && (i == 0 || lo + i <= PgUp(newsz))
        invariant State() == GrowPages(s, pid, lo, i) && free == s.free[i..] && HasDirs()
        invariant forall x | x in pt :: Mapped(State(), x)
        decreases PgUp(newsz) - lo - i
      {
        AllocShort(s, pid, oldsz, newsz, room, i);
        ghost var was := State();
        var m := Kalloc();
        if m.None? {
          var _ := Deallocuvm(pid, newsz, oldsz);
          return 0;
        }
        var f := m.value;
        mem := mem[f := Filled(0)];
        if i == room {
          var _ := Deallocuvm(pid, newsz, oldsz);
          KfreeFrame(f);
          return 0;
        }
        GrowNext(s, pid, lo, i);
        MapZeroed(was, Slot(pid, lo + i), f);
        i := i + 1;
      }
      AllocEnough(s, pid, oldsz, newsz, room, i);
      sz := newsz;
    }

    /** Set the size and return 0, or return -1: `ok` is false. */
    method GrowProc(pid: nat, n: int, room: nat) returns (ok: bool)
      requires pid in procs && procs[pid].sz < KERNBASE && -0x8000_0000 <= n < 0x8000_0000
      requires HasDirs() && forall x | x in pt :: Mapped(State(), x)
      modifies this
      ensures (State(), ok) == Sbrk(old(State()), pid, n, room)
      ensures HasDirs()
    {
      var sz := procs[pid].sz;
      if n > 0 {
        sz := Allocuvm(pid, sz, (sz + n) % WORD, room);
        if sz == 0 {
          return false;
        }
      } else if n < 0 {
        sz := Deallocuvm(pid, sz, (sz + n) % WORD);
        if sz == 0 {
          return false;
        }
      }
      procs := procs[pid := procs[pid].(sz := sz)];
      ok := true;
      assert sz == old(procs)[pid].sz ==> procs == old(procs);
    }

    /** Take write access from an entry and mark it copy-on-write, as both sides will hold it. */
    method MakeShared(x: Slot) returns (pte: Pte)
      requires x in pt
      modifies `pt
      ensures pte == Share(old(pt)[x]) && pt == old(pt)[x := pte]
      ensures pte.frame == old(pt)[x].frame
    {
      pte := pt[x];
      if pte.w {
        pte := pte.(w := false, cow := true, u := true);
        pt := pt[x := pte];
      }
    }

    /** One round of `copyuvm`: both sides hold the frame, read-only, and it is counted once more. */
    method SharePageOnce(parent: nat, child: nat, v: nat)
      requires HasDirs() && Slot(parent, v) in pt && parent != child
      requires forall x | x in pt :: Mapped(State(), x)
      modifies `pt, `count, `dirs
      ensures State() == SharePage(old(State()), parent, child, v)
      ensures HasDirs() && (forall x | x in pt :: Mapped(State(), x)) && old(pt).Keys <= pt.Keys
    {
      var pte := MakeShared(Slot(parent, v));
      dirs := dirs + {DirOf(Slot(child, v))};
      pt := pt[Slot(child, v) := pte];
      IncCount(pte.frame);
    }

    /** `freevm` of the child after a failure: the parent keeps its entries as they are by now. */
    method UndoCopy(parent: nat, child: nat, v: nat)
      requires HasDirs() && Slot(parent, v) in pt && forall x | x in pt :: Mapped(State(), x)
      modifies `procs, `pt, `mem, `free
      ensures HasDirs()
      ensures var x := Slot(parent, v);
              State() == Undone(old(State()), x, child)
    {
      var _ := MakeShared(Slot(parent, v));
      assert PgUp(0) == 0 && PgUp(KERNBASE) == USERPAGES;
      hide UnmapRange, Share;
      var _ := Deallocuvm(child, KERNBASE, 0);
      procs := procs - {child};
    }

    /** Build the child's page table; `ok` is false when `copyuvm` returns 0. */
    method Copyuvm(parent: nat, child: nat, dir: bool, room: nat) returns (ok: bool)
      requires parent in procs && child !in procs && HasDirs()
      requires forall x | x in pt :: Mapped(State(), x) && x.pid in procs
      requires forall v: nat | v < PgUp(procs[parent].sz) :: Slot(parent, v) in pt
      modifies `procs, `pt, `mem, `count, `free, `dirs
      ensures (State(), ok) == Fork(old(State()), parent, child, dir, room)
      ensures HasDirs()
    {
      if !dir {
        return false;
      }
      hide UnmapRange, Share, SharePage, CopyPages, Fork, PgUp, Undone;
      var sz := procs[parent].sz;
      ghost var was := State();
      procs := procs[child := Proc(sz, false)];
      ghost var s := State();
      var v := 0;
      CopyNone(s, parent, child);
      while v * PGSIZE < sz
        invariant v <= PgUp(sz) && v <= room
        invariant State() == CopyPages(s, parent, child, v)
        invariant HasDirs() && forall x | x in pt :: Mapped(State(), x)
        invariant forall u: nat | u < PgUp(sz) :: Slot(parent, u) in pt
        decreases PgUp(sz) - v
      {
        BelowSize(v, sz);
        if v == room {
          ForkStuck(was, parent, child, room);
          UndoCopy(parent, child, v);
          return false;
        }
        CopyNext(s, parent, child, v);
        SharePageOnce(parent, child, v);
        v := v + 1;
      }
      BelowSize(v, sz);
      ForkAll(was, parent, child, room);
      ok := true;
    }

    /** The checks of the fault handler, then the two ways to make the page writable. */
    method HandleCowFault(pid: nat, va: nat) returns (ok: bool)
      requires pid in procs && HasDirs() && forall x | x in pt :: Mapped(State(), x)
      modifies `pt, `mem, `count, `free
      ensures HasDirs()
      ensures ok == CanSplit(old(State()), Slot(pid, va / PGSIZE), va)
      ensures State() == if ok then SplitPage(old(State()), Slot(pid, va / PGSIZE)) else old(State())
    {
      if va >= procs[pid].sz {
        return false;
      }
      var x := Slot(pid, va / PGSIZE);
      if x !in pt || !pt[x].u || !pt[x].cow {
        return false;
      }
      var pte := pt[x];
      var f := pte.frame;
      if count[f] < 1 {
        return false;
      }
      if count[f] == 1 {
        pt := pt[x := pte.(w := true, cow := false)];
        return true;
      }
      var m := Kalloc();
      if m.None? {
        return false;
      }
      var page := mem[f];
      mem := mem[m.value := page];
      DecCount(f);
      pt := pt - {x};
      pt := pt[x := Pte(m.value, true, pte.u, false)];
      count := count[m.value := 1];
      ok := true;
      assert pt == old(pt)[x := Pte(m.value, true, pte.u, false)];
    }
  }
}
