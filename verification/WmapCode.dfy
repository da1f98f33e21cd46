/** The `wmap` operations as `vm.c` runs them, on the arrays of one process and its page table. */
module WmapCode {
  import opened Common
  import opened Wmap
  import opened WmapFork
  import R = WmapRuns

  /** Pages of a mapping below page `m`. */
  function Below(addr: nat, length: int, m: nat): set<nat> {
    set k | k in Range(addr, length) && k < m
  }

  lemma BelowNext(addr: nat, length: int, m: nat, n: nat, pages: set<nat>)
    requires m <= n && forall k | k in pages && m <= k < n :: k == m
    ensures pages - Below(addr, length, n) ==
      pages - Below(addr, length, m) - (if m < n && m in Range(addr, length) then {m} else {})
  {
    forall k | k in pages ensures k in Below(addr, length, n) <==>
      k in Below(addr, length, m) || (k == m && m < n && m in Range(addr, length))
    {
      assert m <= k < n ==> k == m;
    }
  }

  class Process {
    const slots: array<Slot>
    var total: int
    /** Pages whose entry is present, and page-table pages that exist. */
    var pages: set<nat>
    var dirs: set<nat>

    ghost predicate Valid()
      reads this
    {
      slots.Length == SLOTS
    }

    ghost function Value(): Table
      reads this, slots
    {
      Table(slots[..], total, pages, dirs)
    }

    /** `allocproc`: no mapping yet. */
    constructor (dirs: set<nat>)
      ensures Valid() && fresh(slots) && Value() == Fresh(dirs)
    {
      slots := new Slot[SLOTS](_ => FREE);
      total, pages, this.dirs := 0, {}, dirs;
    }

    /** `updateWmap`: out of range, nothing changes. */
    method Update(index: int, s: Slot, total: int) returns (ok: bool)
      requires Valid()
      modifies this`total, slots
      ensures ok <==> 0 <= index < SLOTS
      ensures Value() == if ok then old(Value()).(slots := old(slots[..])[index := s], total := total) else old(Value())
    {
      if index < 0 || index >= SLOTS {
        return false;
      }
      slots[index] := s;
      this.total := total;
      return true;
    }

    /** The loop of `wmap` over the table. */
    method Wmap(addr: nat, length: int) returns (ok: bool)
      requires Valid()
      modifies this`total, slots
      ensures var r := AddMapping(old(Value()), addr, length);
        ok == r.Some? && Value() == R.Or(r, old(Value()))
    {
      var emptySpot := -1;
      var i := 0;
      while i < SLOTS
        invariant 0 <= i <= SLOTS && slots[..] == old(slots[..]) && total == old(total)
        invariant i > 0 ==> total != SLOTS
        invariant forall j | 0 <= j < i :: !Clashes(slots[j], addr, length)
        invariant if emptySpot == -1 then FirstFree(slots[..], 0) == FirstFree(slots[..], i)
                  else FirstFree(slots[..], 0) == Some(emptySpot)
      {
        if total == SLOTS {
          return false;
        }
        if slots[i].Free() {
          if emptySpot == -1 { emptySpot := i; }
        } else if Intersects(addr, length, slots[i].addr, slots[i].length) {
          assert Clashes(slots[..][i], addr, length);
          return false;
        }
        i := i + 1;
      }
      if emptySpot == -1 {
        return false;
      }
      ok := Update(emptySpot, Slot(addr, length, 0), total + 1);
    }

    /** `sys_wmap`: the checks in their order, then `wmap`. */
    method SysWmap(addr: nat, length: int, flags: int) returns (ok: bool)
      requires Valid() && addr < WORD && -(WORD / 2) <= length < WORD / 2
      modifies this`total, slots
      ensures var r := R.SysWmap(old(Value()), addr, length, flags);
        ok == r.Some? && Value() == R.Or(r, old(Value()))
      ensures ok ==> InWindow(addr, length) || Wraps(addr, length)
      ensures old(Coherent(Value())) ==> Coherent(Value())
    {
      AcceptedIff(addr, length);
      if Coherent(Value()) && Accepted(addr, length) { WmapCoherent(Value(), addr, length); }
      if addr < LOW || (addr + length) % WORD > TOP {
        return false;
      }
      if !Has(flags, MAP_FIXED) || !Has(flags, MAP_SHARED) {
        return false;
      }
      if addr % PGSIZE != 0 || length <= 0 {
        return false;
      }
      ok := Wmap(addr, length);
    }

    /** The page-fault branch of `trap`, with `allocateAndMap` for the slot found. */
    method Touch(va: nat) returns (killed: bool)
      requires Valid() && LOW <= va < TOP && va / PGSIZE !in pages
      modifies this`pages, this`dirs, this`total, slots
      ensures Value() == R.Answer(Fault(old(Value()), va), old(Value()))
      ensures killed <==> Fault(old(Value()), va).Killed?
    {
      var i := 0;
      while i < SLOTS
        invariant 0 <= i <= SLOTS && FindSlot(slots[..], va, 0) == FindSlot(slots[..], va, i)
      {
        if !slots[i].Free() && Intersects(va, 1, slots[i].addr, slots[i].length) {
          break;
        }
        i := i + 1;
      }
      if i == SLOTS {
        return false;
      }
      killed := LoadPage(va, i);
    }

    /** `allocateAndMap` of one page; memory and file reads are taken to succeed. */
    method LoadPage(va: nat, i: nat) returns (failed: bool)
      requires Valid() && LOW <= va < TOP && i < SLOTS && va / PGSIZE !in pages
      modifies this`pages, this`dirs, this`total, slots
      ensures failed <==> (va / PGSIZE + 1) * PGSIZE >= TOP
      ensures Value() == if failed then old(Value()) else Load(old(Value()), i, va / PGSIZE)
    {
      var a := va - va % PGSIZE;
      if a + PGSIZE >= TOP {
        return true;
      }
      pages := pages + {a / PGSIZE};
      dirs := dirs + {a / PGSIZE / 1024};
      var ok := Update(i, slots[i].(loaded := slots[i].loaded + 1), total);
      return !ok;
    }

    /** The loop of `dellocateAndUnmap`: page by page, skipping 4 MB wherever a page-table page is
    missing. */
    method ClearPages(addr: nat, length: int)
      requires Valid() && InWindow(addr, length) && forall k | k in pages :: k / 1024 in dirs
      modifies this`pages
      ensures pages == old(pages) - Range(addr, length)
    {
      var a := addr;
      ghost var before := pages;
      assert Below(addr, length, a / PGSIZE) == {};
      while a < (addr + length) % WORD
        invariant a % PGSIZE == 0 && addr <= a < TOP + PGSIZE * 1024
        invariant pages == before - Below(addr, length, a / PGSIZE)
        decreases TOP + PGSIZE * 1024 - a
      {
        var k := a / PGSIZE;
        if k / 1024 !in dirs {
          a := (k / 1024 + 1) * 1024 * PGSIZE - PGSIZE;
          assert a / PGSIZE == k / 1024 * 1024 + 1023;
          NoneThere(before, dirs, k);
        } else if k in pages {
          pages := pages - {k};
        }
        BelowNext(addr, length, k, a / PGSIZE + 1, before);
        assert Within(k, addr, length) && k in Range(addr, length);
        a := a + PGSIZE;
      }
      assert Below(addr, length, a / PGSIZE) == Range(addr, length);
    }

    /** `dellocateAndUnmap`: the loaded-page counter decides whether the page table is looked at. */
    method DropAt(i: nat) returns (ok: bool)
      requires Valid() && Coherent(Value()) && i < SLOTS && !slots[i].Free()
      modifies this`pages, this`total, slots
      ensures ok && Value() == DropMapping(old(Value()), i)
    {
      assert SlotOk(Value(), i);
      if slots[i].loaded > 0 {
        ClearPages(slots[i].addr, slots[i].length);
      }
      ok := Update(i, FREE, total - 1);
    }

    /** `wunmap`. */
    method Wunmap(addr: nat) returns (ok: bool)
      requires Valid() && Coherent(Value())
      modifies this`pages, this`total, slots
      ensures var r := RemoveMapping(old(Value()), addr);
        ok == r.Some? && Value() == R.Or(r, old(Value()))
      ensures Coherent(Value())
    {
      WunmapCoherent(Value(), addr);
      if total == 0 {
        return true;
      }
      var i := 0;
      while i < SLOTS
        invariant 0 <= i <= SLOTS && Value() == old(Value())
        invariant FindStart(slots[..], addr, 0) == FindStart(slots[..], addr, i)
      {
        if !slots[i].Free() && slots[i].addr == addr {
          ok := DropAt(i);
          return;
        }
        i := i + 1;
      }
      ok := false;
    }

    /** `sys_wunmap`. */
    method SysWunmap(addr: nat) returns (ok: bool)
      requires Valid() && Coherent(Value())
      modifies this`pages, this`total, slots
      ensures var r := R.SysWunmap(old(Value()), addr);
        ok == r.Some? && Value() == R.Or(r, old(Value()))
      ensures Coherent(Value())
    {
      if addr < LOW || addr > TOP {
        return false;
      }
      ok := Wunmap(addr);
    }

    /** The loop of `exit`: every mapping is taken down, and no page of the window stays. */
    method UnmapAll()
      requires Valid() && Coherent(Value())
      modifies this`pages, this`total, slots
      ensures Coherent(Value()) && pages == {} && total == 0
      ensures Value() == R.ExitFrom(old(Value()), 0)
    {
      var i := 0;
      ghost var t := Value();
      R.ExitClears(t, 0);
      hide Coherent, R.ExitFrom;
      while i < SLOTS
        invariant 0 <= i <= SLOTS && Coherent(Value()) && forall j | 0 <= j < i :: slots[j].Free()
        invariant R.ExitFrom(t, 0) == R.ExitFrom(Value(), i)
      {
        if !slots[i].Free() {
          R.ExitStep(Value(), i);
          var _ := Wunmap(slots[i].addr);
        }
        i := i + 1;
      }
    }

    /** `mappages` of one page, with `room` page-table pages to be had. */
    method MapOne(k: nat, room: nat) returns (o: Outcome, left: nat)
      modifies this`pages, this`dirs
      ensures Stands(o, left, Value(), MapPage(old(Value()), k, room))
    {
      left := room;
      if k / 1024 !in dirs {
        if room == 0 {
          return NotEnough, left;
        }
        dirs := dirs + {k / 1024};
        left := room - 1;
      }
      if k in pages {
        return Panic, left;
      }
      pages := pages + {k};
      assert old(dirs) + {k / 1024} == dirs;
      o := Fine;
    }

    /** The inner loop of `copyWmap`, in 32-bit arithmetic: the present pages of one mapping go into
    the child; for a mapping that wraps the loop does nothing. */
    method CopyRange(child: Process, s: Slot, room: nat) returns (o: Outcome, left: nat)
      requires child != this && Shaped(s)
      requires forall k | k in pages :: k / 1024 in dirs
      modifies child`pages, child`dirs
      ensures Stands(o, left, child.Value(),
        WmapFork.CopyPages(pages, old(child.Value()), First(s.addr), EndPage(s), room))
    {
      var a := s.addr;
      var end := (s.addr + (s.length + PGSIZE - 1) / PGSIZE * PGSIZE) % WORD;
      CopyEnd(s);
      left := room;
      while a < end
        invariant a % PGSIZE == 0 && left >= 0
        invariant WmapFork.CopyPages(pages, old(child.Value()), First(s.addr), EndPage(s), room)
               == WmapFork.CopyPages(pages, child.Value(), a / PGSIZE, EndPage(s), left)
      {
        if a / PGSIZE / 1024 in dirs && a / PGSIZE in pages {
          o, left := child.MapOne(a / PGSIZE, left);
          if !o.Fine? {
            return;
          }
        }
        a := a + PGSIZE;
      }
      o := Fine;
    }

    /** One slot of `copyWmap`. */
    method CopyAt(child: Process, i: nat, room: nat) returns (o: Outcome, left: nat)
      requires child != this && child.slots != slots && Valid() && child.Valid()
      requires i < SLOTS && Copyable(Value())
      modifies child, child.slots
      ensures child.slots.Length == SLOTS
      ensures Stands(o, left, child.Value(), CopySlot(Value(), old(child.Value()), i, room))
    {
      if slots[i].Free() {
        return Fine, room;
      }
      o, left := CopyRange(child, slots[i], room);
      if o.Fine? {
        var _ := child.Update(i, slots[i], total);
      }
    }

    /** `copyWmap`, whatever the child's table holds by then. */
    method CopyWmap(child: Process, room: nat) returns (o: Outcome, left: nat)
      requires child != this && child.slots != slots && Valid() && child.Valid()
      requires Copyable(Value())
      modifies child, child.slots
      ensures Stands(o, left, child.Value(), CopySlots(Value(), old(child.Value()), 0, room))
    {
      left := room;
      var i := 0;
      ghost var t, c := Value(), child.Value();
      hide Copyable, CopySlot;
      while i < SLOTS
        invariant 0 <= i <= SLOTS && child.slots.Length == SLOTS && Value() == t
        invariant CopySlots(t, c, 0, room) == CopySlots(t, child.Value(), i, left)
      {
        o, left := CopyAt(child, i, left);
        if !o.Fine? {
          return;
        }
        i := i + 1;
      }
      o := Fine;
    }
  }

  /** How a copy ends: done, without memory for a page-table page, or in a panic. */
  datatype Outcome = Fine | NotEnough | Panic

  /** The outcome and the table left behind are those of the specification. */
  ghost predicate Stands(o: Outcome, left: nat, c: Table, r: Copy) {
    match r
    case Done(d, room) => o == Fine && c == d && left == room
    case NoMemory(d) => o == NotEnough && c == d
    case Remap => o == Panic
  }

  predicate Shaped(s: Slot) {
    InWindow(s.addr, s.length) || Wraps(s.addr, s.length)
  }

  /** The slots hold mappings that `sys_wmap` accepted, and pages have their page-table pages. */
  ghost predicate Copyable(t: Table) {
    && |t.slots| == SLOTS && (forall k | k in t.pages :: k / 1024 in t.dirs)
    && (forall i | 0 <= i < SLOTS :: t.slots[i].Free() || Shaped(t.slots[i]))
  }

  lemma CopyEnd(s: Slot)
    requires Shaped(s)
    ensures var end := (s.addr + (s.length + PGSIZE - 1) / PGSIZE * PGSIZE) % WORD;
      s.addr % PGSIZE == 0 && end % PGSIZE == 0 && end == EndPage(s) * PGSIZE
  {
  }

  /** Where a page-table page is missing, none of its pages is present. */
  lemma NoneThere(pages: set<nat>, dirs: set<nat>, k: nat)
    requires k / 1024 !in dirs && forall x | x in pages :: x / 1024 in dirs
    ensures forall x | x in pages :: !(k <= x < k / 1024 * 1024 + 1024)
  {
    forall x | x in pages ensures !(k <= x < k / 1024 * 1024 + 1024) {
      assert x / 1024 in dirs;
    }
  }
}
