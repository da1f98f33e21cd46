/** The `wmap` table of a process: sixteen slots of `vm.c`, the pages of the mapping window that are
present in its page table, and the page-table pages (one for every 1024 pages) that are there. */
module Wmap {
  import opened Common

  const LOW: nat := 0x6000_0000
  const TOP: nat := 0x8000_0000
  const SLOTS: nat := 16

  /** `addr` and `length` in bytes; a free slot is (0, -1). */
  datatype Slot = Slot(addr: nat, length: int, loaded: nat) {
    predicate Free() { addr == 0 && length == -1 }
  }

  const FREE := Slot(0, -1, 0)

  datatype Table = Table(slots: seq<Slot>, total: int, pages: set<nat>, dirs: set<nat>)

  // ---------- addresses ----------

  /** `vasIntersect`, in 32-bit unsigned arithmetic. */
  predicate Intersects(a1: nat, l1: int, a2: nat, l2: int) {
    l1 > 0 && l2 > 0 && !((a1 + l1) % WORD <= a2 || (a2 + l2) % WORD <= a1)
  }

  /** A flag bit of an int, whatever its sign. */
  predicate Has(flags: int, bit: nat)
    requires bit > 0
  {
    flags % WORD / bit % 2 == 1
  }

  const MAP_SHARED: nat := 2
  const MAP_FIXED: nat := 8

  /** What `sys_wmap` lets through, given that the flags ask for a fixed shared mapping. */
  predicate Accepted(addr: nat, length: int) {
    addr >= LOW && (addr + length) % WORD <= TOP && addr % PGSIZE == 0 && length > 0
  }

  /** A whole mapping inside the window. */
  predicate InWindow(addr: nat, length: int) {
    LOW <= addr && addr % PGSIZE == 0 && length > 0 && addr + length <= TOP
  }

  /** A mapping whose end passes 2^32. */
  predicate Wraps(addr: nat, length: int) {
    TOP <= addr < WORD && addr % PGSIZE == 0 && 0 < length < WORD / 2 && addr + length >= WORD
  }

  function First(addr: nat): nat { addr / PGSIZE }

  function Past(addr: nat, length: int): int { (addr + length + PGSIZE - 1) / PGSIZE }

  predicate Within(k: nat, addr: nat, length: int) { First(addr) <= k < Past(addr, length) }

  /** The page numbers a mapping covers, the last page in part perhaps. */
  function Range(addr: nat, length: int): set<nat> {
    set k: nat | k < Past(addr, length) && Within(k, addr, length)
  }

  /** The bound check lets through the mappings inside the window and, from its end up, exactly those
  whose end wraps round. */
  lemma AcceptedIff(addr: nat, length: int)
    requires addr < WORD && length < WORD / 2
    ensures Accepted(addr, length) <==> InWindow(addr, length) || Wraps(addr, length)
    ensures Accepted(addr, length) ==> (InWindow(addr, length) <==> addr < TOP)
  {
    if length > 0 && addr + length >= WORD {
      assert (addr + length) % WORD == addr + length - WORD;
    }
  }

  // ---------- overlap ----------

  /** The byte at `x` belongs to the mapping, which may run past 2^32 and go on at 0. */
  predicate HasByte(addr: nat, length: int, x: nat) {
    addr <= x < addr + length || addr <= x + WORD < addr + length
  }

  predicate ShareByte(a1: nat, l1: int, a2: nat, l2: int) {
    exists x: nat :: x < WORD && HasByte(a1, l1, x) && HasByte(a2, l2, x)
  }

  /** `a` wraps and reaches past the start of `b`. */
  predicate WrapsInto(a: nat, l: int, b: nat) {
    a + l - WORD > b
  }

  /** When two accepted mappings have a byte in common: two that wrap always do, one that wraps does
  exactly when it comes round past the start of the other. */
  lemma ShareByteIff(a1: nat, l1: int, a2: nat, l2: int)
    requires InWindow(a1, l1) || Wraps(a1, l1)
    requires InWindow(a2, l2) || Wraps(a2, l2)
    ensures ShareByte(a1, l1, a2, l2) <==>
      if Wraps(a1, l1) then Wraps(a2, l2) || WrapsInto(a1, l1, a2)
      else if Wraps(a2, l2) then WrapsInto(a2, l2, a1)
      else a1 < a2 + l2 && a2 < a1 + l1
  {
    var x: nat := if Wraps(a1, l1) && Wraps(a2, l2) then WORD - 1
      else if Wraps(a1, l1) then a2 else if Wraps(a2, l2) then a1
      else if a1 < a2 then a2 else a1;
    if ShareByte(a1, l1, a2, l2) {
      var y: nat :| y < WORD && HasByte(a1, l1, y) && HasByte(a2, l2, y);
    }
    assert x < WORD;
    assert HasByte(a1, l1, x) && HasByte(a2, l2, x) ==> ShareByte(a1, l1, a2, l2);
  }

  /** The overlap test of two accepted mappings answers right exactly when both start inside the
  window, or one of them wraps and stays clear of the other. */
  lemma OverlapTestIff(a1: nat, l1: int, a2: nat, l2: int)
    requires InWindow(a1, l1) || Wraps(a1, l1)
    requires InWindow(a2, l2) || Wraps(a2, l2)
    ensures (Intersects(a1, l1, a2, l2) <==> ShareByte(a1, l1, a2, l2)) <==>
      || (a1 < TOP && a2 < TOP)
      || (a1 >= TOP && a2 < TOP && !WrapsInto(a1, l1, a2))
      || (a2 >= TOP && a1 < TOP && !WrapsInto(a2, l2, a1))
    ensures a1 >= TOP || a2 >= TOP ==> !Intersects(a1, l1, a2, l2)
  {
    ShareByteIff(a1, l1, a2, l2);
    if Wraps(a1, l1) { assert (a1 + l1) % WORD == a1 + l1 - WORD; }
    if Wraps(a2, l2) { assert (a2 + l2) % WORD == a2 + l2 - WORD; }
  }

  /** For mappings in the window the overlap test in bytes decides whether pages are shared. */
  lemma ByteTestIsPageTest(a1: nat, l1: int, a2: nat, l2: int)
    requires InWindow(a1, l1) && InWindow(a2, l2)
    ensures Intersects(a1, l1, a2, l2) <==> Range(a1, l1) * Range(a2, l2) != {}
  {
    if Intersects(a1, l1, a2, l2) {
      var k := if a1 < a2 then First(a2) else First(a1);
      assert Within(k, a1, l1) && Within(k, a2, l2);
      assert k in Range(a1, l1) * Range(a2, l2);
    } else {
      var (p, q) := if a1 + l1 <= a2 then ((a1, l1), a2) else ((a2, l2), a1);
      assert Past(p.0, p.1) <= First(q);
      assert Range(a1, l1) * Range(a2, l2) == {};
    }
  }

  /** A byte of a mapping lies in a page of its range. */
  lemma ByteInRange(va: nat, addr: nat, length: int)
    requires InWindow(addr, length) && LOW <= va < TOP && Intersects(va, 1, addr, length)
    ensures addr <= va < addr + length && va / PGSIZE in Range(addr, length)
  {
    assert Within(va / PGSIZE, addr, length);
  }

  // ---------- coherence ----------

  function Live(slots: seq<Slot>): nat
    decreases |slots|
  {
    if slots == [] then 0 else Live(slots[..|slots| - 1]) + if slots[|slots| - 1].Free() then 0 else 1
  }

  predicate SlotOk(t: Table, i: nat)
    requires i < |t.slots|
  {
    var s := t.slots[i];
    || s.Free() || (InWindow(s.addr, s.length) && s.loaded == |t.pages * Range(s.addr, s.length)|)
    || (Wraps(s.addr, s.length) && s.loaded == 0)
  }

  predicate Disjoint(s1: Slot, s2: Slot) {
    InWindow(s1.addr, s1.length) && InWindow(s2.addr, s2.length) ==>
      Range(s1.addr, s1.length) !! Range(s2.addr, s2.length)
  }

  predicate AllDisjoint(slots: seq<Slot>) {
    forall i, j | 0 <= i < j < |slots| :: Disjoint(slots[i], slots[j])
  }

  predicate Covers(s: Slot, k: nat) {
    InWindow(s.addr, s.length) && k in Range(s.addr, s.length)
  }

  predicate Covered(slots: seq<Slot>, k: nat) {
    exists i :: 0 <= i < |slots| && Covers(slots[i], k)
  }

  /** Live slots in the window share no page, those that wrap never load one, the two counters are
  right, and every page present belongs to a live slot and has its page-table page. */
  predicate Coherent(t: Table) {
    && |t.slots| == SLOTS && t.total == Live(t.slots)
    && (forall i: nat | i < SLOTS :: SlotOk(t, i))
    && AllDisjoint(t.slots)
    && (forall k | k in t.pages :: Covered(t.slots, k) && k / 1024 in t.dirs)
  }

  lemma {:induction false} LiveUpdate(slots: seq<Slot>, i: nat, s: Slot)
    requires i < |slots|
    ensures Live(slots[i := s]) ==
      Live(slots) - (if slots[i].Free() then 0 else 1) + (if s.Free() then 0 else 1)
    decreases |slots|
  {
    var u, n := slots[i := s], |slots| - 1;
    if i < n {
      assert u[..n] == slots[..n][i := s];
      LiveUpdate(slots[..n], i, s);
    } else {
      assert u[..n] == slots[..n];
    }
  }

  lemma {:induction false} LiveBound(slots: seq<Slot>)
    ensures Live(slots) <= |slots|
    ensures Live(slots) == |slots| <==> forall i | 0 <= i < |slots| :: !slots[i].Free()
    ensures Live(slots) == 0 <==> forall i | 0 <= i < |slots| :: slots[i].Free()
    decreases |slots|
  {
    if slots != [] {
      LiveBound(slots[..|slots| - 1]);
    }
  }

  // ---------- mapping ----------

  /** The first slot from `i` on that is free. */
  function FirstFree(slots: seq<Slot>, i: nat): (r: Option<nat>)
    requires i <= |slots|
    ensures r.Some? ==>
      i <= r.value < |slots| && slots[r.value].Free() && forall j | i <= j < r.value :: !slots[j].Free()
    ensures r.None? <==> forall j | i <= j < |slots| :: !slots[j].Free()
    decreases |slots| - i
  {
    if i == |slots| then None else if slots[i].Free() then Some(i) else FirstFree(slots, i + 1)
  }

  predicate Clashes(s: Slot, addr: nat, length: int) {
    !s.Free() && Intersects(addr, length, s.addr, s.length)
  }

  function AddMapping(t: Table, addr: nat, length: int): Option<Table> {
    if t.total == SLOTS || FirstFree(t.slots, 0).None? ||
       exists i :: 0 <= i < |t.slots| && Clashes(t.slots[i], addr, length)
    then None
    else Some(t.(slots := t.slots[FirstFree(t.slots, 0).value := Slot(addr, length, 0)], total := t.total + 1))
  }

  /** `wmap` refuses a mapping in the window exactly when a page of it is taken or no slot is left,
  and one that wraps exactly when no slot is left; it adds an empty mapping to a coherent table. */
  lemma WmapCoherent(t: Table, addr: nat, length: int)
    requires Coherent(t) && (InWindow(addr, length) || Wraps(addr, length))
    ensures InWindow(addr, length) ==>
      (AddMapping(t, addr, length).None? <==>
         Live(t.slots) == SLOTS || exists k :: k in Range(addr, length) && Covered(t.slots, k))
    ensures Wraps(addr, length) ==> (AddMapping(t, addr, length).None? <==> Live(t.slots) == SLOTS)
    ensures AddMapping(t, addr, length).Some? ==> Coherent(AddMapping(t, addr, length).value)
  {
    LiveBound(t.slots);
    if InWindow(addr, length) {
      ClashIsSharing(t, addr, length);
    } else {
      forall i: nat | i < SLOTS ensures !Clashes(t.slots[i], addr, length) {
        WrapNeverClashes(t, i, addr, length);
      }
    }
    hide Coherent, InWindow, Clashes, Covered;
    if AddMapping(t, addr, length).Some? {
      AddCoherent(t, FirstFree(t.slots, 0).value, addr, length);
    }
  }

  lemma WrapNeverClashes(t: Table, i: nat, addr: nat, length: int)
    requires i < |t.slots| && SlotOk(t, i)
    requires InWindow(addr, length) || Wraps(addr, length)
    requires Wraps(addr, length) || Wraps(t.slots[i].addr, t.slots[i].length)
    ensures !Clashes(t.slots[i], addr, length)
  {
    if !t.slots[i].Free() {
      OverlapTestIff(addr, length, t.slots[i].addr, t.slots[i].length);
    }
  }

  lemma ClashIsOverlap(t: Table, i: nat, addr: nat, length: int)
    requires i < |t.slots| && SlotOk(t, i) && InWindow(addr, length)
    ensures Clashes(t.slots[i], addr, length) <==>
      InWindow(t.slots[i].addr, t.slots[i].length) &&
      Range(addr, length) * Range(t.slots[i].addr, t.slots[i].length) != {}
  {
    var s := t.slots[i];
    if InWindow(s.addr, s.length) {
      ByteTestIsPageTest(addr, length, s.addr, s.length);
    } else if !s.Free() {
      WrapNeverClashes(t, i, addr, length);
    }
  }

  lemma ClashIsSharing(t: Table, addr: nat, length: int)
    requires Coherent(t) && InWindow(addr, length)
    ensures (exists i :: 0 <= i < SLOTS && Clashes(t.slots[i], addr, length)) <==>
            (exists k :: k in Range(addr, length) && Covered(t.slots, k))
  {
    forall i: nat | i < SLOTS
      ensures Clashes(t.slots[i], addr, length) <==>
        InWindow(t.slots[i].addr, t.slots[i].length) &&
        Range(addr, length) * Range(t.slots[i].addr, t.slots[i].length) != {}
    {
      ClashIsOverlap(t, i, addr, length);
    }
    hide Coherent, Range, InWindow, Clashes, Intersects;
    if i :| 0 <= i < SLOTS && Clashes(t.slots[i], addr, length) {
      var k :| k in Range(addr, length) * Range(t.slots[i].addr, t.slots[i].length);
      assert Covers(t.slots[i], k);
    }
    if k :| k in Range(addr, length) && Covered(t.slots, k) {
      var i :| 0 <= i < |t.slots| && Covers(t.slots[i], k);
      assert k in Range(addr, length) * Range(t.slots[i].addr, t.slots[i].length);
      assert Clashes(t.slots[i], addr, length);
    }
  }

  lemma AddDisjoint(t: Table, i: nat, addr: nat, length: int)
    requires i < |t.slots| && SlotOk(t, i) && !Clashes(t.slots[i], addr, length)
    ensures Disjoint(t.slots[i], Slot(addr, length, 0)) && Disjoint(Slot(addr, length, 0), t.slots[i])
  {
    if InWindow(addr, length) { ClashIsOverlap(t, i, addr, length); }
  }

  lemma AddAllDisjoint(t: Table, f: nat, addr: nat, length: int)
    requires Coherent(t) && f < SLOTS && t.slots[f].Free()
    requires forall i | 0 <= i < SLOTS :: !Clashes(t.slots[i], addr, length)
    ensures AllDisjoint(t.slots[f := Slot(addr, length, 0)])
  {
    var u := t.slots[f := Slot(addr, length, 0)];
    forall a, b | 0 <= a < b < SLOTS ensures Disjoint(u[a], u[b]) {
      assert Disjoint(t.slots[a], t.slots[b]);
      AddDisjoint(t, a, addr, length);
      AddDisjoint(t, b, addr, length);
    }
  }

  /** No page of a new mapping is present yet. */
  lemma AddPages(t: Table, addr: nat, length: int)
    requires Coherent(t) && InWindow(addr, length)
    requires forall i | 0 <= i < SLOTS :: !Clashes(t.slots[i], addr, length)
    ensures t.pages * Range(addr, length) == {}
  {
    ClashIsSharing(t, addr, length);
    forall k | k in t.pages ensures k !in Range(addr, length) {
      assert Covered(t.slots, k);
    }
  }

  lemma AddCoherent(t: Table, f: nat, addr: nat, length: int)
    requires Coherent(t) && (InWindow(addr, length) || Wraps(addr, length)) && f < SLOTS && t.slots[f].Free()
    requires forall i | 0 <= i < SLOTS :: !Clashes(t.slots[i], addr, length)
    ensures Coherent(t.(slots := t.slots[f := Slot(addr, length, 0)], total := t.total + 1))
  {
    assert !Slot(addr, length, 0).Free() && !InWindow(t.slots[f].addr, t.slots[f].length);
    var u := t.(slots := t.slots[f := Slot(addr, length, 0)], total := t.total + 1);
    LiveUpdate(t.slots, f, Slot(addr, length, 0));
    AddAllDisjoint(t, f, addr, length);
    if InWindow(addr, length) { AddPages(t, addr, length); }
    forall i: nat | i < SLOTS ensures SlotOk(u, i) {
      assert SlotOk(t, i);
    }
    forall k | k in t.pages ensures Covered(u.slots, k) {
      StillCovered(t.slots, f, Slot(addr, length, 0), k);
    }
    hide Range, InWindow, Wraps, Clashes, Live, SlotOk, Disjoint, Covered;
  }

  // ---------- loading a page ----------

  /** The first slot from `i` on whose mapping holds the byte at `va`. */
  function FindSlot(slots: seq<Slot>, va: nat, i: nat): (r: Option<nat>)
    requires i <= |slots|
    ensures r.Some? ==>
      && i <= r.value < |slots| && Clashes(slots[r.value], va, 1)
      && forall j | i <= j < r.value :: !Clashes(slots[j], va, 1)
    ensures r.None? <==> forall j | i <= j < |slots| :: !Clashes(slots[j], va, 1)
    decreases |slots| - i
  {
    if i == |slots| then None
    else if Clashes(slots[i], va, 1) then Some(i)
    else FindSlot(slots, va, i + 1)
  }

  /** A fault nobody answers, one that kills the process, and one that loads the page. */
  datatype Outcome = Ignored | Killed | Loaded(t: Table)

  function Load(t: Table, i: nat, k: nat): Table
    requires i < |t.slots|
  {
    var s := t.slots[i];
    t.(slots := t.slots[i := s.(loaded := s.loaded + 1)], pages := t.pages + {k}, dirs := t.dirs + {k / 1024})
  }

  /** The page-fault branch of `trap`, for an address in the window. */
  function Fault(t: Table, va: nat): Outcome {
    match FindSlot(t.slots, va, 0)
    case None => Ignored
    case Some(i) => if (va / PGSIZE + 1) * PGSIZE >= TOP then Killed else Loaded(Load(t, i, va / PGSIZE))
  }

  lemma LoadSlot(t: Table, i: nat, k: nat, j: nat)
    requires |t.slots| == SLOTS && i < SLOTS && Covers(t.slots[i], k) && k !in t.pages && j < SLOTS && SlotOk(t, j)
    requires i < j ==> Disjoint(t.slots[i], t.slots[j])
    requires j < i ==> Disjoint(t.slots[j], t.slots[i])
    ensures SlotOk(Load(t, i, k), j)
  {
    hide Range;
    var u, r := Load(t, i, k), Range(t.slots[j].addr, t.slots[j].length);
    if j == i {
      assert u.pages * r == t.pages * r + {k};
    } else if InWindow(t.slots[j].addr, t.slots[j].length) {
      assert k !in r;
      assert u.pages * r == t.pages * r;
    }
  }

  lemma LoadCoherent(t: Table, i: nat, k: nat)
    requires Coherent(t) && i < SLOTS && Covers(t.slots[i], k) && k !in t.pages
    ensures Coherent(Load(t, i, k))
  {
    hide Range, InWindow, Live;
    var u := Load(t, i, k);
    LiveUpdate(t.slots, i, u.slots[i]);
    StillDisjoint(t.slots, i, u.slots[i]);
    forall j: nat | j < SLOTS ensures SlotOk(u, j) {
      LoadSlot(t, i, k, j);
    }
    forall x | x in t.pages ensures Covered(u.slots, x) {
      StillCovered(t.slots, i, u.slots[i], x);
    }
    assert Covers(u.slots[i], k);
    hide SlotOk, Disjoint;
  }

  /** The byte at `va` belongs to the mapping. */
  predicate Holds(s: Slot, va: nat) {
    !s.Free() && s.addr <= va < s.addr + s.length
  }

  lemma ClashIsByte(t: Table, i: nat, va: nat)
    requires i < |t.slots| && SlotOk(t, i) && LOW <= va < TOP
    ensures Clashes(t.slots[i], va, 1) <==> Holds(t.slots[i], va)
    ensures Clashes(t.slots[i], va, 1) ==> Covers(t.slots[i], va / PGSIZE)
  {
    if Clashes(t.slots[i], va, 1) {
      ByteInRange(va, t.slots[i].addr, t.slots[i].length);
    }
  }

  /** A fault is answered exactly where a live mapping has a byte, and loads the page unless it is the
  last page of the window. */
  lemma FaultCoherent(t: Table, va: nat)
    requires Coherent(t) && LOW <= va < TOP && va / PGSIZE !in t.pages
    ensures Fault(t, va).Ignored? <==> forall i: nat | i < SLOTS :: !Holds(t.slots[i], va)
    ensures Fault(t, va).Loaded? ==>
      && Coherent(Fault(t, va).t) && va / PGSIZE + 1 < TOP / PGSIZE
      && Fault(t, va).t.pages == t.pages + {va / PGSIZE} && Fault(t, va).t.total == t.total
  {
    forall i: nat | i < SLOTS
      ensures Clashes(t.slots[i], va, 1) <==> Holds(t.slots[i], va)
      ensures Clashes(t.slots[i], va, 1) ==> Covers(t.slots[i], va / PGSIZE)
    {
      ClashIsByte(t, i, va);
    }
    hide Coherent, Clashes, Holds;
    if Fault(t, va).Loaded? {
      LoadCoherent(t, FindSlot(t.slots, va, 0).value, va / PGSIZE);
    }
  }

  // ---------- what a mapping is for ----------

  /** A mapping that is granted is in the table, in a slot that was free, as it was asked for and with
  nothing loaded; nothing else has changed. */
  lemma WmapRecords(t: Table, addr: nat, length: int) returns (f: nat)
    requires AddMapping(t, addr, length).Some?
    ensures var u := AddMapping(t, addr, length).value;
      && u == t.(slots := u.slots, total := t.total + 1) && |u.slots| == |t.slots| && f < |t.slots|
      && t.slots[f].Free() && u.slots[f] == Slot(addr, length, 0)
      && (forall j | 0 <= j < |t.slots| && j != f :: u.slots[j] == t.slots[j])
  {
    f := FirstFree(t.slots, 0).value;
  }

  /** Any byte of a new mapping can be touched: the fault loads its page, but for the last page of the
  window, which kills. */
  lemma WmapAnswers(t: Table, addr: nat, length: int, va: nat)
    requires Coherent(t) && InWindow(addr, length) && AddMapping(t, addr, length).Some?
    requires addr <= va < addr + length
    ensures var (u, k) := (AddMapping(t, addr, length).value, va / PGSIZE);
      && k !in u.pages
      && (k + 1 < TOP / PGSIZE ==> Fault(u, va).Loaded? && Fault(u, va).t.pages == t.pages + {k})
      && (k + 1 == TOP / PGSIZE ==> Fault(u, va).Killed?)
  {
    var u := AddMapping(t, addr, length).value;
    var f := WmapRecords(t, addr, length);
    WmapCoherent(t, addr, length);
    AddPages(t, addr, length);
    assert Within(va / PGSIZE, addr, length);
    assert va / PGSIZE in Range(addr, length);
    assert Holds(u.slots[f], va);
    hide Coherent, Range, Clashes;
    FaultCoherent(u, va);
  }

  /** A fault that loads a page changes no mapping and one counter. */
  lemma FaultKeepsMappings(t: Table, va: nat) returns (f: nat)
    requires Fault(t, va).Loaded?
    ensures var u := Fault(t, va).t;
      && f < |t.slots| == |u.slots| && u.total == t.total && u.dirs == t.dirs + {va / PGSIZE / 1024}
      && Clashes(t.slots[f], va, 1) && u.slots[f] == t.slots[f].(loaded := t.slots[f].loaded + 1)
      && (forall j | 0 <= j < |t.slots| && j != f :: u.slots[j] == t.slots[j])
  {
    f := FindSlot(t.slots, va, 0).value;
  }

  // ---------- unmapping ----------

  /** `dellocateAndUnmap` on the mapping in slot `i`: with nothing loaded it leaves the pages alone. */
  function DropMapping(t: Table, i: nat): Table
    requires i < |t.slots|
  {
    var s := t.slots[i];
    t.(slots := t.slots[i := FREE], total := t.total - 1,
       pages := if s.loaded > 0 then t.pages - Range(s.addr, s.length) else t.pages)
  }

  /** Pages present lie in the window. */
  lemma PagesBelow(t: Table, k: nat)
    requires Coherent(t) && k in t.pages
    ensures k < TOP / PGSIZE
  {
    var i: nat :| i < SLOTS && Covers(t.slots[i], k);
    assert Within(k, t.slots[i].addr, t.slots[i].length);
  }

  lemma NotInWrapped(k: nat, addr: nat, length: int)
    requires Wraps(addr, length) && k < TOP / PGSIZE
    ensures k !in Range(addr, length)
  {
    assert !Within(k, addr, length);
  }

  /** Trusting the loaded-page counter removes exactly the pages of the mapping. */
  lemma UnmapPages(t: Table, i: nat)
    requires Coherent(t) && i < SLOTS && !t.slots[i].Free()
    ensures DropMapping(t, i).pages == t.pages - Range(t.slots[i].addr, t.slots[i].length)
  {
    var s := t.slots[i];
    var r := Range(s.addr, s.length);
    assert SlotOk(t, i);
    if s.loaded == 0 {
      forall x | x in t.pages ensures x !in r {
        if Wraps(s.addr, s.length) {
          PagesBelow(t, x);
          NotInWrapped(x, s.addr, s.length);
        } else {
          assert t.pages * r == {};
          assert x in r ==> x in t.pages * r;
        }
      }
      assert t.pages == t.pages - r;
    }
  }

  lemma UnmapSlot(t: Table, i: nat, j: nat)
    requires Coherent(t) && i < SLOTS && !t.slots[i].Free() && j < SLOTS
    ensures SlotOk(DropMapping(t, i), j)
  {
    var s, sj := t.slots[i], t.slots[j];
    assert SlotOk(t, i) && SlotOk(t, j);
    assert i < j ==> Disjoint(s, sj);
    assert j < i ==> Disjoint(sj, s);
    UnmapPages(t, i);
    if j != i && InWindow(sj.addr, sj.length) {
      var r := Range(sj.addr, sj.length);
      forall x | x in t.pages * r ensures x in DropMapping(t, i).pages {
        if Wraps(s.addr, s.length) {
          PagesBelow(t, x);
          NotInWrapped(x, s.addr, s.length);
        }
      }
      hide Coherent, Range;
      assert DropMapping(t, i).pages * r == t.pages * r;
    }
  }

  lemma StillCovered(slots: seq<Slot>, i: nat, s: Slot, k: nat)
    requires i < |slots| && Covered(slots, k) && (Covers(slots[i], k) ==> Covers(s, k))
    ensures Covered(slots[i := s], k)
  {
    hide Covers;
    var j: nat :| j < |slots| && Covers(slots[j], k);
    assert Covers(slots[i := s][j], k);
  }

  lemma StillDisjoint(slots: seq<Slot>, i: nat, s: Slot)
    requires i < |slots| && AllDisjoint(slots)
    requires s.Free() || (s.addr == slots[i].addr && s.length == slots[i].length)
    ensures AllDisjoint(slots[i := s])
  {
    hide Range;
    var u := slots[i := s];
    forall a, b | 0 <= a < b < |u| ensures Disjoint(u[a], u[b]) {
      assert Disjoint(slots[a], slots[b]);
    }
  }

  lemma UnmapCoherent(t: Table, i: nat)
    requires Coherent(t) && i < SLOTS && !t.slots[i].Free()
    ensures Coherent(DropMapping(t, i))
    ensures DropMapping(t, i).pages == t.pages - Range(t.slots[i].addr, t.slots[i].length)
  {
    var u := DropMapping(t, i);
    UnmapPages(t, i);
    LiveUpdate(t.slots, i, FREE);
    StillDisjoint(t.slots, i, FREE);
    forall j: nat | j < SLOTS ensures SlotOk(u, j) {
      UnmapSlot(t, i, j);
    }
    forall x | x in u.pages ensures Covered(u.slots, x) {
      StillCovered(t.slots, i, FREE, x);
    }
    hide Range, InWindow, Live, SlotOk, Disjoint, Covered;
  }

  /** The first live slot from `i` on that starts at `addr`. */
  function FindStart(slots: seq<Slot>, addr: nat, i: nat): (r: Option<nat>)
    requires i <= |slots|
    ensures r.Some? ==>
      && i <= r.value < |slots| && !slots[r.value].Free() && slots[r.value].addr == addr
      && forall j | i <= j < r.value :: slots[j].Free() || slots[j].addr != addr
    ensures r.None? <==> forall j | i <= j < |slots| :: slots[j].Free() || slots[j].addr != addr
    decreases |slots| - i
  {
    if i == |slots| then None
    else if !slots[i].Free() && slots[i].addr == addr then Some(i)
    else FindStart(slots, addr, i + 1)
  }

  /** `wunmap`: None is failure. */
  function RemoveMapping(t: Table, addr: nat): Option<Table> {
    if t.total == 0 then Some(t) else
    match FindStart(t.slots, addr, 0)
    case None => None
    case Some(i) => Some(DropMapping(t, i))
  }

  /** After `wunmap` of a mapping in the window no page of it is present, every other page is as
  before, and no live slot starts there any more. */
  lemma WunmapCoherent(t: Table, addr: nat)
    requires Coherent(t)
    ensures RemoveMapping(t, addr).Some? ==> Coherent(RemoveMapping(t, addr).value)
    ensures RemoveMapping(t, addr).Some? && addr < TOP ==>
      var u := RemoveMapping(t, addr).value;
      && FindStart(u.slots, addr, 0).None?
      && (forall i | 0 <= i < SLOTS && !t.slots[i].Free() && t.slots[i].addr == addr ::
            u.pages == t.pages - Range(addr, t.slots[i].length))
    ensures RemoveMapping(t, addr).None? ==> FindStart(t.slots, addr, 0).None?
  {
    LiveBound(t.slots);
    var f := FindStart(t.slots, addr, 0);
    if t.total != 0 && f.Some? {
      UnmapCoherent(t, f.value);
      if addr < TOP {
        forall j: nat | j < SLOTS && j != f.value ensures t.slots[j].Free() || t.slots[j].addr != addr {
          if !t.slots[j].Free() && t.slots[j].addr < TOP { StartsDiffer(t, j, f.value); }
        }
      }
    }
  }

  /** `wunmap` of an address where a mapping starts frees its slot and changes no other. */
  lemma WunmapDropsOne(t: Table, addr: nat) returns (i: nat)
    requires Coherent(t) && FindStart(t.slots, addr, 0).Some?
    ensures RemoveMapping(t, addr).Some?
    ensures var u := RemoveMapping(t, addr).value;
      && i < SLOTS == |u.slots| && !t.slots[i].Free() && t.slots[i].addr == addr && u.slots[i].Free()
      && (forall j | 0 <= j < SLOTS && j != i :: u.slots[j] == t.slots[j])
      && u.total == t.total - 1 && u.dirs == t.dirs
      && u.pages == t.pages - Range(addr, t.slots[i].length)
  {
    LiveBound(t.slots);
    i := FindStart(t.slots, addr, 0).value;
    UnmapPages(t, i);
  }

  /** `wunmap` fails exactly when there are mappings and none starts at the address; with no mapping at
  all it succeeds and does nothing. */
  lemma WunmapRefusesIff(t: Table, addr: nat)
    requires Coherent(t)
    ensures RemoveMapping(t, addr).None? <==>
      (exists i :: 0 <= i < SLOTS && !t.slots[i].Free()) &&
      forall i | 0 <= i < SLOTS && !t.slots[i].Free() :: t.slots[i].addr != addr
    ensures (forall i | 0 <= i < SLOTS :: t.slots[i].Free()) ==> RemoveMapping(t, addr) == Some(t)
  {
    LiveBound(t.slots);
  }

  lemma StartsDiffer(t: Table, i: nat, j: nat)
    requires Coherent(t) && i < SLOTS && j < SLOTS && i != j && !t.slots[i].Free() && !t.slots[j].Free()
    requires t.slots[i].addr < TOP && t.slots[j].addr < TOP
    ensures t.slots[i].addr != t.slots[j].addr
  {
    assert SlotOk(t, i) && SlotOk(t, j);
    assert Disjoint(t.slots[if i < j then i else j], t.slots[if i < j then j else i]);
    var a := t.slots[i].addr;
    assert Within(First(a), a, t.slots[i].length);
    assert First(a) in Range(a, t.slots[i].length);
    assert t.slots[j].addr == a ==> Within(First(a), a, t.slots[j].length);
  }

  // ---------- new tables ----------

  /** A process without mappings; its page table has the page-table pages `dirs`. */
  function Fresh(dirs: set<nat>): Table {
    Table(seq(SLOTS, _ => FREE), 0, {}, dirs)
  }

  lemma {:induction false} LiveSame(a: seq<Slot>, b: seq<Slot>)
    requires |a| == |b| && forall i | 0 <= i < |a| :: a[i].Free() == b[i].Free()
    ensures Live(a) == Live(b)
    decreases |a|
  {
    if a != [] {
      LiveSame(a[..|a| - 1], b[..|b| - 1]);
    }
  }
}
