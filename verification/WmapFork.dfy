/** `copyWmap`: the parent's mappings go into the child slot by slot, while the child may already
run. What one slot's copy makes of the child's table depends on what the child has done by then. */
module WmapFork {
  import opened Common
  import opened Wmap

  // ---------- what is copied ----------

  /** The outcome of a copy into table `c`: done with `room` page-table pages left to be had, given up
  for want of one, or the panic of mapping a page that is there already. */
  datatype Copy = Done(c: Table, room: nat) | NoMemory(c: Table) | Remap

  function Dirs(pages: set<nat>): set<nat> {
    set k | k in pages :: k / 1024
  }

  /** `mappages` of one page in the child. */
  function MapPage(c: Table, k: nat, room: nat): Copy {
    if k / 1024 !in c.dirs && room == 0 then NoMemory(c)
    else if k in c.pages then Remap
    else Done(c.(pages := c.pages + {k}, dirs := c.dirs + {k / 1024}),
              if k / 1024 in c.dirs then room else room - 1)
  }

  /** The parent's present pages from `k` to below `end` go into the child. */
  function CopyPages(pages: set<nat>, c: Table, k: nat, end: nat, room: nat): Copy
    decreases end - k
  {
    if k >= end then Done(c, room)
    else if k !in pages then CopyPages(pages, c, k + 1, end, room)
    else match MapPage(c, k, room)
      case Done(d, r) => CopyPages(pages, d, k + 1, end, r)
      case x => x
  }

  /** The page behind the last one of a mapping, in 32-bit arithmetic: one that wraps has no pages. */
  function EndPage(s: Slot): nat {
    (s.addr + (s.length + PGSIZE - 1) / PGSIZE * PGSIZE) % WORD / PGSIZE
  }

  /** Slot `i` of the parent `t` goes into the child `c`. */
  function CopySlot(t: Table, c: Table, i: nat, room: nat): Copy
    requires i < |t.slots| == |c.slots|
  {
    var s := t.slots[i];
    if s.Free() then Done(c, room) else
    match CopyPages(t.pages, c, First(s.addr), EndPage(s), room)
    case Done(d, r) => Done(d.(slots := c.slots[i := s], total := t.total), r)
    case x => x
  }

  /** `copyWmap` from slot `i` on, with nothing in between. */
  function CopySlots(t: Table, c: Table, i: nat, room: nat): Copy
    requires i <= |t.slots| == |c.slots| == SLOTS
    decreases SLOTS - i
  {
    if i == SLOTS then Done(c, room) else
    match CopySlot(t, c, i, room)
    case Done(d, r) => CopySlots(t, d, i + 1, r)
    case x => x
  }

  // ---------- one slot ----------

  function Between(pages: set<nat>, k: nat, end: nat): set<nat> {
    set x | x in pages && k <= x < end
  }

  /** The pages are copied exactly when none of them is there and the page-table pages that are
  missing can be had. */
  lemma {:induction false} CopyPagesIff(pages: set<nat>, c: Table, k: nat, end: nat, room: nat)
    requires forall x | x in c.pages :: x / 1024 in c.dirs
    ensures var (r, ps) := (CopyPages(pages, c, k, end, room), Between(pages, k, end));
      && (r.Done? <==> c.pages !! ps && |Dirs(ps) - c.dirs| <= room)
      && (r.Done? ==> r.c == c.(pages := c.pages + ps, dirs := c.dirs + Dirs(ps))
                      && r.room == room - |Dirs(ps) - c.dirs|)
      && (r.Remap? ==> !(c.pages !! ps)) && (r.NoMemory? ==> |Dirs(ps) - c.dirs| > room)
    decreases end - k
  {
    hide Between, Dirs;
    if k >= end {
      NoneBetween(pages, k, end);
    } else if k !in pages {
      SkipFirst(pages, k, end);
      CopyPagesIff(pages, c, k + 1, end, room);
    } else {
      FirstOf(pages, c.dirs, k, end);
      var m := MapPage(c, k, room);
      if m.Done? {
        CopyPagesIff(pages, m.c, k + 1, end, m.room);
      }
    }
  }

  lemma NoneBetween(pages: set<nat>, k: nat, end: nat)
    requires k >= end
    ensures Between(pages, k, end) == {} && Dirs(Between(pages, k, end)) == {}
  {
  }

  lemma SkipFirst(pages: set<nat>, k: nat, end: nat)
    requires k !in pages
    ensures Between(pages, k, end) == Between(pages, k + 1, end)
  {
  }

  lemma FirstOf(pages: set<nat>, dirs: set<nat>, k: nat, end: nat)
    requires k < end && k in pages
    ensures var (ps, qs) := (Between(pages, k, end), Between(pages, k + 1, end));
      && ps == qs + {k} && k !in qs && Dirs(ps) == Dirs(qs) + {k / 1024}
      && |Dirs(ps) - dirs| == |Dirs(qs) - (dirs + {k / 1024})| + (if k / 1024 in dirs then 0 else 1)
  {
    var (ps, qs) := (Between(pages, k, end), Between(pages, k + 1, end));
    assert ps == qs + {k};
    assert Dirs(ps) == Dirs(qs) + {k / 1024};
    hide Between, Dirs;
    if k / 1024 in dirs {
      assert Dirs(ps) - dirs == Dirs(qs) - (dirs + {k / 1024});
    } else {
      assert Dirs(ps) - dirs == Dirs(qs) - (dirs + {k / 1024}) + {k / 1024};
    }
  }

  /** The present pages of the mapping in slot `i`. */
  function Wanted(t: Table, i: nat): set<nat>
    requires i < |t.slots|
  {
    t.pages * Range(t.slots[i].addr, t.slots[i].length)
  }

  /** The child with slot `i` of `t` in it. */
  function Copied(t: Table, c: Table, i: nat): Table
    requires i < |t.slots| == |c.slots|
  {
    Table(c.slots[i := t.slots[i]], t.total, c.pages + Wanted(t, i), c.dirs + Dirs(Wanted(t, i)))
  }

  lemma CopyRange(t: Table, i: nat)
    requires Coherent(t) && i < SLOTS && !t.slots[i].Free()
    ensures var s := t.slots[i]; Between(t.pages, First(s.addr), EndPage(s)) == Wanted(t, i)
  {
    var s := t.slots[i];
    assert SlotOk(t, i);
    if InWindow(s.addr, s.length) {
      EndIsPast(s);
      hide EndPage, Past, Coherent;
      assert forall k :: k in Range(s.addr, s.length) <==> First(s.addr) <= k < Past(s.addr, s.length);
    } else {
      WrappedEnd(s.addr, s.length);
      forall k | k in t.pages ensures k !in Range(s.addr, s.length) {
        PagesBelow(t, k);
        NotInWrapped(k, s.addr, s.length);
      }
      hide Range, Coherent;
      assert Wanted(t, i) == {};
    }
  }

  lemma EndIsPast(s: Slot)
    requires InWindow(s.addr, s.length)
    ensures EndPage(s) == Past(s.addr, s.length)
  {
    var q := s.addr / PGSIZE;
    assert s.addr == q * PGSIZE;
    assert Past(s.addr, s.length) == q + (s.length + PGSIZE - 1) / PGSIZE;
  }

  lemma WrappedEnd(addr: nat, length: int)
    requires Wraps(addr, length)
    ensures (addr + (length + PGSIZE - 1) / PGSIZE * PGSIZE) % WORD < addr
  {
    var r := (length + PGSIZE - 1) / PGSIZE * PGSIZE;
    assert length <= r <= WORD / 2;
    assert (addr + r) % WORD == addr + r - WORD;
  }

  /** One slot is copied exactly when none of its pages is in the child and memory suffices. */
  lemma CopySlotIff(t: Table, c: Table, i: nat, room: nat)
    requires Coherent(t) && i < SLOTS == |c.slots| && !t.slots[i].Free()
    requires forall x | x in c.pages :: x / 1024 in c.dirs
    ensures var (r, need) := (CopySlot(t, c, i, room), |Dirs(Wanted(t, i)) - c.dirs|);
      && (r.Done? <==> c.pages !! Wanted(t, i) && need <= room)
      && (r.Done? ==> r == Done(Copied(t, c, i), room - need))
      && (r.Remap? ==> !(c.pages !! Wanted(t, i))) && (r.NoMemory? ==> need > room)
  {
    var s := t.slots[i];
    CopyRange(t, i);
    CopyPagesIff(t.pages, c, First(s.addr), EndPage(s), room);
    hide Coherent, Between, Wanted, Dirs, EndPage, CopyPages;
  }

  // ---------- when the child stays coherent ----------

  /** Coherent but for the total, which the copy sets to the parent's from its first slot on. */
  predicate Tidy(c: Table) {
    Coherent(c.(total := Live(c.slots)))
  }

  /** No page of the child's own mapping in slot `i` is lost, and no other mapping of the child meets
  the one that comes in. */
  predicate Welcome(t: Table, c: Table, i: nat)
    requires i < |t.slots| == |c.slots| == SLOTS
  {
    && (c.slots[i].Free() || c.slots[i].loaded == 0)
    && (forall j | 0 <= j < SLOTS && j != i :: Disjoint(c.slots[j], t.slots[i]))
  }

  /** The copy of a slot leaves the child tidy exactly when the slot is welcome, and coherent exactly
  when the parent's total is right for the child too. */
  lemma CopiedIff(t: Table, c: Table, i: nat)
    requires Coherent(t) && Tidy(c) && i < SLOTS && !t.slots[i].Free()
    ensures (c.pages !! Wanted(t, i) && Tidy(Copied(t, c, i))) <==> Welcome(t, c, i)
    ensures (c.pages !! Wanted(t, i) && Coherent(Copied(t, c, i))) <==>
      Welcome(t, c, i) && t.total == Live(c.slots) + (if c.slots[i].Free() then 1 else 0)
  {
    LiveUpdate(c.slots, i, t.slots[i]);
    if c.pages !! Wanted(t, i) && Tidy(Copied(t, c, i)) {
      TidyMeansWelcome(t, c, i);
    }
    if Welcome(t, c, i) {
      WelcomeApart(t, c, i);
      WelcomeIsTidy(t, c, i);
    }
    hide Live, Welcome, Wanted, Tidy;
    TidyTotal(Copied(t, c, i));
  }

  lemma TidyTotal(c: Table)
    ensures Coherent(c) <==> Tidy(c) && c.total == Live(c.slots)
  {
    if c.total == Live(c.slots) { assert c == c.(total := Live(c.slots)); }
  }

  /** What tidiness consists of. */
  ghost predicate Parts(c: Table) {
    && |c.slots| == SLOTS && (forall j: nat | j < SLOTS :: SlotOk(c, j)) && AllDisjoint(c.slots)
    && (forall k | k in c.pages :: Covered(c.slots, k) && k / 1024 in c.dirs)
  }

  lemma TidyIs(c: Table)
    ensures Tidy(c) <==> Parts(c)
  {
    var d := c.(total := Live(c.slots));
    assert |c.slots| == SLOTS ==> forall j: nat | j < SLOTS :: SlotOk(d, j) == SlotOk(c, j);
    hide SlotOk, Disjoint, Live, Covered;
  }

  /** No two slots of the child cover the same page. */
  lemma CoverOnce(c: Table, i: nat, j: nat, k: nat)
    requires Parts(c) && i < SLOTS && j < SLOTS && i != j && Covers(c.slots[j], k)
    ensures !Covers(c.slots[i], k)
  {
    assert Disjoint(c.slots[if i < j then i else j], c.slots[if i < j then j else i]);
  }

  lemma TidyMeansWelcome(t: Table, c: Table, i: nat)
    requires Coherent(t) && Tidy(c) && i < SLOTS && !t.slots[i].Free()
    requires c.pages !! Wanted(t, i) && Tidy(Copied(t, c, i))
    ensures Welcome(t, c, i)
  {
    var d, s := Copied(t, c, i), t.slots[i];
    TidyIs(c);
    TidyIs(d);
    hide Tidy, Coherent, Range;
    forall j | 0 <= j < SLOTS && j != i ensures Disjoint(c.slots[j], s) {
      assert d.slots[j] == c.slots[j] && d.slots[i] == s;
      if j < i { assert Disjoint(d.slots[j], d.slots[i]); } else { assert Disjoint(d.slots[i], d.slots[j]); }
    }
    var own := c.slots[i];
    forall k | k in c.pages ensures !Covers(own, k) {
      KeptOnce(t, c, i, k);
      assert Covered(d.slots, k);
      var j: nat :| j < SLOTS && Covers(d.slots[j], k);
      CoverOnce(c, i, j, k);
    }
    assert SlotOk(c, i);
    if InWindow(own.addr, own.length) {
      assert c.pages * Range(own.addr, own.length) == {};
    }
  }

  /** The counter of the copied slot leaves no room for a page the child had there before. */
  lemma KeptOnce(t: Table, c: Table, i: nat, k: nat)
    requires Coherent(t) && |c.slots| == SLOTS && i < SLOTS && !t.slots[i].Free()
    requires c.pages !! Wanted(t, i) && SlotOk(Copied(t, c, i), i) && k in c.pages
    ensures !Covers(t.slots[i], k)
  {
    var s, d := t.slots[i], Copied(t, c, i);
    assert SlotOk(t, i);
    if InWindow(s.addr, s.length) {
      var r := Range(s.addr, s.length);
      assert d.pages * r == Wanted(t, i) + c.pages * r;
      assert |d.pages * r| == |Wanted(t, i)| + |c.pages * r|;
      assert c.pages * r == {};
      assert k !in c.pages * r;
    }
  }

  /** A welcome slot meets no page of the child. */
  lemma WelcomeApart(t: Table, c: Table, i: nat)
    requires Coherent(t) && Tidy(c) && i < SLOTS && !t.slots[i].Free() && Welcome(t, c, i)
    ensures forall k | k in c.pages :: !Covers(t.slots[i], k) && !Covers(c.slots[i], k)
    ensures c.pages !! Wanted(t, i)
  {
    TidyIs(c);
    CopyRange(t, i);
    var s, own := t.slots[i], c.slots[i];
    assert SlotOk(c, i) && SlotOk(t, i);
    hide Tidy, Range;
    forall k | k in c.pages ensures !Covers(s, k) && !Covers(own, k) {
      assert InWindow(own.addr, own.length) ==> c.pages * Range(own.addr, own.length) == {};
      assert k in Range(own.addr, own.length) ==> k in c.pages * Range(own.addr, own.length);
      assert Covered(c.slots, k);
      var j: nat :| j < SLOTS && Covers(c.slots[j], k);
      assert j != i && Disjoint(c.slots[j], s);
    }
    forall k | k in Wanted(t, i) ensures Covers(s, k) {
      WantedCovered(t, i, k);
    }
  }

  lemma WantedCovered(t: Table, i: nat, k: nat)
    requires Coherent(t) && i < SLOTS && !t.slots[i].Free() && k in Wanted(t, i)
    ensures Covers(t.slots[i], k)
  {
    var s := t.slots[i];
    assert SlotOk(t, i);
    PagesBelow(t, k);
    if Wraps(s.addr, s.length) { NotInWrapped(k, s.addr, s.length); }
  }

  lemma WelcomeIsTidy(t: Table, c: Table, i: nat)
    requires Coherent(t) && Tidy(c) && i < SLOTS && !t.slots[i].Free() && Welcome(t, c, i)
    requires forall k | k in c.pages :: !Covers(t.slots[i], k) && !Covers(c.slots[i], k)
    ensures Tidy(Copied(t, c, i))
  {
    var d, s := Copied(t, c, i), t.slots[i];
    TidyIs(c);
    TidyIs(d);
    hide Tidy;
    forall j: nat | j < SLOTS ensures SlotOk(d, j) {
      WelcomeSlot(t, c, i, j);
    }
    forall a, b | 0 <= a < b < SLOTS ensures Disjoint(d.slots[a], d.slots[b]) {
      assert Disjoint(c.slots[a], c.slots[b]);
    }
    hide Range, Coherent;
    forall k | k in d.pages ensures Covered(d.slots, k) && k / 1024 in d.dirs {
      if k in c.pages {
        StillCovered(c.slots, i, s, k);
      } else {
        WantedCovered(t, i, k);
        assert Covers(d.slots[i], k);
      }
    }
  }

  lemma WelcomeSlot(t: Table, c: Table, i: nat, j: nat)
    requires Coherent(t) && Parts(c) && i < SLOTS && !t.slots[i].Free() && Welcome(t, c, i) && j < SLOTS
    requires forall k | k in c.pages :: !Covers(t.slots[i], k) && !Covers(c.slots[i], k)
    ensures SlotOk(Copied(t, c, i), j)
  {
    var d, s, sj := Copied(t, c, i), t.slots[i], c.slots[j];
    assert SlotOk(t, i) && SlotOk(c, j);
    if j == i {
      if InWindow(s.addr, s.length) {
        assert d.pages * Range(s.addr, s.length) == Wanted(t, i);
      }
    } else if InWindow(sj.addr, sj.length) {
      assert Disjoint(sj, s);
      forall k | k in Wanted(t, i) ensures k !in Range(sj.addr, sj.length) {
        WantedCovered(t, i, k);
      }
      assert d.pages * Range(sj.addr, sj.length) == c.pages * Range(sj.addr, sj.length);
    }
  }

  // ---------- a child that waits ----------

  predicate SameMapping(a: Slot, b: Slot) {
    a.Free() == b.Free() && (!a.Free() ==> a.addr == b.addr && a.length == b.length)
  }

  /** The child `c` after `i` slots of `t` have been copied: it has the mappings of those slots and no
  others, and all their pages, and has perhaps loaded more. */
  ghost predicate Half(t: Table, c: Table, i: nat) {
    && i <= SLOTS == |t.slots| && Tidy(c)
    && (forall j | 0 <= j < i :: SameMapping(t.slots[j], c.slots[j]) && Wanted(t, j) <= c.pages)
    && (forall j | i <= j < SLOTS :: c.slots[j].Free())
    && c.total == if Live(t.slots[..i]) == 0 then 0 else t.total
  }

  lemma HalfStart(t: Table, dirs: set<nat>)
    requires |t.slots| == SLOTS
    ensures Half(t, Fresh(dirs), 0)
  {
    LiveBound(Fresh(dirs).slots);
  }

  lemma HalfWelcome(t: Table, c: Table, i: nat)
    requires Coherent(t) && Half(t, c, i) && i < SLOTS && !t.slots[i].Free()
    ensures Welcome(t, c, i)
  {
    forall j | 0 <= j < SLOTS && j != i ensures Disjoint(c.slots[j], t.slots[i]) {
      if j < i {
        assert Disjoint(t.slots[j], t.slots[i]) && SameMapping(t.slots[j], c.slots[j]);
      }
    }
  }

  /** One more slot: only memory can be in the way. */
  lemma HalfCopy(t: Table, c: Table, i: nat, room: nat)
    requires Coherent(t) && Half(t, c, i) && i < SLOTS
    ensures var r := CopySlot(t, c, i, room);
      && !r.Remap? && (r.Done? ==> Half(t, r.c, i + 1) && r.c.pages <= c.pages + t.pages)
  {
    hide Coherent, Tidy, Welcome, Wanted, SameMapping, CopyPages;
    LiveNext(t.slots, i);
    if t.slots[i].Free() {
      NoneWanted(t, i);
      SkippedSame(t, c, i);
    } else {
      HalfWelcome(t, c, i);
      CopiedIff(t, c, i);
      TidyDirs(c);
      CopySlotIff(t, c, i, room);
      HalfMore(t, c, i);
    }
  }

  lemma SkippedSame(t: Table, c: Table, i: nat)
    requires Half(t, c, i) && i < SLOTS && t.slots[i].Free()
    ensures SameMapping(t.slots[i], c.slots[i])
  {
  }

  lemma TidyDirs(c: Table)
    requires Tidy(c)
    ensures |c.slots| == SLOTS && forall x | x in c.pages :: x / 1024 in c.dirs
  {
  }

  lemma HalfMore(t: Table, c: Table, i: nat)
    requires Half(t, c, i) && i < SLOTS && !t.slots[i].Free() && Tidy(Copied(t, c, i))
    requires |c.slots| == SLOTS
    ensures Half(t, Copied(t, c, i), i + 1) && Copied(t, c, i).pages <= c.pages + t.pages
  {
    hide Tidy;
    LiveNext(t.slots, i);
    var d := Copied(t, c, i);
    forall j | 0 <= j < i + 1 ensures SameMapping(t.slots[j], d.slots[j]) && Wanted(t, j) <= d.pages {
    }
  }

  lemma LiveNext(slots: seq<Slot>, i: nat)
    requires i < |slots|
    ensures Live(slots[..i + 1]) == Live(slots[..i]) + if slots[i].Free() then 0 else 1
  {
    assert slots[..i + 1][..i] == slots[..i];
  }

  lemma NoneWanted(t: Table, i: nat)
    requires i < |t.slots| && t.slots[i].Free()
    ensures Wanted(t, i) == {}
  {
  }

  /** A fault of the child in between loads one more page. */
  lemma HalfTouch(t: Table, c: Table, i: nat, va: nat)
    requires Half(t, c, i) && LOW <= va < TOP && va / PGSIZE !in c.pages && Fault(c, va).Loaded?
    ensures Half(t, Fault(c, va).t, i) && Fault(c, va).t.pages == c.pages + {va / PGSIZE}
    ensures va / PGSIZE + 1 < TOP / PGSIZE
  {
    hide Coherent, Wanted, Clashes, Live;
    var d := c.(total := Live(c.slots));
    TidyDirs(c);
    FaultCoherent(d, va);
    var f := FindSlot(c.slots, va, 0).value;
    var u := Fault(c, va).t;
    LiveUpdate(c.slots, f, u.slots[f]);
    assert u.(total := Live(u.slots)) == Fault(d, va).t;
  }

  /** A child that has only touched pages ends with the parent's mappings, all its pages, and a
  coherent table. */
  lemma HalfDone(t: Table, c: Table)
    requires Coherent(t) && Half(t, c, SLOTS)
    ensures Coherent(c) && c.total == t.total && t.pages <= c.pages
    ensures forall j | 0 <= j < SLOTS :: SameMapping(t.slots[j], c.slots[j])
  {
    assert t.slots[..SLOTS] == t.slots;
    LiveSame(t.slots, c.slots);
    TidyTotal(c);
    forall k | k in t.pages ensures k in c.pages {
      var j: nat :| j < SLOTS && Covers(t.slots[j], k);
      assert k in Wanted(t, j);
    }
  }

  /** The whole copy with nothing in between, into a new process: the child has the parent's mappings
  and exactly its pages, unless memory runs out. */
  lemma ForkCoherent(t: Table, dirs: set<nat>, room: nat)
    requires Coherent(t)
    ensures var r := CopySlots(t, Fresh(dirs), 0, room);
      && !r.Remap?
      && (r.Done? ==>
            && Coherent(r.c) && r.c.total == t.total && r.c.pages == t.pages
            && (forall j | 0 <= j < SLOTS :: SameMapping(t.slots[j], r.c.slots[j])))
  {
    HalfStart(t, dirs);
    HalfCopies(t, Fresh(dirs), 0, room);
    var r := CopySlots(t, Fresh(dirs), 0, room);
    if r.Done? { HalfDone(t, r.c); }
  }

  lemma {:induction false} HalfCopies(t: Table, c: Table, i: nat, room: nat)
    requires Coherent(t) && Half(t, c, i) && c.pages <= t.pages
    ensures var r := CopySlots(t, c, i, room);
      !r.Remap? && (r.Done? ==> Half(t, r.c, SLOTS) && r.c.pages <= t.pages)
    decreases SLOTS - i
  {
    if i < SLOTS {
      HalfCopy(t, c, i, room);
      var r := CopySlot(t, c, i, room);
      hide Coherent, Tidy, CopySlot;
      if r.Done? { HalfCopies(t, r.c, i + 1, r.room); }
    }
  }
}
