/** Every step of the interleaved copy-on-write kernel keeps its invariant. */
module CowRaceSteps {
  import opened Cow
  import opened CowRaces

  // ---------- who relies on what ----------

  predicate Unforked(s: Kernel, p: nat) {
    p in s.work ==> !s.work[p].Forking? && !s.work[p].Building? && !s.work[p].Undoing?
  }

  /** A process that is not forking is nobody's parent or child. */
  lemma NoFamily(s: Kernel, p: nat)
    requires Places(s, {}) && Unforked(s, p)
    ensures Unrelated(s, {p}, p)
  {
    forall q | q in s.work && q != p ensures !About(s.work[q], p) {
      assert FamilyOk(s, q) by { assert WorkOk(s, q); }
    }
  }

  /** A frame that is mapped is on no list and put by for nobody but its owner. */
  lemma MappedIsUsed(s: Kernel, x: Slot)
    requires Sound(s) && x in s.pt
    ensures s.pt[x].frame in s.mem && s.pt[x].frame in s.count
    ensures s.pt[x].frame !in s.free && s.pt[x].frame !in s.kernel
    ensures NoneKeeps(s, {x.pid}, s.pt[x].frame)
  {
    var f := s.pt[x].frame;
    assert EntryFine(s, x);
    forall q | q in s.work && q != x.pid && (s.work[q].Reserves() || s.work[q].Placed?)
      ensures s.work[q].m != f
    {
      assert WorkOk(s, q);
    }
  }

  /** Who is back with a place that is fine completes the invariant. */
  lemma AllPlaces(s: Kernel, p: nat)
    requires Places(s, {p}) && (p in s.work ==> WorkOk(s, p))
    ensures Places(s, {})
  {
    hide WorkOk;
  }

  /** A running process that reads a count of 1 has the frame to itself from then on. */
  lemma CountOneAlone(s: Kernel, x: Slot)
    requires Sound(s) && Idle(s, x.pid) && Present(s, x) && s.count[s.pt[x].frame] == 1
    ensures Alone(s, x)
  {
    var f := s.pt[x].frame;
    assert x in Held(s, f);
    OneElement(Held(s, f), x);
    forall y | y in s.pt && y != x && s.pt[y].frame == f ensures IsLowered(s.work, y) {
      assert y !in Held(s, f);
      if IsUncounted(s.work, y) {
        var z := UncountedIs(s, y);
      }
    }
  }

  /** A mapping that is not counted yet is the only one, or that of a child whose parent's is. */
  lemma UncountedIs(s: Kernel, y: Slot) returns (z: Slot)
    requires Sound(s) && y in s.pt && IsUncounted(s.work, y)
    ensures s.work[y.pid].Placed? ==> forall x | x in s.pt && s.pt[x].frame == s.pt[y].frame :: x == y
    ensures s.work[y.pid].Building? ==> z in Held(s, s.pt[y].frame) && z.pid in s.work
  {
    assert WorkOk(s, y.pid);
    z := y;
    if s.work[y.pid].Building? {
      z := Slot(s.work[y.pid].parent, y.page);
    }
  }

  lemma OneElement<T>(r: set<T>, x: T)
    requires x in r && |r| <= 1
    ensures r == {x}
  {
    assert |r - {x}| == 0;
  }

  // ---------- user mode and the fault handler ----------

  lemma StoreSound(s: Kernel, e: Event)
    requires Sound(s) && e.Store? && Enabled(s, e)
    ensures Sound(Step(s, e))
  {
    var f := s.pt[e.x].frame;
    assert EntryFine(s, e.x);
    forall q | q in s.work && s.work[q].Copied?
      ensures s.work[q].m != f && Slot(q, s.work[q].page) in s.pt
              && s.pt[Slot(q, s.work[q].page)].frame != f
    {
      assert WorkOk(s, q);
    }
    PutMem(s, {}, f, PutByte(s.mem[f], e.off, e.b));
    hide Tidy, Places;
  }

  lemma FaultSound(s: Kernel, e: Event)
    requires Sound(s) && e.Fault? && Enabled(s, e)
    ensures Sound(Step(s, e))
  {
    var s', x := Step(s, e), e.x;
    if s.count[s.pt[x].frame] == 1 {
      CountOneAlone(s, x);
    }
    MoveSound(s, x.pid, s'.work[x.pid]);
    hide Tidy, Places;
  }

  /** A process with no fork in progress moves on; its new place is fine. */
  lemma MoveSound(s: Kernel, p: nat, w: Work)
    requires Sound(s) && p in s.live && Unforked(s, p)
    requires !w.Forking? && !w.Building? && !w.Undoing? && !w.Placed?
    requires forall x | x in s.pt && x.pid == p :: Counted(s.work, x)
    requires w.Reserves() ==> Spare(s, w.m) && Apart(s, p, w.m)
    requires if w.Cleared? then Slot(p, w.page) !in s.pt
             else Slot(p, w.page) in s.pt && s.pt[Slot(p, w.page)].cow
    requires w.Sole? ==> Alone(s, Slot(p, w.page))
    requires w.Copied? ==> var f := s.pt[Slot(p, w.page)].frame;
                           f in s.mem && w.m in s.mem && s.mem[w.m] == s.mem[f]
    ensures Sound(s.(work := s.work[p := w]))
  {
    hide Tidy, Places, WorkOk, CountOk, Unrelated, Spare, Apart, Alone, Counted;
    var s' := s.(work := s.work[p := w]);
    NoFamily(s, p);
    MoveCounts(s, p, w);
    MoveOk(s, p, w);
    PutWork(s, {p}, p, s'.work);
    AllPlaces(s', p);
  }

  lemma MoveCounts(s: Kernel, p: nat, w: Work)
    requires Sound(s) && (forall x | x in s.pt && x.pid == p :: Counted(s.work, x))
    ensures CountOk(s.(work := s.work[p := w])) && Places(s, {p})
    ensures forall x | x in s.pt && x.pid == p :: !IsLowered(s.work, x)
  {
    hide WorkOk;
    SameHeld(s, s.(work := s.work[p := w]));
  }

  lemma MoveOk(s: Kernel, p: nat, w: Work)
    requires p in s.live
    requires !w.Forking? && !w.Building? && !w.Undoing? && !w.Placed?
    requires w.Reserves() ==> Spare(s, w.m) && Apart(s, p, w.m)
    requires if w.Cleared? then Slot(p, w.page) !in s.pt
             else Slot(p, w.page) in s.pt && s.pt[Slot(p, w.page)].cow
    requires w.Sole? ==> Alone(s, Slot(p, w.page))
    requires w.Sole? ==> forall x | x in s.pt && x.pid == p :: !IsLowered(s.work, x)
    requires w.Copied? ==> var f := s.pt[Slot(p, w.page)].frame;
                           f in s.mem && w.m in s.mem && s.mem[w.m] == s.mem[f]
    ensures var s' := s.(work := s.work[p := w]);
      && WorkOk(s', p) && OnlyWork(s, p, s'.work) && (w.Reserves() ==> NoneKeeps(s, {p}, w.m))
  {
  }

  /** A process with no fork in progress goes back to user mode. */
  lemma LeaveSound(s: Kernel, p: nat)
    requires Sound(s) && Unforked(s, p) && (forall x | x in s.pt && x.pid == p :: Counted(s.work, x))
    ensures Sound(s.(work := s.work - {p}))
  {
    hide Tidy, Places, WorkOk, CountOk, Unrelated, Counted;
    var s' := s.(work := s.work - {p});
    NoFamily(s, p);
    LeaveCounts(s, p);
    PutWork(s, {p}, p, s'.work);
    AllPlaces(s', p);
  }

  lemma LeaveCounts(s: Kernel, p: nat)
    requires Sound(s) && (forall x | x in s.pt && x.pid == p :: Counted(s.work, x))
    ensures var s' := s.(work := s.work - {p});
      CountOk(s') && OnlyWork(s, p, s'.work) && Places(s, {p})
    ensures forall x | x in s.pt && x.pid == p :: !IsLowered(s.work, x)
  {
    hide WorkOk;
    SameHeld(s, s.(work := s.work - {p}));
  }

  /** What the place of a process says of its page. */
  lemma PlaceOf(s: Kernel, x: Slot)
    requires Sound(s) && x.pid in s.work
    ensures WorkOk(s, x.pid)
  {
    hide WorkOk;
  }

  lemma OpenSound(s: Kernel, e: Event)
    requires Sound(s) && e.OpenSole? && Enabled(s, e)
    ensures Sound(Step(s, e))
  {
    hide Tidy, Places, CountOk, Unrelated;
    var x := e.x;
    PlaceOf(s, x);
    var s1 := s.(work := s.work - {x.pid});
    LeaveSound(s, x.pid);
    assert Alone(s1, x);
    NoFamily(s1, x.pid);
    FewerPlaces(s1, x.pid);
    hide WorkOk, Alone;
    PutFlags(s1, {x.pid}, x, s.pt[x].(w := true, cow := false));
    AllPlaces(Step(s, e), x.pid);
  }

  lemma FewerPlaces(s: Kernel, p: nat)
    requires Places(s, {})
    ensures Places(s, {p})
  {
    hide WorkOk;
  }

  lemma TakeSound(s: Kernel, e: Event)
    requires Sound(s) && e.TakeFrame? && Enabled(s, e)
    ensures Sound(Step(s, e))
  {
    hide Tidy, Places, CountOk, Unrelated;
    PlaceOf(s, e.x);
    hide WorkOk;
    PopSound(s, e.x.pid);
    MoveSound(s.(free := s.free[1..]), e.x.pid, Taken(e.x.page, s.free[0]));
  }

  lemma NoFrameSound(s: Kernel, e: Event)
    requires Sound(s) && e.NoFrame? && Enabled(s, e)
    ensures Sound(Step(s, e))
  {
    hide Tidy, Places;
    LeaveSound(s, e.x.pid);
  }

  /** The first free frame leaves the list. */
  lemma PopSound(s: Kernel, p: nat)
    requires Sound(s) && s.free != []
    ensures var s' := s.(free := s.free[1..]);
      Sound(s') && Spare(s', s.free[0]) && Apart(s', p, s.free[0])
  {
    hide WorkOk, CountOk;
    FreeIsKept(s);
    assert Spare(s, s.free[0]);
    PutLists(s, {}, s.free[1..], s.kernel);
  }

  /** No frame on a list is put by for anyone. */
  lemma FreeIsKept(s: Kernel)
    requires Sound(s)
    ensures forall q | q in s.work && (s.work[q].Reserves() || s.work[q].Placed?) ::
              s.work[q].m !in s.free && s.work[q].m !in s.kernel
  {
    forall q | q in s.work && (s.work[q].Reserves() || s.work[q].Placed?)
      ensures s.work[q].m !in s.free && s.work[q].m !in s.kernel
    {
      assert WorkOk(s, q);
    }
  }

  /** Nobody has just copied to or from a frame that is put by for someone else or on a list. */
  lemma SpareUncopied(s: Kernel, busy: set<nat>, m: nat)
    requires Sound(s) && Spare(s, m) && NoneKeeps(s, busy, m)
    ensures forall q | q in s.work && q !in busy && s.work[q].Copied? ::
              s.work[q].m != m && Slot(q, s.work[q].page) in s.pt
              && s.pt[Slot(q, s.work[q].page)].frame != m
  {
    forall q | q in s.work && q !in busy && s.work[q].Copied?
      ensures s.work[q].m != m && Slot(q, s.work[q].page) in s.pt
              && s.pt[Slot(q, s.work[q].page)].frame != m
    {
      assert WorkOk(s, q);
    }
  }

  lemma CopySound(s: Kernel, e: Event)
    requires Sound(s) && e.CopyFrame? && Enabled(s, e)
    ensures Sound(Step(s, e))
  {
    hide Tidy, Places, CountOk, Unrelated;
    var x, m := e.x, s.work[e.x.pid].m;
    PlaceOf(s, x);
    SpareUncopied(s, {x.pid}, m);
    FewerPlaces(s, x.pid);
    var s1 := s.(mem := s.mem[m := s.mem[s.pt[x].frame]]);
    PutMem(s, {x.pid}, m, s.mem[s.pt[x].frame]);
    assert WorkOk(s1, x.pid);
    hide WorkOk;
    AllPlaces(s1, x.pid);
    MoveSound(s1, x.pid, Copied(x.page, m));
  }

  lemma LowerSound(s: Kernel, e: Event)
    requires Sound(s) && e.LowerCount? && Enabled(s, e)
    ensures Sound(Step(s, e))
  {
    hide Tidy, Places, CountOk, Unrelated;
    var x, m, f := e.x, s.work[e.x.pid].m, s.pt[e.x].frame;
    PlaceOf(s, x);
    hide WorkOk;
    var s1 := s.(work := s.work[x.pid := Lowered(x.page, m)]);
    MoveSound(s, x.pid, Lowered(x.page, m));
    LoweredCounts(s, s1, x);
    MappedIsUsed(s1, x);
    assert NoneKeeps(s1, {}, f);
    PutCount(s1, {}, f, Dec(s.count[f]));
  }

  lemma LoweredCounts(s: Kernel, s1: Kernel, x: Slot)
    requires Sound(s) && Present(s, x) && Counted(s.work, x)
    requires x.pid in s.work && s.work[x.pid].Copied? && s.work[x.pid].page == x.page
    requires s1 == s.(work := s.work[x.pid := Lowered(x.page, s.work[x.pid].m)])
    ensures var f := s.pt[x].frame; |Held(s1, f)| <= Dec(s.count[f]) <= 255
  {
    hide WorkOk, FreeOk, EntryFine;
    var f := s.pt[x].frame;
    assert x in Held(s, f);
    assert Held(s1, f) == Held(s, f) - {x};
  }

  lemma ClearSound(s: Kernel, e: Event)
    requires Sound(s) && e.ClearEntry? && Enabled(s, e)
    ensures Sound(Step(s, e))
  {
    hide Tidy, Places, CountOk, Unrelated;
    var x, m, s' := e.x, s.work[e.x.pid].m, Step(s, e);
    PlaceOf(s, x);
    NoFamily(s, x.pid);
    FewerPlaces(s, x.pid);
    var s1 := s.(pt := s.pt - {x});
    DropEntry(s, {x.pid}, x);
    assert WorkOk(s', x.pid);
    hide WorkOk;
    UnrelatedStays(s, s1, {x.pid}, x.pid);
    ShiftSound(s1, {x.pid}, x.pid, Cleared(x.page, m));
    AllPlaces(s', x.pid);
  }

  /** A process moves on while its place is not looked at. */
  lemma ShiftSound(s: Kernel, busy: set<nat>, p: nat, w: Work)
    requires Tidy(s) && Places(s, busy) && p in busy && Unrelated(s, busy, p)
    requires forall x | x in s.pt && x.pid == p :: Counted(s.work[p := w], x) ==> Counted(s.work, x)
    requires forall x | x in s.pt && x.pid == p :: IsLowered(s.work, x) ==> IsLowered(s.work[p := w], x)
    requires w.Reserves() || w.Placed? ==> NoneKeeps(s, busy, w.m)
    ensures var s' := s.(work := s.work[p := w]); Tidy(s') && Places(s', busy)
  {
    var s' := s.(work := s.work[p := w]);
    SameHeld(s, s');
    hide Tidy, Places, CountOk, Unrelated, Counted;
    PutWork(s, busy, p, s'.work);
  }

  lemma MapSound(s: Kernel, e: Event)
    requires Sound(s) && e.MapCopy? && Enabled(s, e)
    ensures Sound(Step(s, e))
  {
    hide Tidy, Places, CountOk, Unrelated;
    var x, m, s' := e.x, s.work[e.x.pid].m, Step(s, e);
    PlaceOf(s, x);
    NoFamily(s, x.pid);
    FewerPlaces(s, x.pid);
    var s1 := s.(work := s.work[x.pid := Placed(x.page, m)]);
    ShiftSound(s, {x.pid}, x.pid, Placed(x.page, m));
    assert WorkOk(s', x.pid);
    assert Sharable(s1, {x.pid}, x, m) && Unmapped(s1, m);
    hide WorkOk;
    UnrelatedStays(s, s1, {x.pid}, x.pid);
    AddEntry(s1, {x.pid}, x, Own(m));
    AllPlaces(s', x.pid);
  }

  /** Whoever is not looked at may change places. */
  lemma UnrelatedStays(s: Kernel, s1: Kernel, busy: set<nat>, p: nat)
    requires Unrelated(s, busy, p)
    requires forall q | q in s1.work && q !in busy :: q in s.work && s1.work[q] == s.work[q]
    ensures Unrelated(s1, busy, p)
  {
  }

  lemma SetSound(s: Kernel, e: Event)
    requires Sound(s) && e.SetCount? && Enabled(s, e)
    ensures Sound(Step(s, e))
  {
    hide Tidy, Places, Unrelated;
    var x, m := e.x, s.work[e.x.pid].m;
    PlaceOf(s, x);
    NoFamily(s, x.pid);
    FewerPlaces(s, x.pid);
    assert Held(s, m) == {};
    var s1 := s.(count := s.count[m := 1]);
    PutCount(s, {x.pid}, m, 1);
    CountsOf(s1);
    assert CountOk(Step(s, e)) by { OwnCounts(s1, x, m); }
    hide CountOk, WorkOk, Held;
    UnrelatedStays(s, s1, {x.pid}, x.pid);
    PutWork(s1, {x.pid}, x.pid, s.work - {x.pid});
    AllPlaces(Step(s, e), x.pid);
  }

  lemma CountsOf(s: Kernel)
    requires Tidy(s)
    ensures CountOk(s)
  {
    hide CountOk;
  }

  lemma OwnCounts(s1: Kernel, x: Slot, m: nat)
    requires CountOk(s1) && x in s1.pt && s1.pt[x].frame == m && m in s1.count && s1.count[m] == 1
    requires x.pid in s1.work && s1.work[x.pid] == Placed(x.page, m)
    requires forall y | y in s1.pt && s1.pt[y].frame == m :: y == x
    ensures CountOk(s1.(work := s1.work - {x.pid}))
  {
    var s' := s1.(work := s1.work - {x.pid});
    forall f | f in s1.count ensures |Held(s', f)| <= s1.count[f] {
      if f == m {
        Fewer(Held(s', f), {x});
      } else {
        assert Held(s', f) == Held(s1, f);
      }
    }
  }

  lemma GrowSound(s: Kernel, e: Event)
    requires Sound(s) && e.Grow? && Enabled(s, e)
    ensures Sound(Step(s, e))
  {
    hide Tidy, Places, CountOk, Unrelated, WorkOk;
    var x, m := e.x, s.free[0];
    PopSound(s, x.pid);
    var s1 := s.(free := s.free[1..]);
    assert NoneKeeps(s1, {}, m);
    SpareUncopied(s1, {}, m);
    PutMem(s1, {}, m, Filled(0));
    MoveSound(s1.(mem := s1.mem[m := Filled(0)]), x.pid, Cleared(x.page, m));
  }

  // ---------- the kernel's own frames ----------

  lemma KernelAllocSound(s: Kernel, e: Event)
    requires Sound(s) && e.KernelAlloc? && Enabled(s, e)
    ensures Sound(Step(s, e))
  {
    hide Tidy, Places, CountOk, Unrelated, WorkOk;
    var f := s.free[0];
    PopSound(s, 0);
    FreeIsKept(s);
    var s1 := s.(free := s.free[1..]);
    var s2 := s1.(kernel := s1.kernel + {f});
    assert FreeOk(s2) by { ListsOf(s1); }
    PutLists(s1, {}, s1.free, s1.kernel + {f});
    assert Spare(s2, f);
    hide FreeOk, Spare;
    SpareUncopied(s2, {}, f);
    PutMem(s2, {}, f, e.contents);
  }

  lemma ListsOf(s: Kernel)
    requires Tidy(s)
    ensures FreeOk(s)
  {
    hide FreeOk;
  }

  lemma KernelFreeSound(s: Kernel, e: Event)
    requires Sound(s) && e.KernelFree? && Enabled(s, e)
    ensures Sound(Step(s, e))
  {
    hide Tidy, Places, CountOk, Unrelated, WorkOk;
    var f := e.f;
    FreeIsKept(s);
    ListsOf(s);
    assert Spare(s, f);
    SpareUncopied(s, {}, f);
    PutMem(s, {}, f, Filled(1));
    var s1 := s.(mem := s.mem[f := Filled(1)]);
    ListsOf(s1);
    FreedLists(s1, f);
    PutLists(s1, {}, [f] + s.free, s.kernel - {f});
  }

  lemma FreedLists(s: Kernel, f: nat)
    requires FreeOk(s) && f in s.kernel
    ensures FreeOk(s.(free := [f] + s.free, kernel := s.kernel - {f}))
  {
    var s' := s.(free := [f] + s.free, kernel := s.kernel - {f});
    assert forall g :: Spare(s, g) ==> Spare(s', g);
    hide Spare;
  }

  // ---------- fork ----------

  lemma ForkSound(s: Kernel, e: Event)
    requires Sound(s) && e.Fork? && Enabled(s, e)
    ensures Sound(Step(s, e))
  {
    hide Tidy, Places, CountOk, Unrelated;
    var s', busy := Step(s, e), {e.parent, e.child};
    LivePids(s);
    NoFamily(s, e.parent);
    NoFamily(s, e.child);
    var s1 := s.(live := s.live + {e.child});
    PutLive(s, {}, s1.live);
    assert WorkOk(s', e.parent) && WorkOk(s', e.child);
    hide WorkOk;
    BusyPlaces(s1, busy);
    var s2 := s1.(work := s1.work[e.parent := Forking(e.child)]);
    UnrelatedTo(s, s1, busy, e.parent);
    UnrelatedTo(s, s1, busy, e.child);
    ShiftSound(s1, busy, e.parent, Forking(e.child));
    UnrelatedStays(s1, s2, busy, e.child);
    ShiftSound(s2, busy, e.child, Building(e.parent, e.pages, 0, Mark));
    BothPlaces(s', e.parent, e.child);
  }

  /** Everyone who has pages or a place in the kernel is in the process table. */
  lemma LivePids(s: Kernel)
    requires Sound(s)
    ensures (forall x | x in s.pt :: x.pid in s.live) && (forall q | q in s.work :: q in s.live)
    ensures |s.live| <= NPROC
  {
    forall x | x in s.pt ensures x.pid in s.live {
      assert EntryFine(s, x);
    }
    forall q | q in s.work ensures q in s.live {
      assert WorkOk(s, q);
    }
  }

  lemma BusyPlaces(s: Kernel, busy: set<nat>)
    requires Places(s, {})
    ensures Places(s, busy)
  {
    hide WorkOk;
  }

  lemma BothPlaces(s: Kernel, p: nat, q: nat)
    requires Places(s, {p, q}) && (p in s.work ==> WorkOk(s, p)) && (q in s.work ==> WorkOk(s, q))
    ensures Places(s, {})
  {
    hide WorkOk;
  }

  lemma UnrelatedTo(s: Kernel, s1: Kernel, busy: set<nat>, p: nat)
    requires p in busy && Unrelated(s, {p}, p) && s1.work == s.work
    ensures Unrelated(s1, busy, p)
  {
  }

  /** Parent and child of a fork in progress belong to each other and to nobody else. */
  lemma ForkFamily(s: Kernel, child: nat)
    requires Sound(s) && child in s.work && (s.work[child].Building? || s.work[child].Undoing?)
    ensures var parent := s.work[child].parent;
      && parent != child && parent in s.work && s.work[parent] == Forking(child)
      && WorkOk(s, parent) && WorkOk(s, child)
      && Unrelated(s, {parent, child}, parent) && Unrelated(s, {parent, child}, child)
  {
    hide Tidy;
    var parent := s.work[child].parent;
    assert WorkOk(s, child);
    assert WorkOk(s, parent);
    hide OwnOk, ReserveOk, SeenOk;
    forall q | q in s.work && q != parent && q != child
      ensures !About(s.work[q], parent) && !About(s.work[q], child)
    {
      assert FamilyOk(s, q) by { assert WorkOk(s, q); }
    }
  }

  lemma MarkSound(s: Kernel, e: Event)
    requires Sound(s) && e.MarkPage? && Enabled(s, e)
    ensures Sound(Step(s, e))
  {
    hide Tidy, Places, CountOk, Unrelated;
    var s', busy, x := Step(s, e), {e.parent, e.child}, Slot(e.parent, e.page);
    ForkFamily(s, e.child);
    BusyPlaces(s, busy);
    var s1 := s.(pt := s.pt[x := Share(s.pt[x])]);
    EntryOf(s, x);
    PutFlags(s, busy, x, Share(s.pt[x]));
    assert WorkOk(s', e.parent) && WorkOk(s', e.child);
    hide WorkOk;
    UnrelatedStays(s, s1, busy, e.child);
    ShiftSound(s1, busy, e.child, s.work[e.child].(stage := Map));
    BothPlaces(s', e.parent, e.child);
  }

  lemma EntryOf(s: Kernel, x: Slot)
    requires Sound(s) && x in s.pt
    ensures EntryFine(s, x)
  {
    hide EntryFine;
  }

  lemma ShareSound(s: Kernel, e: Event)
    requires Sound(s) && e.SharePage? && Enabled(s, e)
    ensures Sound(Step(s, e))
  {
    hide Tidy, Places, CountOk, Unrelated, Sharable;
    var s', busy, x := Step(s, e), {e.parent, e.child}, Slot(e.child, e.page);
    ForkFamily(s, e.child);
    BusyPlaces(s, busy);
    var s1 := s.(work := s.work[e.child := s.work[e.child].(stage := Count)]);
    assert x !in s.pt;
    ShiftSound(s, busy, e.child, s.work[e.child].(stage := Count));
    EntryOf(s, Slot(e.parent, e.page));
    ParentSharable(s, s1, e.parent, e.child, e.page);
    assert WorkOk(s', e.parent) && WorkOk(s', e.child);
    hide WorkOk;
    UnrelatedStays(s, s1, busy, e.child);
    AddEntry(s1, busy, x, s.pt[Slot(e.parent, e.page)]);
    BothPlaces(s', e.parent, e.child);
  }

  /** A parent's read-only page has no writer and nobody about to become one. */
  lemma ParentSharable(s: Kernel, s1: Kernel, parent: nat, child: nat, page: nat)
    requires Sound(s) && parent in s.work && s.work[parent] == Forking(child)
    requires Slot(parent, page) in s.pt && !s.pt[Slot(parent, page)].w
    requires child in s.work && s1 == s.(work := s1.work) && OnlyWork(s, child, s1.work)
    ensures Sharable(s1, {parent, child}, Slot(child, page), s.pt[Slot(parent, page)].frame)
  {
    var z := Slot(parent, page);
    var f := s.pt[z].frame;
    MappedIsUsed(s, z);
    forall y | y in s.pt && s.pt[y].frame == f ensures y.page == page && !s.pt[y].w {
      assert EntryFine(s, y);
      assert !IsLowered(s.work, z);
    }
    forall q | q in s.work && q != parent && q != child && s.work[q].Sole?
        && Slot(q, s.work[q].page) in s.pt
      ensures s.pt[Slot(q, s.work[q].page)].frame != f
    {
      assert WorkOk(s, q);
      assert !IsLowered(s.work, z);
    }
    hide Tidy, Places;
  }

  lemma CountSound(s: Kernel, e: Event)
    requires Sound(s) && e.CountPage? && Enabled(s, e)
    ensures Sound(Step(s, e))
  {
    hide Tidy, Places, Unrelated, CountOk;
    var s', busy, y := Step(s, e), {e.parent, e.child}, Slot(e.child, e.page);
    var f := s.pt[y].frame;
    ForkFamily(s, e.child);
    BusyPlaces(s, busy);
    MappedIsUsed(s, y);
    RaisedCounts(s, s', y);
    var s1 := s.(count := s.count[f := Inc(s.count[f])]);
    PutCount(s, busy, f, Inc(s.count[f]));
    assert WorkOk(s', e.parent) && WorkOk(s', e.child);
    hide WorkOk;
    UnrelatedStays(s, s1, busy, e.child);
    PutWork(s1, busy, e.child, s'.work);
    BothPlaces(s', e.parent, e.child);
  }

  /** A raised count covers the child's mapping too; at 255 the process table is the bound. */
  lemma RaisedCounts(s: Kernel, s': Kernel, y: Slot)
    requires Sound(s) && Present(s, y) && y.pid in s.work && s.work[y.pid].Building?
    requires s.work[y.pid].page == y.page && s.work[y.pid].stage == Count
    requires s' == s.(count := s.count[s.pt[y].frame := Inc(s.count[s.pt[y].frame])],
                      work := s.work[y.pid := s.work[y.pid].(page := y.page + 1, stage := Mark)])
    ensures CountOk(s') && |Held(s, s.pt[y].frame)| <= Inc(s.count[s.pt[y].frame]) <= 255
  {
    hide Tidy, Places, Held, Counted;
    var f := s.pt[y].frame;
    CountsOf(s);
    HeldRaised(s, s', y);
    LivePids(s);
    HeldBound(s, s', f);
  }

  lemma HeldRaised(s: Kernel, s': Kernel, y: Slot)
    requires y in s.pt && y.pid in s.work && s.work[y.pid].Building?
    requires s.work[y.pid].page == y.page && s.work[y.pid].stage == Count && s'.pt == s.pt
    requires s'.work == s.work[y.pid := s.work[y.pid].(page := y.page + 1, stage := Mark)]
    ensures Held(s', s.pt[y].frame) == Held(s, s.pt[y].frame) + {y}
    ensures forall g | g != s.pt[y].frame :: Held(s', g) == Held(s, g)
  {
    forall x | x in s.pt && x != y ensures Counted(s'.work, x) == Counted(s.work, x) {
    }
    hide Counted;
    assert Counted(s'.work, y) && !Counted(s.work, y);
  }

  /** A frame has at most one mapping in each process. */
  lemma HeldBound(s: Kernel, s': Kernel, f: nat)
    requires Sound(s) && s'.pt == s.pt && (forall x | x in s.pt :: x.pid in s.live) && |s.live| <= NPROC
    ensures |Held(s', f)| <= NPROC
  {
    hide FreeOk, EntryFine, WorkOk, CountOk, Counted;
    PidsBound(Held(s', f), s.live);
  }

  /** Back to user mode while the place is not looked at. */
  lemma DoneSound(s: Kernel, busy: set<nat>, p: nat)
    requires Tidy(s) && Places(s, busy) && p in busy && Unrelated(s, busy, p)
    requires forall x | x in s.pt && x.pid == p :: Counted(s.work, x)
    ensures var s' := s.(work := s.work - {p}); Tidy(s') && Places(s', busy)
  {
    var s' := s.(work := s.work - {p});
    SameHeld(s, s');
    assert OnlyWork(s, p, s'.work);
    hide Tidy, Places, CountOk, Unrelated;
    PutWork(s, busy, p, s'.work);
  }

  lemma ForkDoneSound(s: Kernel, e: Event)
    requires Sound(s) && e.ForkDone? && Enabled(s, e)
    ensures Sound(Step(s, e))
  {
    hide Tidy, Places, CountOk, Unrelated, WorkOk;
    ForkFamily(s, e.child);
    BothLeave(s, e.parent, e.child);
  }

  /** The fork is over for both. */
  lemma BothLeave(s: Kernel, parent: nat, child: nat)
    requires Sound(s) && child in s.work && parent in s.work && s.work[parent] == Forking(child)
    requires s.work[child].Undoing? || (s.work[child].Building? && s.work[child].stage == Mark)
    requires s.work[child].parent == parent != child
    ensures Sound(s.(work := s.work - {parent, child}))
  {
    hide Tidy, Places, CountOk, Unrelated, WorkOk;
    var busy, s' := {parent, child}, s.(work := s.work - {parent, child});
    ForkFamily(s, child);
    BusyPlaces(s, busy);
    DoneSound(s, busy, child);
    var s1 := s.(work := s.work - {child});
    UnrelatedStays(s, s1, busy, parent);
    DoneSound(s1, busy, parent);
    assert s1.work - {parent} == s'.work;
    BothPlaces(s', parent, child);
  }

  lemma GiveUpSound(s: Kernel, e: Event)
    requires Sound(s) && e.GiveUp? && Enabled(s, e)
    ensures Sound(Step(s, e))
  {
    hide Tidy, Places, CountOk, Unrelated;
    var s', busy := Step(s, e), {e.parent, e.child};
    ForkFamily(s, e.child);
    BusyPlaces(s, busy);
    assert WorkOk(s', e.parent) && WorkOk(s', e.child);
    hide WorkOk;
    ShiftSound(s, busy, e.child, Undoing(e.parent));
    BothPlaces(s', e.parent, e.child);
  }

  // ---------- pages and processes that go ----------

  lemma UnmapSound(s: Kernel, e: Event)
    requires Sound(s) && e.Unmap? && Enabled(s, e)
    ensures Sound(Step(s, e)) && Step(s, e) == s.(pt := s.pt - {e.x})
  {
    hide Tidy, Places, CountOk, Unrelated;
    var x, s' := e.x, s.(pt := s.pt - {e.x});
    CountedIsPositive(s, x);
    if x.pid in s.work {
      var parent := s.work[x.pid].parent;
      ForkFamily(s, x.pid);
      BusyPlaces(s, {parent, x.pid});
      DropEntry(s, {parent, x.pid}, x);
      assert WorkOk(s', parent) && WorkOk(s', x.pid);
      hide WorkOk;
      BothPlaces(s', parent, x.pid);
    } else {
      NoFamily(s, x.pid);
      FewerPlaces(s, x.pid);
      DropEntry(s, {x.pid}, x);
      hide WorkOk;
      AllPlaces(s', x.pid);
    }
  }

  /** The frame of a counted mapping is not freed. */
  lemma CountedIsPositive(s: Kernel, x: Slot)
    requires Sound(s) && Present(s, x) && Counted(s.work, x)
    ensures s.count[s.pt[x].frame] > 0
  {
    assert x in Held(s, s.pt[x].frame);
    hide FreeOk, EntryFine, WorkOk;
  }

  lemma GoneSound(s: Kernel, e: Event)
    requires Sound(s) && e.Gone? && Enabled(s, e)
    ensures Sound(Step(s, e))
  {
    hide Tidy, Places, CountOk, Unrelated, WorkOk;
    LivePids(s);
    var s1 := s;
    if e.pid in s.work {
      ForkFamily(s, e.pid);
      BothLeave(s, s.work[e.pid].parent, e.pid);
      s1 := s.(work := s.work - {s.work[e.pid].parent, e.pid});
      assert {e.pid, s.work[e.pid].parent} == {s.work[e.pid].parent, e.pid};
    }
    Fewer(s.live - {e.pid}, s.live);
    PutLive(s1, {}, s.live - {e.pid});
  }

  lemma StepSound(s: Kernel, e: Event)
    requires Sound(s) && Enabled(s, e)
    ensures Sound(Step(s, e))
  {
    hide Sound, Enabled, Step;
    match e
    case Store(_, _, _) => StoreSound(s, e);
    case Fault(_) => FaultSound(s, e);
    case OpenSole(_) => OpenSound(s, e);
    case TakeFrame(_) => TakeSound(s, e);
    case NoFrame(_) => NoFrameSound(s, e);
    case CopyFrame(_) => CopySound(s, e);
    case LowerCount(_) => LowerSound(s, e);
    case ClearEntry(_) => ClearSound(s, e);
    case MapCopy(_) => MapSound(s, e);
    case SetCount(_) => SetSound(s, e);
    case Grow(_) => GrowSound(s, e);
    case Fork(_, _, _) => ForkSound(s, e);
    case MarkPage(_, _, _) => MarkSound(s, e);
    case SharePage(_, _, _) => ShareSound(s, e);
    case CountPage(_, _, _) => CountSound(s, e);
    case ForkDone(_, _) => ForkDoneSound(s, e);
    case GiveUp(_, _) => GiveUpSound(s, e);
    case Unmap(_) => UnmapSound(s, e);
    case Gone(_) => GoneSound(s, e);
    case KernelAlloc(_) => KernelAllocSound(s, e);
    case KernelFree(_) => KernelFreeSound(s, e);
  }
}
