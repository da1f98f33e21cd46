/** Children that do not wait for their mappings. Whatever processes do, every table stays tidy (right
but for the total) exactly as long as every slot that `copyWmap` brings in is welcome. */
module WmapRaces {
  import opened Common
  import opened Wmap
  import opened WmapFork
  import opened WmapRuns

  /** The same table with the total set right. */
  function Righted(t: Table): Table {
    t.(total := Live(t.slots))
  }

  // ---------- what a process does to its own table ----------

  lemma MapTidy(t: Table, addr: nat, length: int, flags: int)
    requires Tidy(t) && addr < WORD && length < WORD / 2
    ensures Tidy(Or(SysWmap(t, addr, length, flags), t))
  {
    var u := Righted(t);
    AcceptedIff(addr, length);
    LiveBound(t.slots);
    if SysWmap(t, addr, length, flags).Some? {
      WmapCoherent(u, addr, length);
      var d := AddMapping(t, addr, length).value;
      LiveUpdate(t.slots, FirstFree(t.slots, 0).value, Slot(addr, length, 0));
      hide Coherent, Clashes;
      assert Righted(d) == AddMapping(u, addr, length).value;
    }
  }

  lemma UnmapTidy(t: Table, addr: nat)
    requires Tidy(t)
    ensures Tidy(Or(RemoveMapping(t, addr), t)) && |Or(RemoveMapping(t, addr), t).slots| == SLOTS
  {
    TidyDirs(t);
    var f := FindStart(t.slots, addr, 0);
    if t.total != 0 && f.Some? {
      UnmapCoherent(Righted(t), f.value);
      LiveUpdate(t.slots, f.value, FREE);
      hide Coherent;
      assert Righted(DropMapping(t, f.value)) == DropMapping(Righted(t), f.value);
    }
  }

  lemma TouchTidy(t: Table, va: nat)
    requires Tidy(t) && LOW <= va < TOP && va / PGSIZE !in t.pages
    ensures Tidy(Answer(Fault(t, va), t))
  {
    hide Coherent, Clashes;
    TidyDirs(t);
    FaultCoherent(Righted(t), va);
    if Fault(t, va).Loaded? {
      var f := FindSlot(t.slots, va, 0).value;
      LiveUpdate(t.slots, f, Fault(t, va).t.slots[f]);
      assert Righted(Fault(t, va).t) == Fault(Righted(t), va).t;
    }
  }

  lemma {:induction false} ExitTidy(t: Table, i: nat)
    requires Tidy(t) && |t.slots| == SLOTS && i <= SLOTS
    ensures Tidy(ExitFrom(t, i))
    decreases SLOTS - i
  {
    if i < SLOTS {
      UnmapTidy(t, t.slots[i].addr);
      hide Tidy, RemoveMapping;
      ExitTidy(if t.slots[i].Free() then t else Or(RemoveMapping(t, t.slots[i].addr), t), i + 1);
    }
  }

  lemma FreshTidy(dirs: set<nat>)
    ensures Tidy(Fresh(dirs))
  {
    LiveBound(Fresh(dirs).slots);
  }

  // ---------- one slot ----------

  /** The copy of a slot from a tidy parent leaves the child tidy exactly when the slot is welcome. */
  lemma CopyTidyIff(t: Table, c: Table, i: nat, room: nat)
    requires Tidy(t) && Tidy(c) && i < SLOTS && |t.slots| == |c.slots| == SLOTS
    requires CopySlot(t, c, i, room).Done?
    ensures Tidy(CopySlot(t, c, i, room).c) <==> t.slots[i].Free() || Welcome(t, c, i)
  {
    if !t.slots[i].Free() {
      var u := Righted(t);
      TidyDirs(c);
      CopySlotIff(u, c, i, room);
      CopiedIff(u, c, i);
      hide Tidy, Coherent, CopyPages;
      SameTidy(Copied(u, c, i), CopySlot(t, c, i, room).c);
    }
  }

  lemma SameTidy(c: Table, d: Table)
    requires d == c.(total := d.total)
    ensures Tidy(d) <==> Tidy(c)
  {
    assert Righted(c) == Righted(d);
  }

  // ---------- every run ----------

  predicate AllTidy(s: State) {
    forall p | p in s.tables :: Tidy(s.tables[p])
  }

  /** The slot a copying step brings in is welcome, or there is none, or memory runs out. */
  predicate Fits(s: State, e: Event)
    requires Step(s, e).Some?
  {
    e.CopyNext? ==>
      var Copying(p, i) := s.copies[e.p];
      var (t, c) := (s.tables[p], s.tables[e.p]);
      CopySlot(t, c, i, e.room).NoMemory? || t.slots[i].Free() || Welcome(t, c, i)
  }

  lemma PutTidy(s: State, p: nat, t: Table)
    requires AllTidy(s)
    ensures AllTidy(Put(s, p, t)) <==> Tidy(t)
  {
    assert p in Put(s, p, t).tables;
  }

  lemma StepTidyIff(s: State, e: Event)
    requires AllTidy(s) && Step(s, e).Some?
    ensures AllTidy(Step(s, e).value) <==> Fits(s, e)
  {
    hide Tidy, Welcome, ExitFrom, Fault, SysWmap, RemoveMapping, Fresh, CopySlot;
    match e
    case New(p, dirs) =>
      FreshTidy(dirs);
      PutTidy(s, p, Fresh(dirs));
    case Map(p, addr, length, flags) =>
      MapTidy(s.tables[p], addr, length, flags);
      PutTidy(s, p, Or(SysWmap(s.tables[p], addr, length, flags), s.tables[p]));
    case Touch(p, va) =>
      TouchTidy(s.tables[p], va);
      PutTidy(s, p, Answer(Fault(s.tables[p], va), s.tables[p]));
    case Unmap(p, addr) =>
      UnmapTidy(s.tables[p], addr);
      PutTidy(s, p, Or(SysWunmap(s.tables[p], addr), s.tables[p]));
    case Exit(p) =>
      ExitTidy(s.tables[p], 0);
      PutTidy(s, p, ExitFrom(s.tables[p], 0));
    case ForkStart(p, c, dirs) =>
      FreshTidy(dirs);
      PutTidy(s, c, Fresh(dirs));
    case CopyNext(c, room) =>
      var Copying(p, i) := s.copies[c];
      var r := CopySlot(s.tables[p], s.tables[c], i, room);
      if r.Done? {
        CopyTidyIff(s.tables[p], s.tables[c], i, room);
        PutTidy(s, c, r.c);
      }
    case ForkDone(c) =>
  }

  /** All tables are tidy after every step of the run. */
  predicate AlwaysTidy(es: seq<Event>)
    requires Exec(es).Some?
    decreases |es|
  {
    AllTidy(Exec(es).value) && (es == [] || AlwaysTidy(es[..|es| - 1]))
  }

  /** Every slot brought in finds the child's table ready for it. */
  predicate AlwaysFits(es: seq<Event>)
    requires Exec(es).Some?
    decreases |es|
  {
    es == [] || (AlwaysFits(es[..|es| - 1]) && Fits(Exec(es[..|es| - 1]).value, es[|es| - 1]))
  }

  /** In every run, whatever children do before they have got their mappings, the tables stay tidy if
  and only if every slot copied is welcome when it comes. */
  lemma {:induction false} TidyIff(es: seq<Event>)
    requires Exec(es).Some?
    ensures AlwaysTidy(es) <==> AlwaysFits(es)
    decreases |es|
  {
    hide AllTidy, Fits, Step;
    if es == [] {
      NoneTidy();
    } else {
      var front := es[..|es| - 1];
      TidyIff(front);
      if AlwaysFits(front) {
        assert AllTidy(Exec(front).value);
        StepTidyIff(Exec(front).value, es[|es| - 1]);
      }
    }
  }

  lemma NoneTidy()
    ensures AllTidy(State(map[], map[]))
  {
  }

  // ---------- a child that does not wait ----------

  lemma Go(es: seq<Event>, s: State, e: Event)
    requires Exec(es) == Some(s) && Step(s, e).Some?
    ensures Exec(es + [e]) == Step(s, e)
    ensures !ChildrenWait(es) || !Waits(s, e) ==> !ChildrenWait(es + [e])
  {
    hide Step, Waits;
    assert (es + [e])[..|es|] == es;
  }

  /** Slots of the parent that are free go over without a trace. */
  lemma {:induction false} SkipFree(es: seq<Event>, s: State, p: nat, c: nat, i: nat) returns (fs: seq<Event>)
    requires Exec(es) == Some(s) && p in s.tables && c in s.tables && i <= SLOTS
    requires |s.tables[p].slots| == |s.tables[c].slots| == SLOTS && s.copies == map[c := Copying(p, i)]
    requires forall j | i <= j < SLOTS :: s.tables[p].slots[j].Free()
    ensures Exec(fs) == Some(s.(copies := map[c := Copying(p, SLOTS)]))
    ensures !ChildrenWait(es) ==> !ChildrenWait(fs)
    decreases SLOTS - i
  {
    if i == SLOTS {
      fs := es;
    } else {
      Go(es, s, CopyNext(c, 0));
      var s1 := s.(copies := map[c := Copying(p, i + 1)]);
      assert s.tables[c := s.tables[c]] == s.tables;
      assert s.copies[c := Copying(p, i + 1)] == s1.copies;
      hide Exec, ChildrenWait;
      fs := SkipFree(es + [CopyNext(c, 0)], s1, p, c, i + 1);
    }
  }

  /** One page at address `a`. */
  function OnePage(a: nat): Slot { Slot(a, PGSIZE, 0) }

  lemma MapsFirst(t: Table, i: nat, a: nat)
    requires |t.slots| == SLOTS && i < SLOTS && t.total < SLOTS && t.slots[i].Free()
    requires a == LOW || a == LOW + PGSIZE
    requires forall j | 0 <= j < i :: t.slots[j] == OnePage(2 * LOW + PGSIZE - a)
    requires forall j | i <= j < SLOTS :: t.slots[j].Free()
    ensures SysWmap(t, a, PGSIZE, MAP_FIXED + MAP_SHARED)
         == Some(t.(slots := t.slots[i := OnePage(a)], total := t.total + 1))
  {
    var f := FirstFree(t.slots, 0);
    assert f == Some(i);
  }

  /** The parent's mapping is in slot 1 and its slot 0 is free again. */
  lemma ParentRun() returns (es: seq<Event>)
    ensures var t := Fresh({});
      Exec(es) == Some(State(map[1 := t.(slots := t.slots[1 := OnePage(LOW)], total := 1)], map[]))
  {
    var t0, f := Fresh({}), MAP_FIXED + MAP_SHARED;
    es := [];
    Go(es, State(map[], map[]), New(1, {}));
    es := es + [New(1, {})];
    var s0 := State(map[1 := t0], map[]);
    assert map[][1 := t0] == s0.tables && Exec(es) == Some(s0);
    hide Exec;
    MapsFirst(t0, 0, LOW + PGSIZE);
    Go(es, s0, Map(1, LOW + PGSIZE, PGSIZE, f));
    es := es + [Map(1, LOW + PGSIZE, PGSIZE, f)];
    var t1 := t0.(slots := t0.slots[0 := OnePage(LOW + PGSIZE)], total := 1);
    var s1 := State(map[1 := t1], map[]);
    assert s0.tables[1 := t1] == s1.tables && Exec(es) == Some(s1);
    MapsFirst(t1, 1, LOW);
    Go(es, s1, Map(1, LOW, PGSIZE, f));
    es := es + [Map(1, LOW, PGSIZE, f)];
    var t2 := t1.(slots := t1.slots[1 := OnePage(LOW)], total := 2);
    var s2 := State(map[1 := t2], map[]);
    assert s1.tables[1 := t2] == s2.tables && Exec(es) == Some(s2);
    assert FindStart(t2.slots, LOW + PGSIZE, 0) == Some(0);
    Go(es, s2, Unmap(1, LOW + PGSIZE));
    es := es + [Unmap(1, LOW + PGSIZE)];
    var t3 := t0.(slots := t0.slots[1 := OnePage(LOW)], total := 1);
    assert t2.slots[0 := FREE] == t3.slots;
    assert s2.tables[1 := t3] == map[1 := t3];
  }

  lemma TwiceIsUntidy(t: Table)
    requires |t.slots| == SLOTS && t.slots[0] == t.slots[1] == OnePage(LOW)
    ensures !Tidy(t) && !Coherent(t)
  {
    assert Within(First(LOW), LOW, PGSIZE);
    assert First(LOW) in Range(LOW, PGSIZE);
    assert !Disjoint(t.slots[0], t.slots[1]);
  }

  /** The copy brings slot 1 in beside the child's own, and nothing else. */
  lemma TwiceRun(es: seq<Event>, s2: State, t: Table, c1: Table) returns (fs: seq<Event>, s: State)
    requires t == Fresh({}).(slots := Fresh({}).slots[1 := OnePage(LOW)], total := 1)
    requires c1 == Fresh({}).(slots := Fresh({}).slots[0 := OnePage(LOW)], total := 1)
    requires s2 == State(map[1 := t, 2 := c1], map[2 := Copying(1, 0)]) && Exec(es) == Some(s2)
    requires !ChildrenWait(es)
    ensures Exec(fs) == Some(s) && s.copies == map[] && 2 in s.tables && !ChildrenWait(fs)
    ensures s.tables[2] == c1.(slots := c1.slots[1 := OnePage(LOW)])
  {
    hide Exec, ChildrenWait;
    Go(es, s2, CopyNext(2, 0));
    fs := es + [CopyNext(2, 0)];
    var s3 := s2.(copies := map[2 := Copying(1, 1)]);
    assert s2.tables[2 := c1] == s3.tables && s2.copies[2 := Copying(1, 1)] == s3.copies;
    assert Exec(fs) == Some(s3);
    var c2 := c1.(slots := c1.slots[1 := OnePage(LOW)]);
    NothingThere(t, c1);
    Go(fs, s3, CopyNext(2, 0));
    fs := fs + [CopyNext(2, 0)];
    var s4 := State(map[1 := t, 2 := c2], map[2 := Copying(1, 2)]);
    assert s3.tables[2 := c2] == s4.tables && s3.copies[2 := Copying(1, 2)] == s4.copies;
    assert Exec(fs) == Some(s4);
    fs := SkipFree(fs, s4, 1, 2, 2);
    var s5 := s4.(copies := map[2 := Copying(1, SLOTS)]);
    Go(fs, s5, ForkDone(2));
    fs := fs + [ForkDone(2)];
    s := State(s4.tables, map[]);
    assert s5.copies - {2} == s.copies;
  }

  /** A mapping without pages goes over at once. */
  lemma NothingThere(t: Table, c: Table)
    requires |t.slots| == |c.slots| == SLOTS && t.pages == {} && t.slots[1] == OnePage(LOW)
    ensures CopySlot(t, c, 1, 0) == Done(c.(slots := c.slots[1 := t.slots[1]], total := t.total), 0)
  {
    NoPages(c, First(LOW), EndPage(t.slots[1]));
  }

  lemma {:induction false} NoPages(c: Table, k: nat, end: nat)
    ensures CopyPages({}, c, k, end, 0) == Done(c, 0)
    decreases end - k
  {
    if k < end { NoPages(c, k + 1, end); }
  }

  /** A child that maps before its parent's mappings are in can end with two slots on the same page
  and a wrong total: it has mapped the page in slot 0 when the parent's slot 1 brings it again. */
  lemma EarlyMapRun() returns (es: seq<Event>, s: State)
    ensures Exec(es) == Some(s) && s.copies == map[] && 2 in s.tables && !ChildrenWait(es)
    ensures var t := s.tables[2];
      && |t.slots| == SLOTS && t.slots[0] == t.slots[1] == OnePage(LOW) && t.total == 1
      && !Coherent(t) && !Tidy(t)
  {
    var t0, f := Fresh({}), MAP_FIXED + MAP_SHARED;
    es := ParentRun();
    var t := t0.(slots := t0.slots[1 := OnePage(LOW)], total := 1);
    hide Exec, ChildrenWait;
    Go(es, State(map[1 := t], map[]), ForkStart(1, 2, {}));
    es := es + [ForkStart(1, 2, {})];
    var s1 := State(map[1 := t, 2 := t0], map[2 := Copying(1, 0)]);
    assert map[1 := t][2 := t0] == s1.tables && map[][2 := Copying(1, 0)] == s1.copies;
    assert Exec(es) == Some(s1);
    MapsFirst(t0, 0, LOW);
    var early := Map(2, LOW, PGSIZE, f);
    Go(es, s1, early);
    es := es + [early];
    var c1 := t0.(slots := t0.slots[0 := OnePage(LOW)], total := 1);
    var s2 := State(map[1 := t, 2 := c1], map[2 := Copying(1, 0)]);
    assert s1.tables[2 := c1] == s2.tables && Exec(es) == Some(s2);
    es, s := TwiceRun(es, s2, t, c1);
    TwiceIsUntidy(s.tables[2]);
  }
}
