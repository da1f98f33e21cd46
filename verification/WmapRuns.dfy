/** Processes that map, touch, unmap, fork and exit, in any order. */
module WmapRuns {
  import opened Common
  import opened Wmap
  import opened WmapFork

  // ---------- exit ----------

  /** The loop of `exit` over the slots from `i` on. */
  function ExitFrom(t: Table, i: nat): (u: Table)
    requires |t.slots| == SLOTS && i <= SLOTS
    ensures |u.slots| == SLOTS
    decreases SLOTS - i
  {
    if i == SLOTS then t
    else if t.slots[i].Free() then ExitFrom(t, i + 1)
    else match RemoveMapping(t, t.slots[i].addr)
      case None => ExitFrom(t, i + 1)
      case Some(u) => ExitFrom(u, i + 1)
  }

  lemma {:induction false} ExitClears(t: Table, i: nat)
    requires Coherent(t) && i <= SLOTS && forall j | 0 <= j < i :: t.slots[j].Free()
    ensures var u := ExitFrom(t, i); Coherent(u) && u.pages == {} && u.total == 0
    decreases SLOTS - i
  {
    if i == SLOTS {
      LiveBound(t.slots);
      assert forall k :: !Covered(t.slots, k);
      assert t.pages == {};
    } else if t.slots[i].Free() {
      ExitClears(t, i + 1);
    } else {
      ExitStep(t, i);
      ExitClears(DropMapping(t, i), i + 1);
    }
  }

  /** The mapping found at the address is that of slot `i`: the slots before it are free, or the
  address is in the window. */
  lemma ExitStep(t: Table, i: nat)
    requires Coherent(t) && i < SLOTS && !t.slots[i].Free()
    requires t.slots[i].addr < TOP || forall j | 0 <= j < i :: t.slots[j].Free()
    ensures RemoveMapping(t, t.slots[i].addr) == Some(DropMapping(t, i)) && Coherent(DropMapping(t, i))
  {
    LiveBound(t.slots);
    UnmapCoherent(t, i);
    var f := FindStart(t.slots, t.slots[i].addr, 0);
    if t.slots[i].addr < TOP && f.value != i {
      StartsDiffer(t, i, f.value);
    }
  }

  // ---------- runs ----------

  /** `fork` makes the child runnable before `copyWmap` starts: `ForkStart`, a `CopyNext` for every
  slot, each with the page-table pages that can be had then, and `ForkDone`, with events of the child
  in between. */
  datatype Event =
    | New(p: nat, dirs: set<nat>)
    | Map(p: nat, addr: nat, length: int, flags: int)
    | Touch(p: nat, va: nat)
    | Unmap(p: nat, addr: nat)
    | Exit(p: nat)
    | ForkStart(p: nat, child: nat, dirs: set<nat>)
    | CopyNext(p: nat, room: nat)
    | ForkDone(p: nat)

  /** A copy from `parent` has come to slot `next`. */
  datatype Copying = Copying(parent: nat, next: nat)

  /** `copies` holds the children that have not got all their mappings yet. */
  datatype State = State(tables: map<nat, Table>, copies: map<nat, Copying>)

  /** `sys_wmap`; on failure nothing changes. */
  function SysWmap(t: Table, addr: nat, length: int, flags: int): Option<Table> {
    if Accepted(addr, length) && Has(flags, MAP_FIXED) && Has(flags, MAP_SHARED)
    then AddMapping(t, addr, length) else None
  }

  function SysWunmap(t: Table, addr: nat): Option<Table> {
    if LOW <= addr <= TOP then RemoveMapping(t, addr) else None
  }

  function Or(o: Option<Table>, t: Table): Table {
    match o case Some(u) => u case None => t
  }

  function Answer(o: Outcome, t: Table): Table {
    if o.Loaded? then o.t else t
  }

  /** Process `p` is inside `fork`, copying. */
  predicate Forking(s: State, p: nat) {
    exists c :: c in s.copies && s.copies[c].parent == p
  }

  /** Process `p` runs in user mode or makes a call. */
  predicate Acts(s: State, p: nat) {
    p in s.tables && !Forking(s, p)
  }

  function Put(s: State, p: nat, t: Table): State {
    s.(tables := s.tables[p := t])
  }

  function CopyStep(s: State, c: nat, room: nat): Option<State>
    requires c in s.copies
  {
    var Copying(p, i) := s.copies[c];
    if p !in s.tables || c !in s.tables || i >= SLOTS
       || |s.tables[p].slots| != SLOTS || |s.tables[c].slots| != SLOTS then None else
    match CopySlot(s.tables[p], s.tables[c], i, room)
    case Done(d, _) => Some(Put(s, c, d).(copies := s.copies[c := Copying(p, i + 1)]))
    case NoMemory(_) => Some(State(s.tables - {c}, s.copies - {c}))
    case Remap => None
  }

  /** The hardware faults on `va` only when its page is not there. Arguments are 32-bit numbers. A
  panic is no step. */
  function Step(s: State, e: Event): Option<State> {
    match e
    case New(p, dirs) => if p !in s.tables then Some(Put(s, p, Fresh(dirs))) else None
    case Map(p, addr, length, flags) =>
      if Acts(s, p) && addr < WORD && -(WORD / 2) <= length < WORD / 2
      then Some(Put(s, p, Or(SysWmap(s.tables[p], addr, length, flags), s.tables[p]))) else None
    case Touch(p, va) =>
      if Acts(s, p) && LOW <= va < TOP && va / PGSIZE !in s.tables[p].pages
      then Some(Put(s, p, Answer(Fault(s.tables[p], va), s.tables[p]))) else None
    case Unmap(p, addr) =>
      if Acts(s, p) then Some(Put(s, p, Or(SysWunmap(s.tables[p], addr), s.tables[p]))) else None
    case Exit(p) =>
      if Acts(s, p) && |s.tables[p].slots| == SLOTS
      then Some(Put(s, p, ExitFrom(s.tables[p], 0))) else None
    case ForkStart(p, c, dirs) =>
      if Acts(s, p) && c !in s.tables
      then Some(Put(s, c, Fresh(dirs)).(copies := s.copies[c := Copying(p, 0)])) else None
    case CopyNext(c, room) => if c in s.copies then CopyStep(s, c, room) else None
    case ForkDone(c) =>
      if c in s.copies && s.copies[c].next == SLOTS then Some(s.(copies := s.copies - {c})) else None
  }

  function Exec(es: seq<Event>): Option<State>
    decreases |es|
  {
    if es == [] then Some(State(map[], map[])) else
    match Exec(es[..|es| - 1])
    case None => None
    case Some(s) => Step(s, es[|es| - 1])
  }

  /** A child calls none of wmap, wunmap, fork and exit before it has got all its mappings. */
  predicate Waits(s: State, e: Event) {
    e.Map? || e.Unmap? || e.Exit? || e.ForkStart? ==> e.p !in s.copies
  }

  predicate ChildrenWait(es: seq<Event>)
    decreases |es|
  {
    es == [] ||
    (ChildrenWait(es[..|es| - 1]) &&
     (Exec(es[..|es| - 1]).Some? ==> Waits(Exec(es[..|es| - 1]).value, es[|es| - 1])))
  }

  const LASTPAGE: nat := 0x7_ffff

  predicate Good(t: Table) {
    Coherent(t) && LASTPAGE !in t.pages
  }

  ghost predicate ChildOk(s: State, c: nat)
    requires c in s.copies
  {
    var Copying(p, i) := s.copies[c];
    && c in s.tables && p in s.tables && p !in s.copies
    && Half(s.tables[p], s.tables[c], i) && LASTPAGE !in s.tables[c].pages
  }

  /** Every table is coherent, and that of a child in the making half done. */
  ghost predicate AllGood(s: State) {
    && (forall p | p in s.tables && p !in s.copies :: Good(s.tables[p]))
    && (forall c | c in s.copies :: ChildOk(s, c))
  }

  lemma FreshGood(dirs: set<nat>)
    ensures Good(Fresh(dirs))
  {
    LiveBound(Fresh(dirs).slots);
  }

  lemma MapGood(t: Table, addr: nat, length: int, flags: int)
    requires Good(t) && addr < WORD && length < WORD / 2
    ensures Good(Or(SysWmap(t, addr, length, flags), t))
  {
    AcceptedIff(addr, length);
    if Accepted(addr, length) {
      WmapCoherent(t, addr, length);
    }
  }

  lemma TouchGood(t: Table, va: nat)
    requires Good(t) && LOW <= va < TOP && va / PGSIZE !in t.pages
    ensures Good(Answer(Fault(t, va), t))
  {
    FaultCoherent(t, va);
  }

  lemma UnmapGood(t: Table, addr: nat)
    requires Good(t)
    ensures Good(Or(SysWunmap(t, addr), t))
  {
    WunmapCoherent(t, addr);
  }

  lemma ExitGood(t: Table)
    requires Good(t)
    ensures Good(ExitFrom(t, 0))
  {
    ExitClears(t, 0);
  }

  /** A process that is no child in the making changes its own table. */
  lemma PutGood(s: State, p: nat, t: Table)
    requires AllGood(s) && p !in s.copies && !Forking(s, p) && Good(t)
    ensures AllGood(Put(s, p, t))
  {
    hide Good, Half;
    var s' := Put(s, p, t);
    forall c | c in s'.copies ensures ChildOk(s', c) {
      assert ChildOk(s, c);
    }
  }

  /** The table of child `c` in the making changes, and perhaps how far the copy has come. */
  lemma PutHalf(s: State, c: nat, d: Table, i: nat)
    requires AllGood(s) && c in s.copies && LASTPAGE !in d.pages
    requires Half(s.tables[s.copies[c].parent], d, i)
    ensures AllGood(Put(s, c, d).(copies := s.copies[c := s.copies[c].(next := i)]))
  {
    hide Good, Half;
    var s' := Put(s, c, d).(copies := s.copies[c := s.copies[c].(next := i)]);
    assert ChildOk(s, c);
    forall x | x in s'.copies ensures ChildOk(s', x) {
      assert ChildOk(s, x);
    }
  }

  lemma ChildTouches(s: State, c: nat, va: nat)
    requires AllGood(s) && c in s.copies && LOW <= va < TOP && va / PGSIZE !in s.tables[c].pages
    ensures AllGood(Put(s, c, Answer(Fault(s.tables[c], va), s.tables[c])))
  {
    hide Good, Half;
    assert ChildOk(s, c);
    var Copying(p, i) := s.copies[c];
    var t := s.tables[c];
    if Fault(t, va).Loaded? {
      HalfTouch(s.tables[p], t, i, va);
    }
    hide Fault;
    PutHalf(s, c, Answer(Fault(t, va), t), i);
    assert s.copies[c := s.copies[c].(next := i)] == s.copies;
  }

  lemma ForkStartGood(s: State, p: nat, c: nat, dirs: set<nat>)
    requires AllGood(s) && Acts(s, p) && p !in s.copies && c !in s.tables
    ensures AllGood(Put(s, c, Fresh(dirs)).(copies := s.copies[c := Copying(p, 0)]))
  {
    var s' := Put(s, c, Fresh(dirs)).(copies := s.copies[c := Copying(p, 0)]);
    assert Good(s.tables[p]);
    HalfStart(s.tables[p], dirs);
    hide Good, Half;
    forall x | x in s'.copies ensures ChildOk(s', x) {
      if x != c { assert ChildOk(s, x); }
    }
  }

  lemma CopyGood(s: State, c: nat, room: nat)
    requires AllGood(s) && c in s.copies && CopyStep(s, c, room).Some?
    ensures AllGood(CopyStep(s, c, room).value)
  {
    var Copying(p, i) := s.copies[c];
    assert ChildOk(s, c) && Good(s.tables[p]);
    HalfCopy(s.tables[p], s.tables[c], i, room);
    var r := CopySlot(s.tables[p], s.tables[c], i, room);
    hide Good, Half, CopySlot;
    if r.Done? {
      PutHalf(s, c, r.c, i + 1);
    } else {
      DropGood(s, c);
    }
  }

  lemma DropGood(s: State, c: nat)
    requires AllGood(s) && c in s.copies
    ensures AllGood(State(s.tables - {c}, s.copies - {c}))
  {
    hide Good, Half;
    var s' := State(s.tables - {c}, s.copies - {c});
    forall x | x in s'.copies ensures ChildOk(s', x) {
      assert ChildOk(s, x);
    }
  }

  /** When the copy is through, the child's table is coherent. */
  lemma DoneGood(s: State, c: nat)
    requires AllGood(s) && c in s.copies && s.copies[c].next == SLOTS
    ensures AllGood(s.(copies := s.copies - {c}))
  {
    var s' := s.(copies := s.copies - {c});
    assert ChildOk(s, c) && Good(s.tables[s.copies[c].parent]);
    HalfDone(s.tables[s.copies[c].parent], s.tables[c]);
    assert Good(s.tables[c]);
    hide Good, Half;
    forall x | x in s'.copies ensures ChildOk(s', x) {
      assert ChildOk(s, x);
    }
  }

  lemma StepGood(s: State, e: Event)
    requires AllGood(s) && Waits(s, e) && Step(s, e).Some?
    ensures AllGood(Step(s, e).value)
  {
    if e.p in s.tables && e.p !in s.copies { assert Good(s.tables[e.p]); }
    hide AllGood, Good, ExitFrom, Fault, SysWmap, SysWunmap, Fresh, CopyStep, Forking;
    match e
    case New(p, dirs) => FreshGood(dirs); NewGood(s, p, Fresh(dirs));
    case Map(p, addr, length, flags) =>
      MapGood(s.tables[p], addr, length, flags);
      PutGood(s, p, Or(SysWmap(s.tables[p], addr, length, flags), s.tables[p]));
    case Touch(p, va) =>
      if p in s.copies {
        ChildTouches(s, p, va);
      } else {
        TouchGood(s.tables[p], va);
        PutGood(s, p, Answer(Fault(s.tables[p], va), s.tables[p]));
      }
    case Unmap(p, addr) =>
      UnmapGood(s.tables[p], addr);
      PutGood(s, p, Or(SysWunmap(s.tables[p], addr), s.tables[p]));
    case Exit(p) =>
      ExitGood(s.tables[p]);
      PutGood(s, p, ExitFrom(s.tables[p], 0));
    case ForkStart(p, c, dirs) => ForkStartGood(s, p, c, dirs);
    case CopyNext(c, room) => CopyGood(s, c, room);
    case ForkDone(c) => DoneGood(s, c);
  }

  lemma NewGood(s: State, p: nat, t: Table)
    requires AllGood(s) && p !in s.tables && Good(t)
    ensures AllGood(Put(s, p, t))
  {
    forall c | c in s.copies ensures s.copies[c].parent != p && c != p {
      assert ChildOk(s, c);
    }
    PutGood(s, p, t);
  }

  lemma {:induction false} RunGood(es: seq<Event>)
    requires Exec(es).Some? && ChildrenWait(es)
    ensures AllGood(Exec(es).value)
    decreases |es|
  {
    hide AllGood, Step, Waits;
    if es == [] {
      NoneGood();
    } else {
      RunGood(es[..|es| - 1]);
      StepGood(Exec(es[..|es| - 1]).value, es[|es| - 1]);
    }
  }

  lemma NoneGood()
    ensures AllGood(State(map[], map[]))
  {
  }

  /** In every run in which children wait for their mappings, the table of every process that has got
  all of them is coherent, and the last page of the window is never present. */
  lemma TablesStayCoherent(es: seq<Event>, p: nat)
    requires Exec(es).Some? && ChildrenWait(es)
    requires p in Exec(es).value.tables && p !in Exec(es).value.copies
    ensures Coherent(Exec(es).value.tables[p]) && LASTPAGE !in Exec(es).value.tables[p].pages
  {
    RunGood(es);
  }

  /** In the same runs a child that has just got its last mapping has the parent's mappings, in the
  same slots, and all the parent's pages. */
  lemma ForkGivesAll(es: seq<Event>, c: nat)
    requires Exec(es).Some? && ChildrenWait(es)
    requires c in Exec(es).value.copies && Exec(es).value.copies[c].next == SLOTS
    ensures var s := Exec(es).value;
      && c in s.tables && s.copies[c].parent in s.tables
      && var (t, u) := (s.tables[s.copies[c].parent], s.tables[c]);
      && Coherent(u) && |t.slots| == |u.slots| == SLOTS && u.total == t.total && t.pages <= u.pages
      && forall j | 0 <= j < SLOTS :: SameMapping(t.slots[j], u.slots[j])
  {
    RunGood(es);
    var s := Exec(es).value;
    hide Exec;
    assert ChildOk(s, c) && Good(s.tables[s.copies[c].parent]);
    HalfDone(s.tables[s.copies[c].parent], s.tables[c]);
  }

  /** The table of a process, coherent but for the total of a child in the making. */
  lemma TableTidy(es: seq<Event>, p: nat)
    requires Exec(es).Some? && ChildrenWait(es) && p in Exec(es).value.tables
    ensures var (s, t) := (Exec(es).value, Exec(es).value.tables[p]);
      Parts(t) && (p !in s.copies ==> t.total == Live(t.slots))
  {
    RunGood(es);
    var s := Exec(es).value;
    hide Exec;
    if p in s.copies { assert ChildOk(s, p); } else { assert Good(s.tables[p]); }
    TidyIs(s.tables[p]);
    TidyTotal(s.tables[p]);
  }

  /** In every run in which children wait, two live mappings in the window share no page, the total
  counts the live slots once the process has all its mappings, and each counter the present pages of
  its mapping. */
  lemma SlotsShareNoPage(es: seq<Event>, p: nat, i: nat, j: nat, k: nat)
    requires Exec(es).Some? && ChildrenWait(es) && p in Exec(es).value.tables && i < j < SLOTS
    ensures var (s, t) := (Exec(es).value, Exec(es).value.tables[p]);
      && |t.slots| == SLOTS && (p !in s.copies ==> t.total == Live(t.slots))
      && !(Covers(t.slots[i], k) && Covers(t.slots[j], k))
      && (InWindow(t.slots[i].addr, t.slots[i].length) ==>
            t.slots[i].loaded == |t.pages * Range(t.slots[i].addr, t.slots[i].length)|)
  {
    TableTidy(es, p);
    var t := Exec(es).value.tables[p];
    assert SlotOk(t, i);
    assert Disjoint(t.slots[i], t.slots[j]);
  }

  predicate SlotWraps(s: Slot) { Wraps(s.addr, s.length) }

  /** In the same runs two live mappings have a byte in common exactly when both wrap past 2^32, or
  one does and comes round past the start of the other: the overlap test keeps all others apart. */
  lemma SlotsShareByteIff(es: seq<Event>, p: nat, i: nat, j: nat)
    requires Exec(es).Some? && ChildrenWait(es) && p in Exec(es).value.tables && i < j < SLOTS
    requires |Exec(es).value.tables[p].slots| == SLOTS
    requires !Exec(es).value.tables[p].slots[i].Free() && !Exec(es).value.tables[p].slots[j].Free()
    ensures var a, b := Exec(es).value.tables[p].slots[i], Exec(es).value.tables[p].slots[j];
      ShareByte(a.addr, a.length, b.addr, b.length) <==>
        || (SlotWraps(a) && SlotWraps(b))
        || (SlotWraps(a) && WrapsInto(a.addr, a.length, b.addr))
        || (SlotWraps(b) && WrapsInto(b.addr, b.length, a.addr))
  {
    TableTidy(es, p);
    var t := Exec(es).value.tables[p];
    assert SlotOk(t, i) && SlotOk(t, j) && Disjoint(t.slots[i], t.slots[j]);
    hide Exec, Parts, Range, ShareByte;
    PairShareIff(t.slots[i], t.slots[j]);
  }

  lemma PairShareIff(a: Slot, b: Slot)
    requires InWindow(a.addr, a.length) || SlotWraps(a)
    requires InWindow(b.addr, b.length) || SlotWraps(b)
    requires Disjoint(a, b)
    ensures ShareByte(a.addr, a.length, b.addr, b.length) <==>
      || (SlotWraps(a) && SlotWraps(b))
      || (SlotWraps(a) && WrapsInto(a.addr, a.length, b.addr))
      || (SlotWraps(b) && WrapsInto(b.addr, b.length, a.addr))
  {
    ShareByteIff(a.addr, a.length, b.addr, b.length);
    hide ShareByte, Range;
    if !SlotWraps(a) && !SlotWraps(b) {
      ByteTestIsPageTest(a.addr, a.length, b.addr, b.length);
    }
  }

  /** `wunmap` in such a run leaves no page of the mapping present, loaded or not. */
  lemma UnmappedIsGone(es: seq<Event>, p: nat, i: nat, k: nat)
    requires Exec(es).Some? && ChildrenWait(es)
    requires p in Exec(es).value.tables && p !in Exec(es).value.copies
    requires i < SLOTS && |Exec(es).value.tables[p].slots| == SLOTS
    requires Covers(Exec(es).value.tables[p].slots[i], k)
    ensures var t := Exec(es).value.tables[p];
      && SysWunmap(t, t.slots[i].addr).Some?
      && k !in SysWunmap(t, t.slots[i].addr).value.pages
  {
    TablesStayCoherent(es, p);
    var t := Exec(es).value.tables[p];
    assert SlotOk(t, i);
    ExitStep(t, i);
    UnmapCoherent(t, i);
  }

  /** A mapping that wraps stays until its process exits: `sys_wunmap` refuses its address, and no
  fault is ever answered by it. */
  lemma WrappedStays(t: Table, i: nat, va: nat)
    requires Coherent(t) && i < SLOTS && SlotWraps(t.slots[i]) && LOW <= va < TOP
    ensures SysWunmap(t, t.slots[i].addr).None? && !Clashes(t.slots[i], va, 1)
  {
    assert SlotOk(t, i);
    ClashIsByte(t, i, va);
  }

  // ---------- requests past the window ----------

  /** The same mapping can be made twice when its end wraps. */
  lemma WrappedMappingTwice(dirs: set<nat>)
    ensures var a, n, f := 0xffff_f000, 0x2000, MAP_FIXED + MAP_SHARED;
      var t := SysWmap(Fresh(dirs), a, n, f);
      && t.Some? && SysWmap(t.value, a, n, f).Some?
      && var u := SysWmap(t.value, a, n, f).value;
         u.slots[0] == u.slots[1] == Slot(a, n, 0) && u.total == 2
  {
    var t := Fresh(dirs);
    var u := SysWmap(t, 0xffff_f000, 0x2000, MAP_FIXED + MAP_SHARED).value;
    assert FirstFree(t.slots, 0) == Some(0);
    assert u.slots == t.slots[0 := Slot(0xffff_f000, 0x2000, 0)];
    assert FirstFree(u.slots, 0) == FirstFree(u.slots, 1) == Some(1);
  }

  /** A fault on the last page of a mapping that reaches the window's end kills the process. */
  lemma LastPageKills(t: Table, va: nat)
    requires Coherent(t) && |t.slots| == SLOTS && LASTPAGE * PGSIZE <= va < TOP
    ensures Fault(t, va).Killed? <==>
      exists i: nat :: i < SLOTS && Holds(t.slots[i], va)
  {
    assert va / PGSIZE == LASTPAGE;
    forall i: nat | i < SLOTS ensures Clashes(t.slots[i], va, 1) <==> Holds(t.slots[i], va) {
      ClashIsByte(t, i, va);
    }
    hide Coherent, Clashes, Holds;
    var f := FindSlot(t.slots, va, 0);
    assert f.Some? <==> exists i: nat :: i < SLOTS && Holds(t.slots[i], va);
  }
}
