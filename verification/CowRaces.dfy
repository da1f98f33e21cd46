/** The copy-on-write kernel on several processors (`vm.c`): page faults, forks and `sbrk` of
different processes interleave between any two accesses to a page table, a frame or a count.

A process inside the fault handler, `fork` or `sbrk` is at the place its `work` names; a child
under construction has an entry of its own. Only processes without work run in user mode. */
module CowRaces {
  import opened Cow

  /** Where a process is inside the kernel. `m` is a frame it has taken and not mapped yet. */
  datatype Work =
    | Looked(page: nat)                // saw a count above 1
    | Sole(page: nat)                  // saw a count of 1
    | Taken(page: nat, m: nat)         // kalloc
    | Copied(page: nat, m: nat)        // memmove
    | Lowered(page: nat, m: nat)       // dec_count
    | Cleared(page: nat, m: nat)       // *pte = 0, or the zeroed frame of a new page
    | Placed(page: nat, m: nat)        // mappages; set_count is to come
    | Forking(child: nat)
    | Building(parent: nat, pages: nat, page: nat, stage: Stage)   // a child's page table
    | Undoing(parent: nat)             // freevm of a child after a failure
  {
    predicate Reserves() {
      Taken? || Copied? || Lowered? || Cleared?
    }
  }

  /** A round of `copyuvm`: mark the parent's entry, map the child's page, raise the count. */
  datatype Stage = Mark | Map | Count

  datatype Kernel = Kernel(live: set<nat>, pt: map<Slot, Pte>, mem: map<nat, Page>,
                           count: map<nat, nat>, free: seq<nat>, kernel: set<nat>,
                           work: map<nat, Work>)

  datatype Event =
    | Store(x: Slot, off: nat, b: nat)   // a store through a writable entry
    | Fault(x: Slot)                     // the checks of handle_cow_fault and get_count
    | OpenSole(x: Slot)                  // count was 1: the entry becomes writable
    | TakeFrame(x: Slot)
    | NoFrame(x: Slot)                   // kalloc fails and so does the fault
    | CopyFrame(x: Slot)
    | LowerCount(x: Slot)
    | ClearEntry(x: Slot)
    | MapCopy(x: Slot)
    | SetCount(x: Slot)
    | Grow(x: Slot)                      // allocuvm: kalloc and memset
    | Fork(parent: nat, child: nat, pages: nat)
    | MarkPage(parent: nat, child: nat, page: nat)
    | SharePage(parent: nat, child: nat, page: nat)
    | CountPage(parent: nat, child: nat, page: nat)
    | ForkDone(parent: nat, child: nat)
    | GiveUp(parent: nat, child: nat)    // mappages fails
    | Unmap(x: Slot)                     // deallocuvm: sbrk, wait, or freevm of a failed child
    | Gone(pid: nat)                     // the last of a reaped process, or of a failed child
    | KernelAlloc(contents: Page)
    | KernelFree(f: nat)

  // ---------- places ----------

  predicate Idle(s: Kernel, pid: nat) {
    pid in s.live && pid !in s.work
  }

  predicate At(s: Kernel, x: Slot, w: Work) {
    x.pid in s.work && s.work[x.pid] == w
  }

  /** `pid` builds page `page` of a child of `parent`. */
  predicate Builds(s: Kernel, parent: nat, child: nat, page: nat, stage: Stage) {
    && child in s.work && s.work[child].Building? && s.work[child].parent == parent
    && s.work[child].page == page && s.work[child].stage == stage
  }

  /** The entry of a page whose count has been lowered, not yet cleared. */
  predicate IsLowered(work: map<nat, Work>, x: Slot) {
    x.pid in work && work[x.pid].Lowered? && work[x.pid].page == x.page
  }

  /** A mapping the count has not caught up with. */
  predicate IsUncounted(work: map<nat, Work>, x: Slot) {
    && x.pid in work
    && (|| (work[x.pid].Placed? && work[x.pid].page == x.page)
        || (work[x.pid].Building? && work[x.pid].stage == Count && work[x.pid].page == x.page))
  }

  predicate Counted(work: map<nat, Work>, x: Slot) {
    !IsLowered(work, x) && !IsUncounted(work, x)
  }

  // ---------- steps ----------

  /** Whether an event can happen now. A refused fault and a panic are no events. */
  predicate Enabled(s: Kernel, e: Event) {
    match e
    case Store(x, off, b) => Idle(s, x.pid) && Present(s, x) && s.pt[x].w && s.pt[x].u
    case Fault(x) =>
      Idle(s, x.pid) && Present(s, x) && s.pt[x].u && s.pt[x].cow && s.count[s.pt[x].frame] >= 1
    case OpenSole(x) => Present(s, x) && At(s, x, Sole(x.page))
    case TakeFrame(x) => At(s, x, Looked(x.page)) && s.free != []
    case NoFrame(x) => At(s, x, Looked(x.page)) && s.free == []
    case CopyFrame(x) => Present(s, x) && HasFrame(s, x) && s.work[x.pid].Taken?
    case LowerCount(x) => Present(s, x) && HasFrame(s, x) && s.work[x.pid].Copied?
    case ClearEntry(x) => HasFrame(s, x) && s.work[x.pid].Lowered?
    case MapCopy(x) => HasFrame(s, x) && s.work[x.pid].Cleared?
    case SetCount(x) => x.pid in s.work && s.work[x.pid].Placed? && s.work[x.pid].page == x.page
    case Grow(x) => Idle(s, x.pid) && x !in s.pt && s.free != []
    case Fork(parent, child, pages) => Idle(s, parent) && child !in s.live && |s.live| < NPROC
    case MarkPage(parent, child, page) =>
      && Builds(s, parent, child, page, Mark) && page < s.work[child].pages
      && Slot(parent, page) in s.pt
    case SharePage(parent, child, page) =>
      Builds(s, parent, child, page, Map) && Slot(parent, page) in s.pt
    case CountPage(parent, child, page) =>
      Builds(s, parent, child, page, Count) && Present(s, Slot(child, page))
    case ForkDone(parent, child) =>
      && child in s.work && s.work[child].Building?
      && Builds(s, parent, child, s.work[child].pages, Mark)
    case GiveUp(parent, child) =>
      child in s.work && s.work[child].Building? && Builds(s, parent, child, s.work[child].page, Map)
    case Unmap(x) =>
      Present(s, x) && (Idle(s, x.pid) || (x.pid in s.work && s.work[x.pid].Undoing?))
    case Gone(pid) =>
      && (Idle(s, pid) || (pid in s.work && s.work[pid].Undoing?))
      && forall x | x in s.pt :: x.pid != pid
    case KernelAlloc(_) => s.free != []
    case KernelFree(f) => f in s.kernel
  }

  predicate Present(s: Kernel, x: Slot) {
    x in s.pt && s.pt[x].frame in s.mem && s.pt[x].frame in s.count
  }

  /** `x` is the page the process is at, and a frame is put by for it. */
  predicate HasFrame(s: Kernel, x: Slot) {
    x.pid in s.work && s.work[x.pid].Reserves() && s.work[x.pid].page == x.page
  }

  /** The entry of a page of one's own. */
  function Own(m: nat): Pte {
    Pte(m, true, true, false)
  }

  function Step(s: Kernel, e: Event): Kernel
    requires Enabled(s, e)
  {
    match e
    case Store(x, off, b) =>
      s.(mem := s.mem[s.pt[x].frame := PutByte(s.mem[s.pt[x].frame], off, b)])
    case Fault(x) =>
      s.(work := s.work[x.pid := if s.count[s.pt[x].frame] == 1 then Sole(x.page) else Looked(x.page)])
    case OpenSole(x) =>
      s.(pt := s.pt[x := s.pt[x].(w := true, cow := false)], work := s.work - {x.pid})
    case TakeFrame(x) =>
      s.(free := s.free[1..], work := s.work[x.pid := Taken(x.page, s.free[0])])
    case NoFrame(x) => s.(work := s.work - {x.pid})
    case CopyFrame(x) =>
      var m := s.work[x.pid].m;
      s.(mem := s.mem[m := s.mem[s.pt[x].frame]], work := s.work[x.pid := Copied(x.page, m)])
    case LowerCount(x) =>
      var f := s.pt[x].frame;
      s.(count := s.count[f := Dec(s.count[f])],
         work := s.work[x.pid := Lowered(x.page, s.work[x.pid].m)])
    case ClearEntry(x) =>
      s.(pt := s.pt - {x}, work := s.work[x.pid := Cleared(x.page, s.work[x.pid].m)])
    case MapCopy(x) =>
      var m := s.work[x.pid].m;
      s.(pt := s.pt[x := Own(m)], work := s.work[x.pid := Placed(x.page, m)])
    case SetCount(x) => s.(count := s.count[s.work[x.pid].m := 1], work := s.work - {x.pid})
    case Grow(x) =>
      var m := s.free[0];
      s.(mem := s.mem[m := Filled(0)], free := s.free[1..],
         work := s.work[x.pid := Cleared(x.page, m)])
    case Fork(parent, child, pages) =>
      s.(live := s.live + {child},
         work := s.work[parent := Forking(child)][child := Building(parent, pages, 0, Mark)])
    case MarkPage(parent, child, page) =>
      var x := Slot(parent, page);
      s.(pt := s.pt[x := Share(s.pt[x])], work := s.work[child := s.work[child].(stage := Map)])
    case SharePage(parent, child, page) =>
      s.(pt := s.pt[Slot(child, page) := s.pt[Slot(parent, page)]],
         work := s.work[child := s.work[child].(stage := Count)])
    case CountPage(parent, child, page) =>
      var f := s.pt[Slot(child, page)].frame;
      s.(count := s.count[f := Inc(s.count[f])],
         work := s.work[child := s.work[child].(page := page + 1, stage := Mark)])
    case ForkDone(parent, child) => s.(work := s.work - {parent, child})
    case GiveUp(parent, child) => s.(work := s.work[child := Undoing(parent)])
    case Unmap(x) =>
      var f := s.pt[x].frame;
      var s' := s.(pt := s.pt - {x});
      if s.count[f] > 0 then s' else s'.(mem := s.mem[f := Filled(1)], free := [f] + s.free)
    case Gone(pid) =>
      s.(live := s.live - {pid},
         work := if pid in s.work && s.work[pid].Undoing? then s.work - {pid, s.work[pid].parent}
                 else s.work)
    case KernelAlloc(contents) =>
      var f := s.free[0];
      s.(mem := s.mem[f := contents], free := s.free[1..], kernel := s.kernel + {f})
    case KernelFree(f) =>
      s.(mem := s.mem[f := Filled(1)], free := [f] + s.free, kernel := s.kernel - {f})
  }

  // ---------- the invariant ----------

  /** The mappings of `f` that its count has to cover. */
  function Held(s: Kernel, f: nat): set<Slot> {
    set x | x in s.pt && s.pt[x].frame == f && Counted(s.work, x)
  }

  ghost predicate Unmapped(s: Kernel, f: nat) {
    forall x | x in s.pt :: s.pt[x].frame != f
  }

  ghost predicate Spare(s: Kernel, f: nat) {
    f in s.mem && f in s.count && s.count[f] == 0 && Unmapped(s, f)
  }

  /** A frame that belongs to one process and is on neither list. */
  ghost predicate Apart(s: Kernel, pid: nat, m: nat) {
    && m !in s.free && m !in s.kernel
    && forall q | q in s.work && q != pid && (s.work[q].Reserves() || s.work[q].Placed?) ::
         s.work[q].m != m
  }

  /** Nobody else will use the frame of `x` again. */
  ghost predicate Alone(s: Kernel, x: Slot)
    requires x in s.pt
  {
    forall y | y in s.pt && y != x && s.pt[y].frame == s.pt[x].frame :: IsLowered(s.work, y)
  }

  ghost predicate EntryFine(s: Kernel, x: Slot)
    requires x in s.pt
  {
    && s.pt[x].frame in s.mem && x.pid in s.live
    && (s.pt[x].cow ==> s.pt[x].u && !s.pt[x].w)
    && (s.pt[x].w ==> Alone(s, x))
  }

  /** The entry of the page a process is at. */
  ghost predicate OwnOk(s: Kernel, pid: nat)
    requires pid in s.work
  {
    match s.work[pid]
    case Cleared(page, m) => Slot(pid, page) !in s.pt
    case Placed(page, m) => Slot(pid, page) in s.pt && s.pt[Slot(pid, page)] == Own(m)
    case Forking(_) => true
    case Building(_, _, _, _) => true
    case Undoing(_) => true
    case _ => var x := Slot(pid, s.work[pid].page); x in s.pt && s.pt[x].cow
  }

  /** The frame a process has put by. */
  ghost predicate ReserveOk(s: Kernel, pid: nat)
    requires pid in s.work
  {
    var w := s.work[pid];
    && (w.Reserves() ==> Spare(s, w.m) && Apart(s, pid, w.m))
    && (w.Placed? ==>
          && w.m in s.count && s.count[w.m] == 0 && Apart(s, pid, w.m)
          && forall y | y in s.pt && s.pt[y].frame == w.m :: y == Slot(pid, w.page))
  }

  /** Who saw a count of 1 shares with nobody, and a copy made is still a copy. */
  ghost predicate SeenOk(s: Kernel, pid: nat)
    requires pid in s.work && OwnOk(s, pid)
  {
    var w := s.work[pid];
    && (w.Sole? ==> Alone(s, Slot(pid, w.page)))
    && (w.Copied? ==> var f := s.pt[Slot(pid, w.page)].frame;
                      f in s.mem && w.m in s.mem && s.mem[w.m] == s.mem[f])
  }

  /** Parent and child of a fork in progress. */
  ghost predicate FamilyOk(s: Kernel, pid: nat)
    requires pid in s.work
  {
    match s.work[pid]
    case Forking(child) =>
      && child != pid && child in s.work
      && (s.work[child].Building? || s.work[child].Undoing?) && s.work[child].parent == pid
    case Undoing(parent) => parent in s.work && s.work[parent] == Forking(pid)
    case Building(parent, _, page, stage) =>
      && parent in s.work && s.work[parent] == Forking(pid)
      && (forall x | x in s.pt && x.pid == pid ::
            x.page < page || (x.page == page && stage == Count))
      && (stage != Mark ==> Slot(parent, page) in s.pt && !s.pt[Slot(parent, page)].w)
      && (stage == Count ==> Slot(pid, page) in s.pt
                             && s.pt[Slot(pid, page)].frame == s.pt[Slot(parent, page)].frame)
    case _ => true
  }

  ghost predicate WorkOk(s: Kernel, pid: nat)
    requires pid in s.work
  {
    pid in s.live && OwnOk(s, pid) && ReserveOk(s, pid) && SeenOk(s, pid) && FamilyOk(s, pid)
  }

  /** Processes that share a frame have it at the same page. */
  ghost predicate SamePage(pt: map<Slot, Pte>) {
    forall x, y | x in pt && y in pt && pt[x].frame == pt[y].frame :: x.page == y.page
  }

  ghost predicate FreeOk(s: Kernel) {
    && (forall i | 0 <= i < |s.free| :: Spare(s, s.free[i]) && s.free[i] !in s.kernel)
    && (forall i, j | 0 <= i < j < |s.free| :: s.free[i] != s.free[j])
    && (forall f | f in s.kernel :: Spare(s, f))
  }

  ghost predicate CountOk(s: Kernel) {
    && s.count.Keys == s.mem.Keys
    && forall f | f in s.count :: |Held(s, f)| <= s.count[f] <= 255
  }

  /** What concerns nobody's place in the kernel. */
  ghost predicate Tidy(s: Kernel) {
    && |s.live| <= NPROC && SamePage(s.pt) && FreeOk(s) && CountOk(s)
    && (forall x | x in s.pt :: EntryFine(s, x))
  }

  /** All places but those of the processes in `busy`. */
  ghost predicate Places(s: Kernel, busy: set<nat>) {
    forall p | p in s.work && p !in busy :: WorkOk(s, p)
  }

  ghost predicate Sound(s: Kernel) {
    Tidy(s) && Places(s, {})
  }

  // ---------- single updates ----------

  /** Contents change where no copy has just been made. */
  lemma PutMem(s: Kernel, busy: set<nat>, f: nat, page: Page)
    requires Tidy(s) && Places(s, busy) && f in s.mem
    requires forall q | q in s.work && q !in busy && s.work[q].Copied? ::
               s.work[q].m != f && Slot(q, s.work[q].page) in s.pt
               && s.pt[Slot(q, s.work[q].page)].frame != f
    ensures var s' := s.(mem := s.mem[f := page]); Tidy(s') && Places(s', busy)
  {
    var s' := s.(mem := s.mem[f := page]);
    assert Tidy(s') by { PutMemTidy(s, f, page); }
    hide Tidy;
    forall q | q in s'.work && q !in busy ensures WorkOk(s', q) {
      assert WorkOk(s, q);
      assert OwnOk(s', q);
      assert FamilyOk(s', q) by { hide OwnOk, ReserveOk, SeenOk; }
      assert ReserveOk(s', q) by { hide OwnOk, FamilyOk, SeenOk; }
      assert SeenOk(s', q) by { hide FamilyOk; }
      hide OwnOk, ReserveOk, SeenOk, FamilyOk;
    }
  }

  lemma PutMemTidy(s: Kernel, f: nat, page: Page)
    requires Tidy(s) && f in s.mem
    ensures Tidy(s.(mem := s.mem[f := page]))
  {
    var s' := s.(mem := s.mem[f := page]);
    assert CountOk(s') by { SameHeld(s, s'); }
    forall x | x in s'.pt ensures EntryFine(s', x) {
      assert EntryFine(s, x);
    }
    hide CountOk;
  }

  /** The count covers the counted mappings, whoever they are now. */
  lemma SameHeld(s: Kernel, s': Kernel)
    requires CountOk(s) && s'.count == s.count && s'.mem.Keys == s.mem.Keys
    requires s'.pt.Keys == s.pt.Keys
    requires forall x | x in s.pt :: s'.pt[x].frame == s.pt[x].frame
                                     && (Counted(s'.work, x) ==> Counted(s.work, x))
    ensures CountOk(s')
  {
    forall f | f in s.count ensures |Held(s', f)| <= |Held(s, f)| {
      Fewer(Held(s', f), Held(s, f));
    }
  }

  lemma Fewer<T>(a: set<T>, b: set<T>)
    requires a <= b
    ensures |a| <= |b|
  {
    assert b == a + (b - a);
  }

  /** Only the place of `p` differs. */
  ghost predicate OnlyWork(s: Kernel, p: nat, work: map<nat, Work>) {
    && (forall q | q != p :: q in work <==> q in s.work)
    && (forall q | q != p && q in work :: work[q] == s.work[q])
  }

  /** `w` names `p` as parent or child. */
  predicate About(w: Work, p: nat) {
    || (w.Forking? && w.child == p)
    || ((w.Building? || w.Undoing?) && w.parent == p)
  }

  /** Nobody outside `busy` forks with `p`. */
  ghost predicate Unrelated(s: Kernel, busy: set<nat>, p: nat) {
    forall q | q in s.work && q !in busy :: !About(s.work[q], p)
  }

  /** Nobody outside `busy` has put by frame `m`. */
  ghost predicate NoneKeeps(s: Kernel, busy: set<nat>, m: nat) {
    forall q | q in s.work && q !in busy && (s.work[q].Reserves() || s.work[q].Placed?) ::
      s.work[q].m != m
  }

  /** The process moves on; its lowered mappings stay lowered. */
  lemma PutWork(s: Kernel, busy: set<nat>, p: nat, work: map<nat, Work>)
    requires Tidy(s) && Places(s, busy) && p in busy && OnlyWork(s, p, work)
    requires CountOk(s.(work := work))
    requires forall x | x in s.pt && x.pid == p :: IsLowered(s.work, x) ==> IsLowered(work, x)
    requires Unrelated(s, busy, p)
    requires p in work && (work[p].Reserves() || work[p].Placed?) ==> NoneKeeps(s, busy, work[p].m)
    ensures var s' := s.(work := work); Tidy(s') && Places(s', busy)
  {
    var s' := s.(work := work);
    assert Tidy(s') by { PutWorkTidy(s, p, work); }
    hide Tidy, CountOk;
    forall q | q in s'.work && q !in busy ensures WorkOk(s', q) {
      assert WorkOk(s, q);
      assert OwnOk(s', q);
      assert FamilyOk(s', q) by { hide OwnOk, ReserveOk, SeenOk; }
      assert ReserveOk(s', q) by { hide OwnOk, FamilyOk, SeenOk; }
      assert SeenOk(s', q) by { hide FamilyOk; }
      hide OwnOk, ReserveOk, SeenOk, FamilyOk;
    }
  }

  lemma PutWorkTidy(s: Kernel, p: nat, work: map<nat, Work>)
    requires Tidy(s) && OnlyWork(s, p, work) && CountOk(s.(work := work))
    requires forall x | x in s.pt && x.pid == p :: IsLowered(s.work, x) ==> IsLowered(work, x)
    ensures Tidy(s.(work := work))
  {
    hide CountOk;
    var s' := s.(work := work);
    forall y | y in s'.pt ensures EntryFine(s', y) {
      if y in s.pt { assert EntryFine(s, y); }
    }
  }

  // ---------- updates of one page-table entry ----------

  /** Only the entry of `x` differs. */
  ghost predicate OnlyEntry(s: Kernel, s': Kernel, x: Slot) {
    && s' == s.(pt := s'.pt)
    && (forall y | y in s.pt && y != x :: y in s'.pt && s'.pt[y] == s.pt[y])
    && (forall y | y in s'.pt && y != x :: y in s.pt)
  }

  /** `x` maps frame `f` as it did not before. */
  ghost predicate Newly(s: Kernel, s': Kernel, x: Slot, f: nat) {
    x in s'.pt && s'.pt[x].frame == f && !(x in s.pt && s.pt[x].frame == f)
  }

  /** A frame that may get one more mapping: nobody may write to it or has it put by. */
  ghost predicate Sharable(s: Kernel, busy: set<nat>, x: Slot, f: nat) {
    && f in s.mem && f !in s.free && f !in s.kernel && NoneKeeps(s, busy, f)
    && (forall y | y in s.pt && s.pt[y].frame == f :: y.page == x.page && !s.pt[y].w)
    && (forall q | q in s.work && q !in busy && s.work[q].Sole? && Slot(q, s.work[q].page) in s.pt ::
          s.pt[Slot(q, s.work[q].page)].frame != f)
  }

  lemma EntryFamily(s: Kernel, s': Kernel, x: Slot, q: nat)
    requires OnlyEntry(s, s', x) && q in s.work && q != x.pid && !About(s.work[q], x.pid)
    requires FamilyOk(s, q)
    ensures FamilyOk(s', q)
  {
  }

  lemma EntryReserve(s: Kernel, s': Kernel, x: Slot, q: nat)
    requires OnlyEntry(s, s', x) && q in s.work && q != x.pid && ReserveOk(s, q)
    requires s.work[q].Reserves() || s.work[q].Placed? ==> !Newly(s, s', x, s.work[q].m)
    ensures ReserveOk(s', q)
  {
  }

  lemma EntrySeen(s: Kernel, s': Kernel, x: Slot, q: nat)
    requires OnlyEntry(s, s', x) && q in s.work && q != x.pid && OwnOk(s, q) && SeenOk(s, q)
    requires s.work[q].Sole? ==> !Newly(s, s', x, s.pt[Slot(q, s.work[q].page)].frame)
    ensures OwnOk(s', q) && SeenOk(s', q)
  {
  }

  lemma EntryPlaces(s: Kernel, s': Kernel, busy: set<nat>, x: Slot)
    requires Places(s, busy) && OnlyEntry(s, s', x) && x.pid in busy && Unrelated(s, busy, x.pid)
    requires x in s'.pt ==> (x in s.pt && s'.pt[x].frame == s.pt[x].frame)
                            || Sharable(s, busy, x, s'.pt[x].frame)
    ensures Places(s', busy)
  {
    forall q | q in s'.work && q !in busy ensures WorkOk(s', q) {
      assert WorkOk(s, q);
      assert s.work[q].Sole? ==> Slot(q, s.work[q].page) in s.pt;
      hide OwnOk, ReserveOk, SeenOk, FamilyOk;
      EntryFamily(s, s', x, q);
      EntryReserve(s, s', x, q);
      EntrySeen(s, s', x, q);
    }
  }

  lemma EntryStays(s: Kernel, s': Kernel, x: Slot, y: Slot)
    requires OnlyEntry(s, s', x) && y in s.pt && y != x && EntryFine(s, y)
    requires s.pt[y].w ==> !Newly(s, s', x, s.pt[y].frame)
    ensures y in s'.pt && EntryFine(s', y)
  {
  }

  lemma EntryLists(s: Kernel, s': Kernel, x: Slot)
    requires OnlyEntry(s, s', x) && FreeOk(s)
    requires forall f | Newly(s, s', x, f) :: f !in s.free && f !in s.kernel
    ensures FreeOk(s')
  {
    forall f | f in s.free || f in s.kernel ensures Spare(s, f) {
    }
    forall f | f in s.free || f in s.kernel ensures Spare(s', f) {
      assert Spare(s, f) && !Newly(s, s', x, f);
    }
    hide Spare;
  }

  /** Only one entry differs, and it maps no frame that others rely on having to themselves. */
  lemma EntryTidy(s: Kernel, s': Kernel, busy: set<nat>, x: Slot)
    requires Tidy(s) && OnlyEntry(s, s', x) && CountOk(s')
    requires x in s'.pt ==> (x in s.pt && s'.pt[x].frame == s.pt[x].frame)
                            || Sharable(s, busy, x, s'.pt[x].frame)
    requires x in s'.pt ==> EntryFine(s', x)
    ensures Tidy(s')
  {
    hide CountOk;
    EntryLists(s, s', x);
    hide FreeOk;
    forall y | y in s'.pt ensures EntryFine(s', y) {
      if y != x {
        assert EntryFine(s, y);
        EntryStays(s, s', x, y);
      }
    }
    hide EntryFine;
  }

  /** New flags in an entry: write access only for who is alone. */
  lemma PutFlags(s: Kernel, busy: set<nat>, x: Slot, pte: Pte)
    requires Tidy(s) && Places(s, busy) && x in s.pt && x.pid in busy && Unrelated(s, busy, x.pid)
    requires pte.frame == s.pt[x].frame && (pte.cow ==> pte.u && !pte.w) && (pte.w ==> Alone(s, x))
    ensures var s' := s.(pt := s.pt[x := pte]); Tidy(s') && Places(s', busy)
  {
    hide CountOk, EntryFine, Tidy, Places, Alone, Sharable, Unrelated;
    var s' := s.(pt := s.pt[x := pte]);
    FlagsFine(s, x, pte);
    assert OnlyEntry(s, s', x);
    hide OnlyEntry;
    EntryTidy(s, s', busy, x);
    EntryPlaces(s, s', busy, x);
  }

  lemma FlagsFine(s: Kernel, x: Slot, pte: Pte)
    requires Tidy(s) && x in s.pt
    requires pte.frame == s.pt[x].frame && (pte.cow ==> pte.u && !pte.w) && (pte.w ==> Alone(s, x))
    ensures var s' := s.(pt := s.pt[x := pte]); CountOk(s') && EntryFine(s', x)
  {
    SameHeld(s, s.(pt := s.pt[x := pte]));
    assert EntryFine(s, x);
    hide CountOk;
  }

  lemma DropEntry(s: Kernel, busy: set<nat>, x: Slot)
    requires Tidy(s) && Places(s, busy) && x in s.pt && x.pid in busy && Unrelated(s, busy, x.pid)
    ensures var s' := s.(pt := s.pt - {x}); Tidy(s') && Places(s', busy)
  {
    hide CountOk, EntryFine, Tidy, Places, Sharable, Unrelated;
    var s' := s.(pt := s.pt - {x});
    DropCounts(s, x);
    assert OnlyEntry(s, s', x);
    hide OnlyEntry;
    EntryTidy(s, s', busy, x);
    EntryPlaces(s, s', busy, x);
  }

  lemma DropCounts(s: Kernel, x: Slot)
    requires Tidy(s) && x in s.pt
    ensures CountOk(s.(pt := s.pt - {x}))
  {
    var s' := s.(pt := s.pt - {x});
    forall f | f in s.count ensures |Held(s', f)| <= |Held(s, f)| {
      Fewer(Held(s', f), Held(s, f));
    }
  }

  /** A new mapping that the count does not cover yet. */
  lemma AddEntry(s: Kernel, busy: set<nat>, x: Slot, pte: Pte)
    requires Tidy(s) && Places(s, busy) && x !in s.pt && x.pid in busy && Unrelated(s, busy, x.pid)
    requires x.pid in s.live && IsUncounted(s.work, x) && Sharable(s, busy, x, pte.frame)
    requires (pte.cow ==> pte.u && !pte.w) && (pte.w ==> Unmapped(s, pte.frame))
    ensures var s' := s.(pt := s.pt[x := pte]); Tidy(s') && Places(s', busy)
  {
    hide CountOk, EntryFine, Tidy, Places, Sharable, Unrelated, Unmapped, IsUncounted;
    var s' := s.(pt := s.pt[x := pte]);
    AddFine(s, busy, x, pte);
    assert OnlyEntry(s, s', x);
    hide OnlyEntry;
    EntryTidy(s, s', busy, x);
    EntryPlaces(s, s', busy, x);
  }

  lemma AddFine(s: Kernel, busy: set<nat>, x: Slot, pte: Pte)
    requires Tidy(s) && x !in s.pt && x.pid in s.live && IsUncounted(s.work, x)
    requires Sharable(s, busy, x, pte.frame)
    requires (pte.cow ==> pte.u && !pte.w) && (pte.w ==> Unmapped(s, pte.frame))
    ensures var s' := s.(pt := s.pt[x := pte]); CountOk(s') && EntryFine(s', x)
  {
    var s' := s.(pt := s.pt[x := pte]);
    forall f | f in s.count ensures Held(s', f) == Held(s, f) {
    }
  }

  lemma PutCount(s: Kernel, busy: set<nat>, f: nat, c: nat)
    requires Tidy(s) && Places(s, busy) && f in s.count && |Held(s, f)| <= c <= 255
    requires f !in s.free && f !in s.kernel && NoneKeeps(s, busy, f)
    ensures var s' := s.(count := s.count[f := c]); Tidy(s') && Places(s', busy)
  {
    var s' := s.(count := s.count[f := c]);
    assert Tidy(s') by { PutCountTidy(s, f, c); }
    hide Tidy, Held;
    forall q | q in s'.work && q !in busy ensures WorkOk(s', q) {
      assert WorkOk(s, q);
      assert OwnOk(s', q);
      assert FamilyOk(s', q) by { hide OwnOk, ReserveOk, SeenOk; }
      assert ReserveOk(s', q) by { hide OwnOk, FamilyOk, SeenOk; }
      assert SeenOk(s', q) by { hide FamilyOk; }
      hide OwnOk, ReserveOk, SeenOk, FamilyOk;
    }
  }

  lemma PutCountTidy(s: Kernel, f: nat, c: nat)
    requires Tidy(s) && f in s.count && |Held(s, f)| <= c <= 255 && f !in s.free && f !in s.kernel
    ensures Tidy(s.(count := s.count[f := c]))
  {
    var s' := s.(count := s.count[f := c]);
    forall g | g in s.count ensures Held(s', g) == Held(s, g) {
    }
    assert CountOk(s');
    hide CountOk;
    forall y | y in s'.pt ensures EntryFine(s', y) {
      if y in s.pt { assert EntryFine(s, y); }
    }
  }

  lemma PutLists(s: Kernel, busy: set<nat>, free: seq<nat>, kernel: set<nat>)
    requires Tidy(s) && Places(s, busy) && FreeOk(s.(free := free, kernel := kernel))
    requires forall q | q in s.work && q !in busy && (s.work[q].Reserves() || s.work[q].Placed?) ::
               s.work[q].m !in free && s.work[q].m !in kernel
    ensures var s' := s.(free := free, kernel := kernel); Tidy(s') && Places(s', busy)
  {
    var s' := s.(free := free, kernel := kernel);
    assert CountOk(s') by { SameHeld(s, s'); }
    hide CountOk, FreeOk;
    forall y | y in s'.pt ensures EntryFine(s', y) {
      if y in s.pt { assert EntryFine(s, y); }
    }
    hide Tidy;
    forall q | q in s'.work && q !in busy ensures WorkOk(s', q) {
      assert WorkOk(s, q);
      assert OwnOk(s', q);
      assert FamilyOk(s', q) by { hide OwnOk, ReserveOk, SeenOk; }
      assert ReserveOk(s', q) by { hide OwnOk, FamilyOk, SeenOk; }
      assert SeenOk(s', q) by { hide FamilyOk; }
      hide OwnOk, ReserveOk, SeenOk, FamilyOk;
    }
  }

  lemma PutLive(s: Kernel, busy: set<nat>, live: set<nat>)
    requires Tidy(s) && Places(s, busy) && |live| <= NPROC
    requires (forall x | x in s.pt :: x.pid in live) && (forall q | q in s.work :: q in live)
    ensures var s' := s.(live := live); Tidy(s') && Places(s', busy)
  {
    var s' := s.(live := live);
    assert CountOk(s') by { SameHeld(s, s'); }
    hide CountOk;
    forall y | y in s'.pt ensures EntryFine(s', y) {
      if y in s.pt { assert EntryFine(s, y); }
    }
    hide Tidy;
    forall q | q in s'.work && q !in busy ensures WorkOk(s', q) {
      assert WorkOk(s, q);
      assert OwnOk(s', q);
      assert FamilyOk(s', q) by { hide OwnOk, ReserveOk, SeenOk; }
      assert ReserveOk(s', q) by { hide OwnOk, FamilyOk, SeenOk; }
      assert SeenOk(s', q) by { hide FamilyOk; }
      hide OwnOk, ReserveOk, SeenOk, FamilyOk;
    }
  }
}
