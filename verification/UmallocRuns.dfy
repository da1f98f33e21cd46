/** Whole runs of `malloc` and `free`: which block is handed out, what every call keeps, and what is
left when everything has been given back. */
module UmallocRuns {
  import opened Common
  import opened Umalloc

  /** `cur` is the place of `freep` in the ring. */
  datatype State = State(h: Heap, cur: nat)

  function Wrap(x: nat, n: nat): nat {
    if x < n then x else x - n
  }

  // ---------- sizes ----------

  /** Units wanted for `nbytes`, computed in 32 bits: the payload rounded up and one header. */
  function Units(nbytes: nat): (n: nat)
    ensures n >= 1
  {
    (nbytes + 7) % WORD / 8 + 1
  }

  function CoreUnits(n: nat): nat {
    if n < 4096 then 4096 else n
  }

  /** What `sbrk` is asked for: a 32-bit product passed as a signed number. */
  function Asked(nu: nat): int {
    var b := nu * 8 % WORD;
    if b < WORD / 2 then b else b - WORD
  }

  /** A request is sized right, and `sbrk` asked for what `morecore` then puts on the list, exactly
  for requests up to 2^31 - 16 bytes. */
  lemma SizesHold(nbytes: nat)
    requires nbytes < WORD
    ensures 8 * Units(nbytes) >= nbytes + 8 && Asked(CoreUnits(Units(nbytes))) == 8 * CoreUnits(Units(nbytes))
       <==> nbytes <= WORD / 2 - 16
  {
    var nu := CoreUnits(Units(nbytes));
    if nbytes + 7 < WORD {
      assert Units(nbytes) == (nbytes + 7) / 8 + 1;
      if nu * 8 < WORD {
        assert nu * 8 % WORD == nu * 8;
      }
    } else {
      assert (nbytes + 7) % WORD == nbytes + 7 - WORD;
    }
  }

  /** `sbrk` is asked for 4096 units at least, and for no more than a unit above the request if that is
  larger. */
  lemma AsksEnough(nbytes: nat)
    requires nbytes <= WORD / 2 - 16
    ensures var a := Asked(CoreUnits(Units(nbytes)));
      a >= 4096 * 8 && a >= nbytes + 8 && (a > 4096 * 8 ==> a < nbytes + 16)
  {
    SizesHold(nbytes);
    assert (nbytes + 7) % WORD == nbytes + 7;
  }

  /** A wrong size is always asked for short: `morecore` would list memory it does not have. */
  lemma AskedShort(nu: nat)
    ensures Asked(nu) <= 8 * nu
  {
  }

  /** How far a granted `sbrk(n)` moves the end of a process of size `sz`: `growproc` shrinks only to
  an end below the old one, and a request that passes below 0 wraps and changes nothing. */
  function Moved(sz: nat, n: int): int {
    if n < 0 && (sz + n) % WORD >= sz then 0 else n
  }

  // ---------- first fit ----------

  /** The first free block of `n` units or more, looking from the `d`-th after `cur` once round. */
  function FirstFit(free: seq<Blk>, cur: nat, n: nat, d: nat): (r: Option<nat>)
    requires cur < |free|
    ensures r.Some? ==> r.value < |free| && free[r.value].size >= n
    decreases |free| + 1 - d
  {
    if d > |free| then None
    else if free[Wrap(cur + d, |free|)].size >= n then Some(Wrap(cur + d, |free|))
    else FirstFit(free, cur, n, d + 1)
  }

  /** The search goes once round the whole ring: it misses no block. */
  lemma {:induction false} FitMissesNone(free: seq<Blk>, cur: nat, n: nat, d: nat, e: nat)
    requires cur < |free| && d <= e <= |free|
    requires FirstFit(free, cur, n, d).None?
    ensures free[Wrap(cur + e, |free|)].size < n
    decreases e - d
  {
    if d < e {
      FitMissesNone(free, cur, n, d + 1, e);
    }
  }

  predicate TooSmall(free: seq<Blk>, cur: nat, n: nat, x: nat)
    requires cur < |free| && x <= |free|
  {
    free[Wrap(cur + x, |free|)].size < n
  }

  /** Every block passed on the way to the one found is too small. */
  lemma {:induction false} FitIsFirst(free: seq<Blk>, cur: nat, n: nat, d: nat) returns (e: nat)
    requires cur < |free| && d <= |free| && FirstFit(free, cur, n, d).Some?
    ensures d <= e <= |free| && FirstFit(free, cur, n, d) == Some(Wrap(cur + e, |free|))
    ensures forall x: nat | d <= x < e :: TooSmall(free, cur, n, x)
    decreases |free| - d
  {
    if free[Wrap(cur + d, |free|)].size >= n {
      e := d;
    } else {
      e := FitIsFirst(free, cur, n, d + 1);
    }
  }

  lemma FitExists(free: seq<Blk>, cur: nat, n: nat, j: nat)
    requires cur < |free| && j < |free| && free[j].size >= n
    ensures FirstFit(free, cur, n, 1).Some?
  {
    if FirstFit(free, cur, n, 1).None? {
      FitMissesNone(free, cur, n, 1, if j > cur then j - cur else j + |free| - cur);
    }
  }

  // ---------- the calls ----------

  ghost predicate Good(s: State) {
    Inv(s.h) && s.cur < |s.h.free|
  }

  /** `free`: the ring is left pointing at the block before the freed one. */
  function Free(s: State, a: nat): State
    requires |s.h.free| >= 1 && s.h.free[0].addr < a && a in s.h.live
  {
    State(FreeBlock(s.h, a), Spot(s.h.free, a))
  }

  function Take(s: State, j: nat, n: nat): State
    requires 1 <= j < |s.h.free| && n <= s.h.free[j].size
  {
    State(TakeBlock(s.h, j, n), j - 1)
  }

  function Morecore(s: State, c: nat, n: nat): State
    requires |s.h.free| >= 1 && s.h.free[0].addr < c
  {
    Free(State(Core(s.h, c, CoreUnits(n)), s.cur), c)
  }

  datatype Reply = Reply(s: State, addr: Option<nat>)

  /** `malloc` of `n` units; `core` is what `sbrk` would answer. */
  function Malloc(s: State, n: nat, core: Option<nat>): Reply
    requires s.cur < |s.h.free| && s.h.free[0].size == 0 && n >= 1
    requires core.Some? ==> s.h.free[0].addr < core.value
  {
    match FirstFit(s.h.free, s.cur, n, 1)
    case Some(j) => Reply(Take(s, j, n), Some(TailOf(s.h.free[j], n)))
    case None =>
      if core.None? then Reply(s, None) else
      var t := Morecore(s, core.value, n);
      if t.cur < |t.h.free| && t.h.free[0].size == 0 then
        match FirstFit(t.h.free, t.cur, n, 1)
        case Some(j) => Reply(Take(t, j, n), Some(TailOf(t.h.free[j], n)))
        case None => Reply(t, None)
      else Reply(t, None)
  }

  lemma FreeGood(s: State, a: nat)
    requires Good(s) && a in s.h.live
    ensures Good(Free(s, a))
  {
    FreeInv(s.h, a);
  }

  lemma MorecoreGood(s: State, c: nat, n: nat)
    requires Good(s) && c >= s.h.brk
    ensures Good(Morecore(s, c, n))
    ensures Morecore(s, c, n).h.live == s.h.live
  {
    assert c !in s.h.live;
    assert s.h.live[c := CoreUnits(n)] - {c} == s.h.live;
    CoreInv(s.h, c, CoreUnits(n));
    hide Inv, Insert, Spot;
    FreeGood(State(Core(s.h, c, CoreUnits(n)), s.cur), c);
  }

  /** After `morecore` some block is large enough. */
  lemma MorecoreFits(s: State, c: nat, n: nat)
    requires Good(s) && c >= s.h.brk
    ensures var t := Morecore(s, c, n); t.cur < |t.h.free| && FirstFit(t.h.free, t.cur, n, 1).Some?
  {
    var h, t := Core(s.h, c, CoreUnits(n)), Morecore(s, c, n);
    var k, b := Spot(h.free, c), Blk(c, CoreUnits(n));
    var j := if Down(h.free, k, b) then k else k + 1;
    assert t.h.free == Insert(h.free, k, b);
    assert t.h.free[j].size >= n;
    FitExists(t.h.free, t.cur, n, j);
  }

  /** The reply is a block of `n` units that nobody else holds; `malloc` fails exactly when no free
  block is large enough and `sbrk` refuses, and then changes nothing. */
  lemma MallocGood(s: State, n: nat, core: Option<nat>)
    requires Good(s) && n >= 1 && (core.Some? ==> core.value >= s.h.brk)
    ensures var r := Malloc(s, n, core);
      && Good(r.s)
      && (r.addr.None? <==> core.None? && forall i | 0 <= i < |s.h.free| :: s.h.free[i].size < n)
      && (r.addr.None? ==> r.s == s)
      && (r.addr.Some? ==> r.addr.value !in s.h.live && r.s.h.live == s.h.live[r.addr.value := n])
  {
    Anchored(s);
    hide Good, Inv, Take, Morecore, FirstFit;
    if FirstFit(s.h.free, s.cur, n, 1).Some? {
      TakeGood(s, n);
    } else {
      forall i | 0 <= i < |s.h.free| ensures s.h.free[i].size < n {
        if s.h.free[i].size >= n { FitExists(s.h.free, s.cur, n, i); }
      }
      if core.Some? {
        MorecoreGood(s, core.value, n);
        MorecoreFits(s, core.value, n);
        var t := Morecore(s, core.value, n);
        Anchored(t);
        TakeGood(t, n);
      }
    }
  }

  /** New core ends up at the end of the last block of the ring; the other blocks are old ones. */
  lemma MorecoreIsLast(s: State, c: nat, n: nat)
    requires Good(s) && c >= s.h.brk
    ensures var t := Morecore(s, c, n);
      && |t.h.free| >= 1 && t.h.free[|t.h.free| - 1].End() == c + 8 * CoreUnits(n) == t.h.brk
      && (forall i | 0 <= i < |t.h.free| - 1 :: i < |s.h.free| && t.h.free[i] == s.h.free[i])
  {
    var k, b := Spot(s.h.free, c), Blk(c, CoreUnits(n));
    Ordered(s.h.base, s.h.free, s.h.brk, |s.h.free| - 1, |s.h.free| - 1);
    assert s.h.free[|s.h.free| - 1].addr < c by { if |s.h.free| == 1 { Anchored(s); } }
    assert k == |s.h.free| - 1;
    assert Morecore(s, c, n).h.free == Insert(s.h.free, k, b);
  }

  /** `malloc` hands out the end of the first block that fits and leaves the ring at the block before
  it; if none does, the end of what `sbrk` grants. */
  lemma MallocWhere(s: State, n: nat, core: Option<nat>)
    requires Good(s) && n >= 1 && (core.Some? ==> core.value >= s.h.brk)
    ensures var (r, f) := (Malloc(s, n, core), FirstFit(s.h.free, s.cur, n, 1));
      && (f.Some? ==>
            && r.addr == Some(s.h.free[f.value].End() - 8 * n)
            && r.s.cur == f.value - 1 && r.s.h.brk == s.h.brk)
      && (f.None? && core.Some? ==>
            r.addr == Some(core.value + 8 * CoreUnits(n) - 8 * n) && r.s.h.brk == core.value + 8 * CoreUnits(n))
  {
    hide Good, Inv, Morecore, FirstFit, Take, TailOf, Blk.End;
    Anchored(s);
    if FirstFit(s.h.free, s.cur, n, 1).Some? {
      TakeGood(s, n);
      TakeWhere(s, n);
    } else if core.Some? {
      var t := Morecore(s, core.value, n);
      MorecoreGood(s, core.value, n);
      OnlyLastFits(s, core.value, n);
      MorecoreIsLast(s, core.value, n);
      Anchored(t);
      TakeGood(t, n);
      TakeWhere(t, n);
    }
  }

  lemma TakeWhere(s: State, n: nat)
    requires Good(s) && s.cur < |s.h.free| && n >= 1 && FirstFit(s.h.free, s.cur, n, 1).Some?
    requires FirstFit(s.h.free, s.cur, n, 1).value >= 1
    ensures var j := FirstFit(s.h.free, s.cur, n, 1).value;
      && TailOf(s.h.free[j], n) == s.h.free[j].End() - 8 * n
      && Take(s, j, n).cur == j - 1 && Take(s, j, n).h.brk == s.h.brk
  {
    hide Good, FirstFit, Replace;
  }

  lemma OnlyLastFits(s: State, c: nat, n: nat)
    requires Good(s) && c >= s.h.brk && FirstFit(s.h.free, s.cur, n, 1).None?
    ensures var t := Morecore(s, c, n);
      t.cur < |t.h.free| && FirstFit(t.h.free, t.cur, n, 1) == Some(|t.h.free| - 1)
  {
    hide Good, Morecore, FirstFit;
    MorecoreFits(s, c, n);
    MorecoreIsLast(s, c, n);
    Anchored(s);
    var t := Morecore(s, c, n);
    var j := FirstFit(t.h.free, t.cur, n, 1).value;
    if j != |t.h.free| - 1 { FitExists(s.h.free, s.cur, n, j); }
  }

  /** The ring always holds the empty static block, below everything `sbrk` grants. */
  lemma Anchored(s: State)
    requires Good(s)
    ensures s.cur < |s.h.free| && s.h.free[0].size == 0 && s.h.free[0].addr < s.h.brk
  {
  }

  /** Handing out the tail of the first fit. */
  lemma TakeGood(s: State, n: nat)
    requires Good(s) && s.cur < |s.h.free| && n >= 1 && FirstFit(s.h.free, s.cur, n, 1).Some?
    ensures var j := FirstFit(s.h.free, s.cur, n, 1).value;
            && 1 <= j && Good(Take(s, j, n)) && TailOf(s.h.free[j], n) !in s.h.live
            && Take(s, j, n).h.live == s.h.live[TailOf(s.h.free[j], n) := n]
  {
    var j := FirstFit(s.h.free, s.cur, n, 1).value;
    Anchored(s);
    TakeInv(s.h, j, n);
    hide Inv, FirstFit;
  }

  /** Where the loop of `malloc` that began in `s0` has got to after `calls` calls of `morecore`. */
  ghost predicate Phase(s0: State, s: State, n: nat, core: Option<nat>, calls: nat)
    requires Good(s0) && (core.Some? ==> core.value >= s0.h.brk)
  {
    if calls == 0 then s == s0 else
    && core.Some? && FirstFit(s0.h.free, s0.cur, n, 1).None? && s == Morecore(s0, core.value, n)
    && s.cur < |s.h.free| && FirstFit(s.h.free, s.cur, n, 1).Some?
  }

  lemma PhaseStart(s: State, n: nat, core: Option<nat>)
    requires Good(s) && (core.Some? ==> core.value >= s.h.brk)
    ensures Phase(s, s, n, core, 0)
  {
  }

  lemma PhaseState(s0: State, s: State, n: nat, core: Option<nat>, calls: nat)
    requires Good(s0) && (core.Some? ==> core.value >= s0.h.brk) && Phase(s0, s, n, core, calls)
    ensures calls == 0 ==> s == s0
    ensures calls > 0 ==> core.Some? && s == Morecore(s0, core.value, n)
  {
  }

  lemma FitHere(free: seq<Blk>, cur: nat, n: nat, d: nat)
    requires cur < |free| && 1 <= d <= |free|
    ensures var j := Wrap(cur + d, |free|);
      FirstFit(free, cur, n, d) ==
        if free[j].size >= n then Some(j) else if d < |free| then FirstFit(free, cur, n, d + 1) else None
  {
  }

  lemma PhaseFound(s0: State, s: State, n: nat, core: Option<nat>, calls: nat, j: nat)
    requires Good(s0) && Good(s) && n >= 1 && (core.Some? ==> core.value >= s0.h.brk)
    requires Phase(s0, s, n, core, calls) && FirstFit(s.h.free, s.cur, n, 1) == Some(j)
    ensures 1 <= j && Malloc(s0, n, core) == Reply(Take(s, j, n), Some(TailOf(s.h.free[j], n)))
  {
  }

  /** The search comes round without success only once, before any core was asked for. */
  lemma PhaseMissed(s0: State, s: State, n: nat, core: Option<nat>, calls: nat)
    requires Good(s0) && Good(s) && n >= 1 && (core.Some? ==> core.value >= s0.h.brk)
    requires Phase(s0, s, n, core, calls) && FirstFit(s.h.free, s.cur, n, 1).None?
    ensures calls == 0 && s == s0
    ensures core.None? ==> Malloc(s0, n, core) == Reply(s0, None)
    ensures core.Some? ==> Phase(s0, Morecore(s0, core.value, n), n, core, 1)
  {
    if core.Some? {
      MorecoreGood(s, core.value, n);
      MorecoreFits(s, core.value, n);
    }
  }

  // ---------- runs ----------

  datatype Event = Alloc(n: nat, core: Option<nat>) | Release(a: nat)

  ghost function Step(s: State, e: Event): Option<State>
    requires Good(s)
  {
    match e
    case Alloc(n, core) =>
      if n >= 1 && (core.Some? ==> core.value >= s.h.brk) then Some(Malloc(s, n, core).s) else None
    case Release(a) => if a in s.h.live then Some(Free(s, a)) else None
  }

  /** An empty heap: the static header at `base`, and a process that ends at `lo`. */
  function Boot(base: nat, lo: nat): State {
    State(Heap(base, [Blk(base, 0)], map[], lo, 0), 0)
  }

  ghost function Exec(base: nat, lo: nat, es: seq<Event>): (r: Option<State>)
    requires base < lo
    ensures r.Some? ==> Good(r.value)
    decreases |es|
  {
    if es == [] then
      BootGood(base, lo); Some(Boot(base, lo))
    else
      match Exec(base, lo, es[..|es| - 1])
      case None => None
      case Some(s) =>
        StepGood(s, es[|es| - 1]);
        Step(s, es[|es| - 1])
  }

  lemma BootGood(base: nat, lo: nat)
    requires base < lo
    ensures Good(Boot(base, lo))
  {
    UnitsOne(Blk(base, 0));
  }

  lemma StepGood(s: State, e: Event)
    requires Good(s)
    ensures Step(s, e).Some? ==> Good(Step(s, e).value)
  {
    match e
    case Alloc(n, core) =>
      if n >= 1 && (core.Some? ==> core.value >= s.h.brk) { MallocGood(s, n, core); }
    case Release(a) => if a in s.h.live { FreeGood(s, a); }
  }

  /** In every run: blocks handed out overlap neither each other nor the free list, free blocks are
  in address order and never touch, and every unit obtained is either free or handed out. */
  lemma BlocksStayApart(base: nat, lo: nat, es: seq<Event>, i: nat, j: nat, a: nat, b: nat)
    requires base < lo && Exec(base, lo, es).Some?
    ensures var h := Exec(base, lo, es).value.h;
      && (i < j < |h.free| ==> h.free[i].End() < h.free[j].addr)
      && (a in h.live && j < |h.free| ==> Apart(Blk(a, h.live[a]), h.free[j]))
      && (a in h.live && b in h.live && a != b ==> Apart(Blk(a, h.live[a]), Blk(b, h.live[b])))
      && FreeUnits(h.free) + LiveUnits(h.live) == h.total
  {
    var h := Exec(base, lo, es).value.h;
    if i < j < |h.free| {
      Ordered(h.base, h.free, h.brk, i, j);
    }
    assert a in h.live ==> Clear(Blk(a, h.live[a]), h.free);
  }

  // ---------- giving everything back ----------

  /** Only `malloc` moves the end of the process. */
  predicate SoleUser(s: State, e: Event) {
    e.Alloc? && e.core.Some? ==> e.core.value == s.h.brk
  }

  ghost predicate SoleUserRun(base: nat, lo: nat, es: seq<Event>)
    requires base < lo
    decreases |es|
  {
    es == [] ||
    (SoleUserRun(base, lo, es[..|es| - 1]) &&
     (Exec(base, lo, es[..|es| - 1]).Some? ==> SoleUser(Exec(base, lo, es[..|es| - 1]).value, es[|es| - 1])))
  }

  // ---------- grants of the wrong size ----------

  /** The units listed and handed out after `morecore` are covered by memory obtained if and only if
  `sbrk` was asked for the size meant. */
  lemma ListedIff(s: State, c: nat, n: nat, sz: nat)
    requires Good(s) && c >= s.h.brk && sz < WORD / 2
    ensures var (t, nu) := (Morecore(s, c, n).h, CoreUnits(n));
      && FreeUnits(t.free) + LiveUnits(t.live) == s.h.total + nu
      && (8 * (FreeUnits(t.free) + LiveUnits(t.live)) <= 8 * s.h.total + Moved(sz, Asked(nu)) <==>
            Asked(nu) == 8 * nu)
  {
    MorecoreGood(s, c, n);
    AskedShort(CoreUnits(n));
  }

  /** The first `malloc` of a large request hands out all of the core it gets. */
  lemma FirstMalloc(base: nat, lo: nat, n: nat)
    requires base < lo && n >= 4096
    ensures var r := Malloc(Boot(base, lo), n, Some(lo)); r.addr == Some(lo) && r.s.h.live == map[lo := n]
  {
    var b := Boot(base, lo);
    var c := Core(b.h, lo, n);
    assert FirstFit(b.h.free, 0, n, 1).None?;
    assert c.live[lo] == n && c.live - {lo} == map[];
    var t := Morecore(b, lo, n);
    assert Spot(c.free, lo) == 0;
    assert t.h.free == [Blk(base, 0), Blk(lo, n)] && t.h.live == map[];
    assert FirstFit(t.h.free, t.cur, n, 1) == Some(1);
    hide Spot, Insert, FirstFit, Morecore;
    assert TailOf(Blk(lo, n), n) == lo;
  }

  lemma WrongSize()
    ensures Units(WORD - 16) == 0x1fff_ffff && Asked(0x1fff_ffff) == -8
  {
  }

  /** A first `malloc` of 2^32 - 16 bytes succeeds although `sbrk` has been asked to give 8 bytes
  back: all the units handed out belong to nobody. */
  lemma WrongSizeRun(base: nat, lo: nat)
    requires base < lo && 8 < lo < WORD / 2
    ensures var n := Units(WORD - 16);
      && Exec(base, lo, [Alloc(n, Some(lo))]).Some?
      && var h := Exec(base, lo, [Alloc(n, Some(lo))]).value.h;
      && h.live == map[lo := n] && FreeUnits(h.free) + LiveUnits(h.live) >= n == 0x1fff_ffff
      && Moved(lo, Asked(CoreUnits(n))) == -8
  {
    var n, b := Units(WORD - 16), Boot(base, lo);
    WrongSize();
    FirstMalloc(base, lo, n);
    hide Units, Asked, Malloc, Inv;
    var e := Alloc(n, Some(lo));
    assert Exec(base, lo, []) == Some(b) && [e][..0] == [];
    assert Exec(base, lo, [e]) == Step(b, e);
    LiveAdd(map[], lo, n);
    assert map[][lo := n] == map[lo := n];
  }

  /** All memory obtained lies in one piece from `lo`. */
  predicate OnePiece(h: Heap, lo: nat) {
    && h.brk == lo + 8 * h.total
    && (forall i | 0 < i < |h.free| :: h.free[i].addr >= lo)
    && (forall a | a in h.live :: a >= lo)
  }

  lemma InsertFrom(base: nat, free: seq<Blk>, k: nat, b: Blk, lo: nat)
    requires Fits(base, free, k, b) && free[0] == Blk(base, 0) && b.addr >= lo
    requires forall i | 0 < i < |free| :: free[i].addr >= lo
    ensures forall i | 0 < i < |Insert(free, k, b)| :: Insert(free, k, b)[i].addr >= lo
  {
    var r, d := Insert(free, k, b), if Down(free, k, b) then k else k + 1;
    var s := Behind(free, k, b);
    forall i | 0 < i < |r| ensures r[i].addr >= lo {
      assert i < d ==> r[i] == free[i];
      assert i > d ==> r[i] == free[i - d - 1 + s];
    }
  }

  lemma FreeOnePiece(h: Heap, a: nat, lo: nat)
    requires Inv(h) && a in h.live && OnePiece(h, lo)
    ensures OnePiece(FreeBlock(h, a), lo)
  {
    SpotFits(h, a);
    hide Fits, Spot, Insert, LiveOk;
    InsertFrom(h.base, h.free, Spot(h.free, a), Blk(a, h.live[a]), lo);
  }

  lemma TakeOnePiece(h: Heap, j: nat, n: nat, lo: nat)
    requires Inv(h) && 1 <= j < |h.free| && 1 <= n <= h.free[j].size && OnePiece(h, lo)
    ensures OnePiece(TakeBlock(h, j, n), lo)
  {
    var r := TakeBlock(h, j, n).free;
    forall i | 0 < i < |r| ensures r[i].addr >= lo {
      var m := if i < j then i else if h.free[j].size == n then i + 1 else i;
      assert r[i].addr == h.free[m].addr;
    }
  }

  lemma CoreOnePiece(s: State, c: nat, n: nat, lo: nat)
    requires Good(s) && OnePiece(s.h, lo) && c == s.h.brk
    ensures OnePiece(Morecore(s, c, n).h, lo)
  {
    CoreInv(s.h, c, CoreUnits(n));
    hide Inv;
    FreeOnePiece(Core(s.h, c, CoreUnits(n)), c, lo);
  }

  lemma StepOnePiece(s: State, e: Event, lo: nat)
    requires Good(s) && OnePiece(s.h, lo) && SoleUser(s, e) && Step(s, e).Some?
    ensures OnePiece(Step(s, e).value.h, lo)
  {
    match e
    case Release(a) => FreeOnePiece(s.h, a, lo);
    case Alloc(n, core) =>
      var f := FirstFit(s.h.free, s.cur, n, 1);
      Anchored(s);
      if f.Some? {
        TakeOnePiece(s.h, f.value, n, lo);
      } else if core.Some? {
        CoreOnePiece(s, core.value, n, lo);
        MorecoreGood(s, core.value, n);
        MorecoreFits(s, core.value, n);
        hide Inv, OnePiece, FirstFit, Morecore, TakeBlock;
        var t := Morecore(s, core.value, n);
        Anchored(t);
        TakeOnePiece(t.h, FirstFit(t.h.free, t.cur, n, 1).value, n, lo);
      }
  }

  lemma {:induction false} RunOnePiece(base: nat, lo: nat, es: seq<Event>)
    requires base < lo && SoleUserRun(base, lo, es) && Exec(base, lo, es).Some?
    ensures OnePiece(Exec(base, lo, es).value.h, lo)
    ensures Exec(base, lo, es).value.h.base == base
    decreases |es|
  {
    if es != [] {
      RunOnePiece(base, lo, es[..|es| - 1]);
      StepOnePiece(Exec(base, lo, es[..|es| - 1]).value, es[|es| - 1], lo);
    }
  }

  /** The blocks from index `i` on fill their span less one byte, at least, for every gap. */
  lemma {:induction false} UnitsSpan(base: nat, free: seq<Blk>, brk: nat, i: nat)
    requires FreeOk(base, free, brk) && i < |free|
    ensures free[i].addr + 8 * FreeUnits(free[i..]) + (|free| - 1 - i) <= brk
    decreases |free| - i
  {
    assert free[i..] == [free[i]] + free[i + 1..];
    UnitsConcat([free[i]], free[i + 1..]);
    UnitsOne(free[i]);
    if i + 1 < |free| {
      assert Gap(free, i);
      UnitsSpan(base, free, brk, i + 1);
    } else {
      assert free[i + 1..] == [];
    }
  }

  lemma AllFreeIsOne(h: Heap, lo: nat)
    requires FreeOk(h.base, h.free, h.brk) && FreeUnits(h.free) == h.total && OnePiece(h, lo)
    ensures h.free == if h.total == 0 then [Blk(h.base, 0)] else [Blk(h.base, 0), Blk(lo, h.total)]
  {
    var f := h.free;
    assert f == [f[0]] + f[1..];
    UnitsConcat([f[0]], f[1..]);
    UnitsOne(f[0]);
    if |f| > 1 {
      UnitsSpan(h.base, f, h.brk, 1);
      Ordered(h.base, f, h.brk, 0, 1);
      assert |f| == 2 && f[1].addr == lo by { hide FreeOk, FreeUnits; }
      assert f[1..] == [f[1]];
      UnitsOne(f[1]);
    } else {
      assert f[1..] == [];
    }
  }

  /** When only `malloc` grows the process, giving everything back leaves no fragments: the free list
  holds one block with all the memory ever obtained. */
  lemma GivenBackMerges(base: nat, lo: nat, es: seq<Event>)
    requires base < lo && SoleUserRun(base, lo, es) && Exec(base, lo, es).Some?
    requires Exec(base, lo, es).value.h.live == map[]
    ensures var h := Exec(base, lo, es).value.h;
      h.free == if h.total == 0 then [Blk(base, 0)] else [Blk(base, 0), Blk(lo, h.total)]
  {
    RunOnePiece(base, lo, es);
    AllFreeIsOne(Exec(base, lo, es).value.h, lo);
  }
}
