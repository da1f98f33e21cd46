/** The allocator as `umalloc.c` runs it: headers linked into a ring, changed one field at a time. */
module UmallocCode {
  import opened Common
  import opened Umalloc
  import R = UmallocRuns

  /** The address of the block at index `i`, the ring closing at the base. */
  function At(free: seq<Blk>, i: nat): nat
    requires |free| >= 1
  {
    if i < |free| then free[i].addr else free[0].addr
  }

  predicate LinkAt(next: map<nat, nat>, size: map<nat, nat>, free: seq<Blk>, i: nat)
    requires i < |free|
  {
    && free[i].addr in next && next[free[i].addr] == At(free, i + 1)
    && free[i].addr in size && size[free[i].addr] == free[i].size
  }

  /** The headers in memory form the ring that `free` lists. */
  predicate Linked(next: map<nat, nat>, size: map<nat, nat>, free: seq<Blk>) {
    forall i: nat | i < |free| :: LinkAt(next, size, free, i)
  }

  predicate Sized(size: map<nat, nat>, live: map<nat, nat>) {
    forall a | a in live :: a in size && size[a] == live[a]
  }

  /** The headers of the block at `i` are the same in both memories. */
  predicate Same(next: map<nat, nat>, size: map<nat, nat>, next2: map<nat, nat>, size2: map<nat, nat>, a: nat) {
    && a in next && a in size && a in next2 && a in size2
    && next2[a] == next[a] && size2[a] == size[a]
  }

  lemma LinkedReplace(next: map<nat, nat>, size: map<nat, nat>, next2: map<nat, nat>, size2: map<nat, nat>,
                      free: seq<Blk>, m: nat, s: nat, j: Blk)
    requires Linked(next, size, free) && 1 <= m <= s <= |free|
    requires forall i | 0 <= i < m - 1 || s <= i < |free| :: Same(next, size, next2, size2, free[i].addr)
    requires var a := free[m - 1].addr; a in next2 && a in size2 && next2[a] == j.addr && size2[a] == free[m - 1].size
    requires j.addr in next2 && j.addr in size2 && next2[j.addr] == At(free, s) && size2[j.addr] == j.size
    ensures Linked(next2, size2, Replace(free, m, s, [j]))
  {
    var r := Replace(free, m, s, [j]);
    forall i: nat | i < |r| ensures LinkAt(next2, size2, r, i) {
      if i < m {
        assert r[i] == free[i] && LinkAt(next, size, free, i);
        assert At(r, i + 1) == if i + 1 < m then free[i + 1].addr else j.addr;
      } else if i == m {
        assert At(r, i + 1) == At(free, s);
      } else {
        var o := i - m - 1 + s;
        assert r[i] == free[o] && LinkAt(next, size, free, o);
        assert At(r, i + 1) == At(free, o + 1);
      }
    }
  }

  lemma LinkedRemove(next: map<nat, nat>, size: map<nat, nat>, next2: map<nat, nat>, free: seq<Blk>, m: nat)
    requires Linked(next, size, free) && 1 <= m < |free|
    requires forall i | 0 <= i < |free| && i != m - 1 :: Same(next, size, next2, size, free[i].addr)
    requires var a := free[m - 1].addr; a in next2 && next2[a] == At(free, m + 1)
    ensures Linked(next2, size, Replace(free, m, m + 1, []))
  {
    var r := Replace(free, m, m + 1, []);
    forall i: nat | i < |r| ensures LinkAt(next2, size, r, i) {
      var o := if i < m then i else i + 1;
      assert r[i] == free[o] && LinkAt(next, size, free, o);
      assert At(r, i + 1) == if i == m - 1 then At(free, m + 1) else At(free, o + 1);
    }
  }

  lemma LinkedSame(next: map<nat, nat>, size: map<nat, nat>, next2: map<nat, nat>, size2: map<nat, nat>, free: seq<Blk>)
    requires Linked(next, size, free)
    requires forall i | 0 <= i < |free| :: Same(next, size, next2, size2, free[i].addr)
    ensures Linked(next2, size2, free)
  {
    forall i: nat | i < |free| ensures LinkAt(next2, size2, free, i) {
      assert LinkAt(next, size, free, i);
    }
  }

  /** Distinct blocks have distinct headers. */
  lemma Distinct(base: nat, free: seq<Blk>, brk: nat)
    requires FreeOk(base, free, brk)
    ensures forall i, j | 0 <= i < j < |free| :: free[i].addr < free[j].addr
  {
    forall i, j | 0 <= i < j < |free| ensures free[i].addr < free[j].addr {
      Ordered(base, free, brk, i, j);
    }
  }

  /** A block clear of the ring has a header of its own. */
  lemma OwnHeader(base: nat, free: seq<Blk>, brk: nat, x: Blk)
    requires FreeOk(base, free, brk) && x.size >= 1 && base < x.addr && Clear(x, free)
    ensures forall i | 0 <= i < |free| :: free[i].addr != x.addr
  {
    forall i | 0 <= i < |free| ensures free[i].addr != x.addr {
      assert Apart(x, free[i]);
    }
  }

  /** The search in `free` stops exactly at the last block below `bp`. */
  predicate Stops(p: nat, q: nat, bp: nat) {
    (bp > p && bp < q) || (p >= q && (bp > p || bp < q))
  }

  lemma StopsAtSpot(base: nat, free: seq<Blk>, brk: nat, bp: nat, i: nat)
    requires FreeOk(base, free, brk) && base < bp && i < |free|
    requires forall j | 0 <= j < |free| :: free[j].addr != bp
    ensures Stops(free[i].addr, At(free, i + 1), bp) <==> i == Spot(free, bp)
  {
    var k := Spot(free, bp);
    SpotNext(free, bp);
    Distinct(base, free, brk);
  }

  /** How many steps round the ring lead from `i` to `k`. */
  function Ahead(i: nat, k: nat, n: nat): nat
    requires i < n && k < n
  {
    if i <= k then k - i else k + n - i
  }

  /** The header fields `free` leaves at `p` and at the freed block. */
  predicate Rewired(next2: map<nat, nat>, size2: map<nat, nat>, free: seq<Blk>, k: nat, b: Blk)
    requires k < |free|
  {
    var p, g, q := free[k].addr, Grown(free, k, b), At(free, Behind(free, k, b));
    && p in next2 && p in size2
    && (if Down(free, k, b) then next2[p] == q && size2[p] == free[k].size + g.size else
        && next2[p] == b.addr && size2[p] == free[k].size
        && b.addr in next2 && b.addr in size2 && next2[b.addr] == q && size2[b.addr] == g.size)
  }

  lemma LinkedInsert(next: map<nat, nat>, size: map<nat, nat>, next2: map<nat, nat>, size2: map<nat, nat>,
                     base: nat, free: seq<Blk>, brk: nat, k: nat, b: Blk)
    requires FreeOk(base, free, brk) && Fits(base, free, k, b) && Linked(next, size, free)
    requires forall i | 0 <= i < |free| && i != k :: Same(next, size, next2, size2, free[i].addr)
    requires Rewired(next2, size2, free, k, b)
    ensures Linked(next2, size2, Insert(free, k, b))
  {
    var g, s := Grown(free, k, b), Behind(free, k, b);
    assert LinkAt(next, size, free, k);
    if Down(free, k, b) {
      assert LinkAt(next, size, free, k - 1);
      hide Linked;
      LinkedReplace(next, size, next2, size2, free, k, s, Blk(free[k].addr, free[k].size + g.size));
    } else {
      hide Linked;
      LinkedReplace(next, size, next2, size2, free, k + 1, s, g);
    }
  }

  /** Outside `xs` nothing changed. */
  predicate Kept(m: map<nat, nat>, m2: map<nat, nat>, xs: set<nat>) {
    forall a | a in m && a !in xs :: a in m2 && m2[a] == m[a]
  }

  lemma LiveHeader(h: Heap, a: nat)
    requires FreeOk(h.base, h.free, h.brk) && LiveOk(h) && a in h.live
    ensures forall i | 0 <= i < |h.free| :: h.free[i].addr != a
  {
    OwnHeader(h.base, h.free, h.brk, Blk(a, h.live[a]));
  }

  /** The block before the freed one keeps its place and its header. */
  lemma FreedKeepsPlace(h: Heap, a: nat)
    requires Inv(h) && a in h.live
    ensures var k := Spot(h.free, a);
      k < |FreeBlock(h, a).free| && FreeBlock(h, a).free[k].addr == h.free[k].addr
  {
  }

  lemma KeptLinks(next: map<nat, nat>, size: map<nat, nat>, next2: map<nat, nat>, size2: map<nat, nat>,
                  base: nat, free: seq<Blk>, brk: nat, k: nat, a: nat, i: nat)
    requires FreeOk(base, free, brk) && Linked(next, size, free) && k < |free| && i < |free| && i != k
    requires forall j | 0 <= j < |free| :: free[j].addr != a
    requires Kept(next, next2, {free[k].addr, a}) && Kept(size, size2, {free[k].addr, a})
    ensures Same(next, size, next2, size2, free[i].addr)
  {
    assert LinkAt(next, size, free, i);
    Ordered(base, free, brk, if i < k then i else k, if i < k then k else i);
  }

  lemma KeptSizes(size: map<nat, nat>, size2: map<nat, nat>, h: Heap, k: nat, a: nat)
    requires FreeOk(h.base, h.free, h.brk) && LiveOk(h) && Sized(size, h.live) && k < |h.free|
    requires Kept(size, size2, {h.free[k].addr, a})
    ensures Sized(size2, h.live - {a})
  {
    forall c | c in h.live - {a} ensures c in size2 && size2[c] == h.live[c] {
      LiveHeader(h, c);
    }
  }

  lemma Freed(next: map<nat, nat>, size: map<nat, nat>, next2: map<nat, nat>, size2: map<nat, nat>, h: Heap, a: nat)
    requires Inv(h) && a in h.live && Linked(next, size, h.free) && Sized(size, h.live)
    requires var k := Spot(h.free, a);
      && Rewired(next2, size2, h.free, k, Blk(a, h.live[a]))
      && Kept(next, next2, {h.free[k].addr, a}) && Kept(size, size2, {h.free[k].addr, a})
    ensures Linked(next2, size2, FreeBlock(h, a).free) && Sized(size2, FreeBlock(h, a).live)
  {
    var k, b := Spot(h.free, a), Blk(a, h.live[a]);
    SpotFits(h, a);
    hide Spot, Linked, Rewired, Kept, Insert, LiveOk, FreeOk, Fits, Same, Sized;
    LiveHeader(h, a);
    forall i | 0 <= i < |h.free| && i != k ensures Same(next, size, next2, size2, h.free[i].addr) {
      KeptLinks(next, size, next2, size2, h.base, h.free, h.brk, k, a, i);
    }
    KeptSizes(size, size2, h, k, a);
    LinkedInsert(next, size, next2, size2, h.base, h.free, h.brk, k, b);
  }

  lemma CoreHeader(next: map<nat, nat>, size: map<nat, nat>, h: Heap, c: nat, nu: nat)
    requires Inv(h) && c >= h.brk && Linked(next, size, h.free) && Sized(size, h.live)
    ensures Linked(next, size[c := nu], h.free) && Sized(size[c := nu], h.live[c := nu])
  {
    forall i | 0 <= i < |h.free| ensures Same(next, size, next, size[c := nu], h.free[i].addr) {
      assert LinkAt(next, size, h.free, i);
      Ordered(h.base, h.free, h.brk, i, i);
    }
    LinkedSame(next, size, next, size[c := nu], h.free);
  }

  /** The fields `malloc` leaves after handing out `n` units of the block at `j`. */
  predicate Cut(next: map<nat, nat>, size: map<nat, nat>, next2: map<nat, nat>, size2: map<nat, nat>,
                free: seq<Blk>, j: nat, n: nat)
    requires 1 <= j < |free| && n <= free[j].size
  {
    var b := free[j];
    if b.size == n then
      next2 == next[free[j - 1].addr := At(free, j + 1)] && size2 == size
    else
      next2 == next && size2 == size[b.addr := b.size - n][TailOf(b, n) := n]
  }

  lemma CutSizes(next: map<nat, nat>, size: map<nat, nat>, next2: map<nat, nat>, size2: map<nat, nat>,
                 h: Heap, j: nat, n: nat)
    requires Inv(h) && Linked(next, size, h.free) && Sized(size, h.live)
    requires 1 <= j < |h.free| && 1 <= n <= h.free[j].size && Cut(next, size, next2, size2, h.free, j, n)
    ensures Sized(size2, TakeBlock(h, j, n).live)
  {
    assert LinkAt(next, size, h.free, j);
    TakeInv(h, j, n);
    hide FreeOk, LiveOk, FreeUnits, LiveUnits, Linked;
    forall a | a in h.live ensures h.free[j].addr != a {
      LiveHeader(h, a);
    }
  }

  lemma CutLinks(next: map<nat, nat>, size: map<nat, nat>, next2: map<nat, nat>, size2: map<nat, nat>,
                 base: nat, free: seq<Blk>, brk: nat, j: nat, n: nat)
    requires FreeOk(base, free, brk) && Linked(next, size, free)
    requires 1 <= j < |free| && 1 <= n < free[j].size && Cut(next, size, next2, size2, free, j, n)
    ensures Linked(next2, size2, Replace(free, j, j + 1, [Blk(free[j].addr, free[j].size - n)]))
  {
    forall i | 0 <= i < |free| && i != j ensures Same(next, size, next2, size2, free[i].addr) {
      assert LinkAt(next, size, free, i);
      Ordered(base, free, brk, if i < j then i else j, if i < j then j else i);
    }
    assert LinkAt(next, size, free, j - 1);
    assert LinkAt(next, size, free, j);
    hide Linked, FreeOk, Same;
    LinkedReplace(next, size, next2, size2, free, j, j + 1, Blk(free[j].addr, free[j].size - n));
  }

  lemma Taken(next: map<nat, nat>, size: map<nat, nat>, next2: map<nat, nat>, size2: map<nat, nat>,
              h: Heap, j: nat, n: nat)
    requires Inv(h) && Linked(next, size, h.free) && Sized(size, h.live)
    requires 1 <= j < |h.free| && 1 <= n <= h.free[j].size && Cut(next, size, next2, size2, h.free, j, n)
    ensures Linked(next2, size2, TakeBlock(h, j, n).free) && Sized(size2, TakeBlock(h, j, n).live)
  {
    CutSizes(next, size, next2, size2, h, j, n);
    if h.free[j].size == n {
      forall i | 0 <= i < |h.free| && i != j - 1 ensures Same(next, size, next2, size, h.free[i].addr) {
        assert LinkAt(next, size, h.free, i);
        Ordered(h.base, h.free, h.brk, if i < j then i else j - 1, if i < j then j - 1 else i);
      }
      hide Linked, Inv, Same, Sized;
      LinkedRemove(next, size, next2, h.free, j);
    } else {
      hide Linked, FreeOk, LiveOk, Cut, Sized;
      CutLinks(next, size, next2, size2, h.base, h.free, h.brk, j, n);
    }
  }

  class UserHeap {
    const base: nat
    var next: map<nat, nat>
    var size: map<nat, nat>
    var freep: nat
    ghost var s: R.State

    ghost predicate Ring()
      reads this
    {
      && R.Good(s) && s.h.base == base && base >= 1
      && Linked(next, size, s.h.free) && Sized(size, s.h.live)
      && freep == s.h.free[s.cur].addr
    }

    ghost predicate Valid()
      reads this
    {
      if freep == 0 then base >= 1 && base < s.h.brk && s == R.Boot(base, s.h.brk) else Ring()
    }

    /** What a header on the ring says, and that it names its block. */
    lemma Here(i: nat)
      requires Ring() && i < |s.h.free|
      ensures LinkAt(next, size, s.h.free, i) && s.h.free[i].addr >= 1
      ensures forall j | 0 <= j < |s.h.free| :: s.h.free[j].addr == s.h.free[i].addr ==> j == i
      ensures R.Good(s) && s.h.free[0].size == 0 && s.h.free[0].addr < s.h.brk
      ensures freep == s.h.free[s.cur].addr
    {
      Distinct(base, s.h.free, s.h.brk);
    }

    /** The search of `malloc` stands at the `d`-th block after `freep`, having passed none that fits. */
    ghost predicate Looking(n: nat, d: nat, prevp: nat, p: nat)
      reads this
    {
      && Ring() && 1 <= d <= |s.h.free|
      && prevp == s.h.free[R.Wrap(s.cur + d - 1, |s.h.free|)].addr
      && p == s.h.free[R.Wrap(s.cur + d, |s.h.free|)].addr
      && R.FirstFit(s.h.free, s.cur, n, d) == R.FirstFit(s.h.free, s.cur, n, 1)
    }

    lemma LookStart(n: nat)
      requires Ring()
      ensures R.Good(s) && freep != 0 && freep in next && Looking(n, 1, freep, next[freep])
    {
      Here(s.cur);
    }

    /** One look: the block fits, or the search goes on, or it has come round and nothing fits. */
    lemma Look(n: nat, d: nat, prevp: nat, p: nat) returns (j: nat)
      requires Looking(n, d, prevp, p) && n >= 1
      ensures R.Good(s) && p in size && p in next && d <= |s.h.free|
      ensures size[p] >= n ==>
        && R.FirstFit(s.h.free, s.cur, n, 1) == Some(j) && 1 <= j < |s.h.free| && n <= s.h.free[j].size
        && prevp == s.h.free[j - 1].addr && p == s.h.free[j].addr
      ensures size[p] < n && p != freep ==> d < |s.h.free| && Looking(n, d + 1, p, next[p])
      ensures size[p] < n && p == freep ==> R.FirstFit(s.h.free, s.cur, n, 1).None?
    {
      j := R.Wrap(s.cur + d, |s.h.free|);
      Here(j);
      R.FitHere(s.h.free, s.cur, n, d);
    }

    constructor (base: nat, brk: nat)
      requires 1 <= base < brk
      ensures Valid() && this.base == base && s == R.Boot(base, brk)
    {
      this.base := base;
      next, size, freep := map[], map[], 0;
      s := R.Boot(base, brk);
    }

    /** The loop of `free`: however the ring is entered, the search comes to the right place in less
    than one trip round it. */
    method FindSpot(bp: nat) returns (p: nat, ghost steps: nat)
      requires Ring() && bp > base
      requires forall j | 0 <= j < |s.h.free| :: s.h.free[j].addr != bp
      ensures p == s.h.free[Spot(s.h.free, bp)].addr
      ensures steps == Ahead(s.cur, Spot(s.h.free, bp), |s.h.free|) < |s.h.free|
    {
      ghost var free, k, i := s.h.free, Spot(s.h.free, bp), s.cur;
      p, steps := freep, 0;
      assert LinkAt(next, size, free, i);
      while !(bp > p && bp < next[p])
        invariant 0 <= i < |free| && p == free[i].addr && p in next && next[p] == At(free, i + 1)
        invariant k < |free| && steps + Ahead(i, k, |free|) == Ahead(s.cur, k, |free|)
        decreases Ahead(i, k, |free|)
      {
        StopsAtSpot(base, free, s.h.brk, bp, i);
        if p >= next[p] && (bp > p || bp < next[p]) {
          break;
        }
        p, steps := next[p], steps + 1;
        i := if i + 1 < |free| then i + 1 else 0;
        assert LinkAt(next, size, free, i);
      }
      StopsAtSpot(base, free, s.h.brk, bp, i);
    }

    /** The fields `free` changes once it has found `p`. */
    method Rewire(bp: nat, p: nat, ghost k: nat, ghost b: Blk)
      requires Ring() && k < |s.h.free| && p == s.h.free[k].addr
      requires Fits(base, s.h.free, k, b) && b.addr == bp && bp in size && size[bp] == b.size
      requires forall j | 0 <= j < |s.h.free| :: s.h.free[j].addr != bp
      modifies this`next, this`size
      ensures Rewired(next, size, s.h.free, k, b)
      ensures Kept(old(next), next, {p, bp}) && Kept(old(size), size, {p, bp})
    {
      ghost var free := s.h.free;
      assert LinkAt(next, size, free, k);
      if k + 1 < |free| {
        assert LinkAt(next, size, free, k + 1);
      } else {
        assert LinkAt(next, size, free, 0);
      }
      hide Linked, R.Good, Sized;
      var q := next[p];
      if bp + 8 * size[bp] == q {
        size := size[bp := size[bp] + size[q]];
        next := next[bp := next[q]];
      } else {
        next := next[bp := q];
      }
      if p + 8 * size[p] == bp {
        size := size[p := size[p] + size[bp]];
        next := next[p := next[bp]];
      } else {
        next := next[p := bp];
      }
    }

    /** `free`: the block joins the ring, in place and merged with the neighbours it touches. */
    method Free(ap: nat)
      requires Ring() && ap >= 8 && ap - 8 in s.h.live
      modifies this
      ensures Ring() && s == R.Free(old(s), ap - 8)
    {
      var bp := ap - 8;
      ghost var k := Spot(s.h.free, bp);
      ghost var next0, size0, h := next, size, s.h;
      SpotFits(h, bp);
      assert Sized(size0, h.live);
      LiveHeader(h, bp);
      ghost var steps;
      var p;
      p, steps := FindSpot(bp);
      Rewire(bp, p, k, Blk(bp, h.live[bp]));
      Freed(next0, size0, next, size, h, bp);
      R.FreeGood(s, bp);
      freep := p;
      s := R.Free(s, bp);
      FreedKeepsPlace(h, bp);
    }

    /** `morecore`: the memory `sbrk` grants goes through `free` like any other block. */
    method Morecore(n: nat, core: Option<nat>) returns (p: nat)
      requires Ring() && (core.Some? ==> core.value >= s.h.brk)
      modifies this
      ensures Ring()
      ensures core.None? ==> p == 0 && s == old(s) && freep == old(freep)
      ensures core.Some? ==> p == freep && s == R.Morecore(old(s), core.value, n)
    {
      var nu := R.CoreUnits(n);
      if core.None? {
        return 0;
      }
      var hp := core.value;
      CoreInv(s.h, hp, nu);
      CoreHeader(next, size, s.h, hp, nu);
      hide Inv, Linked, Sized, R.CoreUnits, R.Free;
      size := size[hp := nu];
      s := R.State(Core(s.h, hp, nu), s.cur);
      Free(hp + 8);
      p := freep;
    }

    /** The part of `malloc` that unlinks a block, or cuts its tail off. */
    method HandOut(prevp: nat, p: nat, n: nat, ghost j: nat) returns (r: nat)
      requires Ring() && 1 <= j < |s.h.free| && 1 <= n <= s.h.free[j].size
      requires prevp == s.h.free[j - 1].addr && p == s.h.free[j].addr
      modifies this
      ensures Ring() && s == R.Take(old(s), j, n) && r == TailOf(old(s.h.free[j]), n) + 8
    {
      ghost var next0, size0, h := next, size, s.h;
      assert LinkAt(next, size, h.free, j);
      assert LinkAt(next, size, h.free, j - 1);
      var q := p;
      if size[p] == n {
        next := next[prevp := next[p]];
      } else {
        size := size[p := size[p] - n];
        q := p + 8 * size[p];
        size := size[q := n];
      }
      Taken(next0, size0, next, size, h, j, n);
      TakeInv(h, j, n);
      freep := prevp;
      s := R.Take(s, j, n);
      r := q + 8;
    }

    /** The first call closes the ring on the static header alone. */
    method Start() returns (prevp: nat)
      requires Valid()
      modifies this`next, this`size, this`freep
      ensures Ring() && prevp == freep
    {
      prevp := freep;
      if prevp == 0 {
        prevp, freep := base, base;
        next, size := next[base := base], size[base := 0];
        R.BootGood(base, s.h.brk);
      }
    }

    /** How many blocks the search has looked at on its first trip, and on the one after new core. */
    ghost predicate Counted(s0: R.State, calls: nat, d: nat, looks: nat, again: nat)
      reads this
    {
      if calls == 0 then looks + 1 == d && again == 0 && s == s0
      else looks <= |s0.h.free| && again + 1 == d
    }

    /** The search for `n` units that began in `s0` stands at `p`. */
    ghost predicate Searching(s0: R.State, n: nat, core: Option<nat>, calls: nat, d: nat, prevp: nat, p: nat,
                              looks: nat, again: nat)
      reads this
    {
      && n >= 1 && calls <= 1 && R.Good(s0) && (core.Some? ==> core.value >= s0.h.brk)
      && Looking(n, d, prevp, p) && R.Phase(s0, s, n, core, calls) && Counted(s0, calls, d, looks, again)
    }

    /** The answer `malloc` owes for a request of `n` units made in `s0`. */
    ghost predicate Answered(s0: R.State, n: nat, core: Option<nat>, r: nat, calls: nat, looks: nat, again: nat)
      reads this
      requires R.Good(s0) && n >= 1 && (core.Some? ==> core.value >= s0.h.brk)
    {
      var reply := R.Malloc(s0, n, core);
      && Ring() && s == reply.s && r == (match reply.addr { case Some(a) => a + 8 case None => 0 })
      && calls <= 1 && looks <= |s0.h.free|
      && again <= (if core.Some? && calls == 1 then |R.Morecore(s0, core.value, n).h.free| else 0)
    }

    /** The block does not fit and is not the last of the trip. */
    lemma SearchOn(s0: R.State, n: nat, core: Option<nat>, calls: nat, d: nat, prevp: nat, p: nat,
                   looks: nat, again: nat)
      requires Searching(s0, n, core, calls, d, prevp, p, looks, again)
      ensures d <= |s.h.free| && p in size && p in next
      ensures size[p] < n && p != freep ==>
        && d < |s.h.free|
        && Searching(s0, n, core, calls, d + 1, p, next[p],
                     if calls == 0 then looks + 1 else looks, if calls == 0 then again else again + 1)
    {
      hide R.Good, R.Phase;
      var j := Look(n, d, prevp, p);
      hide Looking;
    }

    /** The block fits and is handed out. */
    method Found(ghost s0: R.State, n: nat, ghost core: Option<nat>, ghost calls: nat, ghost d: nat,
                 prevp: nat, p: nat, ghost looks: nat, ghost again: nat)
      returns (r: nat)
      requires Searching(s0, n, core, calls, d, prevp, p, looks, again) && p in size && size[p] >= n
      modifies this
      ensures R.Good(s0) && n >= 1 && (core.Some? ==> core.value >= s0.h.brk)
      ensures Answered(s0, n, core, r, calls, if calls == 0 then looks + 1 else looks,
                       if calls == 0 then again else again + 1)
    {
      ghost var j := Look(n, d, prevp, p);
      R.PhaseFound(s0, s, n, core, calls, j);
      R.PhaseState(s0, s, n, core, calls);
      hide Looking, Ring, R.Good, R.Phase, R.Malloc, R.Morecore, R.FirstFit, R.Take;
      r := HandOut(prevp, p, n, j);
    }

    /** The trip is over without success: more core, once, or failure. */
    method GetCore(ghost s0: R.State, n: nat, core: Option<nat>, ghost calls: nat, ghost d: nat,
                   ghost prevp: nat, p: nat, ghost looks: nat, ghost again: nat)
      returns (q: nat)
      requires Searching(s0, n, core, calls, d, prevp, p, looks, again)
      requires p in size && size[p] < n && p == freep
      modifies this
      ensures R.Good(s0) && n >= 1 && (core.Some? ==> core.value >= s0.h.brk) && calls == 0
      ensures q == 0 ==> Answered(s0, n, core, 0, 1, looks + 1, 0)
      ensures q != 0 ==> q in next && Searching(s0, n, core, 1, 1, q, next[q], looks + 1, 0)
    {
      ghost var j := Look(n, d, prevp, p);
      R.PhaseMissed(s0, s, n, core, calls);
      hide Looking, R.Good, R.Phase, R.Malloc, R.Morecore, R.FirstFit, R.Take;
      q := Morecore(n, core);
      LookStart(n);
      hide Ring;
    }

    /** `malloc` refines the first-fit specification, asks for core at most once, and looks at each
    block of the ring at most once on each trip: `looks` counts for the first trip, `again` for the
    one after new core. A request whose size `sbrk` would be asked for wrongly must not be granted
    core. */
    method Malloc(nbytes: nat, core: Option<nat>) returns (r: nat, calls: nat, ghost looks: nat, ghost again: nat)
      requires Valid() && nbytes < WORD
      requires core.Some? ==>
        core.value >= s.h.brk && R.Asked(R.CoreUnits(R.Units(nbytes))) == 8 * R.CoreUnits(R.Units(nbytes))
      modifies this
      ensures R.Good(old(s)) && Answered(old(s), R.Units(nbytes), core, r, calls, looks, again)
    {
      var n := R.Units(nbytes);
      var prevp := Start();
      LookStart(n);
      R.PhaseStart(s, n, core);
      hide Ring, Looking, R.Good, R.Phase, R.Asked, R.Units, Answered;
      var p := next[prevp];
      calls, looks, again := 0, 0, 0;
      ghost var d, s0 := 1, s;
      assert Searching(s0, n, core, calls, d, prevp, p, looks, again);
      hide Searching;
      while true
        invariant Searching(s0, n, core, calls, d, prevp, p, looks, again) && calls <= 1
        decreases 1 - calls, |s.h.free| - d
      {
        SearchOn(s0, n, core, calls, d, prevp, p, looks, again);
        if size[p] >= n {
          r := Found(s0, n, core, calls, d, prevp, p, looks, again);
          if calls == 0 { looks := looks + 1; } else { again := again + 1; }
          return;
        }
        if p == freep {
          p := GetCore(s0, n, core, calls, d, prevp, p, looks, again);
          calls, looks := 1, looks + 1;
          if p == 0 {
            return 0, calls, looks, again;
          }
          prevp, p, d := p, next[p], 1;
        } else {
          if calls == 0 { looks := looks + 1; } else { again := again + 1; }
          prevp, p, d := p, next[p], d + 1;
        }
      }
    }
  }
}
