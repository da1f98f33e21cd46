/** The user heap of `umalloc.c`: a circular, address-ordered free list whose neighbours are joined
when they touch (section 8.7 of The C Programming Language, 2nd edition). Addresses are in bytes;
block sizes count headers of eight bytes, as the code's `size` field does. */
module Umalloc {

  datatype Blk = Blk(addr: nat, size: nat) {
    function End(): nat { addr + 8 * size }
  }

  /** `free` lists the free ring in address order from the static header `base`; `live` holds the
  blocks handed out; `brk` is the end of the memory obtained, and `total` how much was obtained. */
  datatype Heap = Heap(base: nat, free: seq<Blk>, live: map<nat, nat>, brk: nat, total: nat)

  /** Address order with a gap between neighbours: no two free blocks overlap or touch. */
  predicate FreeOk(base: nat, free: seq<Blk>, brk: nat) {
    && |free| >= 1 && free[0] == Blk(base, 0) && base < brk
    && (forall i | 0 < i < |free| :: free[i].size >= 1)
    && (forall i: nat | i + 1 < |free| :: Gap(free, i))
    && free[|free| - 1].End() <= brk
  }

  predicate Gap(free: seq<Blk>, i: nat)
    requires i + 1 < |free|
  {
    free[i].End() < free[i + 1].addr
  }

  lemma {:induction false} Ordered(base: nat, free: seq<Blk>, brk: nat, i: nat, j: nat)
    requires FreeOk(base, free, brk) && i <= j < |free|
    ensures free[j].End() <= brk
    ensures j >= 1 ==> free[j].size >= 1
    ensures i < j ==> free[i].End() < free[j].addr
    decreases |free| - i, j - i
  {
    if i < j {
      assert Gap(free, j - 1);
      Ordered(base, free, brk, i, j - 1);
    }
    if j + 1 < |free| {
      assert Gap(free, j);
      Ordered(base, free, brk, j + 1, j + 1);
    }
  }

  predicate Apart(x: Blk, y: Blk) {
    x.End() <= y.addr || y.End() <= x.addr
  }

  /** `x` overlaps no free block. */
  predicate Clear(x: Blk, free: seq<Blk>) {
    forall i | 0 <= i < |free| :: Apart(x, free[i])
  }

  predicate LiveOk(h: Heap) {
    && (forall a | a in h.live :: h.live[a] >= 1 && h.base < a && Blk(a, h.live[a]).End() <= h.brk)
    && (forall a, b | a in h.live && b in h.live && a != b :: Apart(Blk(a, h.live[a]), Blk(b, h.live[b])))
    && (forall a | a in h.live :: Clear(Blk(a, h.live[a]), h.free))
  }

  function FreeUnits(free: seq<Blk>): nat
    decreases |free|
  {
    if free == [] then 0 else free[0].size + FreeUnits(free[1..])
  }

  ghost function LiveUnits(live: map<nat, nat>): nat
    decreases |live|
  {
    if live == map[] then 0 else
    var a :| a in live;
    live[a] + LiveUnits(live - {a})
  }

  /** Blocks are disjoint, ordered and joined, and no unit is lost. */
  ghost predicate Inv(h: Heap) {
    && FreeOk(h.base, h.free, h.brk) && LiveOk(h)
    && FreeUnits(h.free) + LiveUnits(h.live) == h.total
  }

  // ---------- sums ----------

  lemma {:induction false} UnitsConcat(a: seq<Blk>, b: seq<Blk>)
    ensures FreeUnits(a + b) == FreeUnits(a) + FreeUnits(b)
    decreases |a|
  {
    if a == [] {
      assert a + b == b;
    } else {
      assert (a + b)[1..] == a[1..] + b;
      UnitsConcat(a[1..], b);
    }
  }

  lemma UnitsOne(b: Blk)
    ensures FreeUnits([b]) == b.size
  {
  }

  lemma {:induction false} LiveRemove(live: map<nat, nat>, a: nat)
    requires a in live
    ensures LiveUnits(live) == live[a] + LiveUnits(live - {a})
    decreases |live|
  {
    var x :| x in live && LiveUnits(live) == live[x] + LiveUnits(live - {x});
    if x != a {
      LiveRemove(live - {x}, a);
      LiveRemove(live - {a}, x);
      assert live - {x} - {a} == live - {a} - {x};
    }
  }

  lemma LiveAdd(live: map<nat, nat>, a: nat, n: nat)
    requires a !in live
    ensures LiveUnits(live[a := n]) == LiveUnits(live) + n
  {
    LiveRemove(live[a := n], a);
    assert live[a := n] - {a} == live;
  }

  // ---------- changing the ring ----------

  /** The blocks from index `m` to below `s` give way to `js` (one block or none). */
  function Replace(free: seq<Blk>, m: nat, s: nat, js: seq<Blk>): seq<Blk>
    requires m <= s <= |free|
  {
    free[..m] + js + free[s..]
  }

  lemma ReplaceOk(base: nat, free: seq<Blk>, brk: nat, m: nat, s: nat, j: Blk)
    requires FreeOk(base, free, brk) && 1 <= m <= s <= |free|
    requires j.size >= 1 && j.End() <= brk && free[m - 1].End() < j.addr
    requires s < |free| ==> j.End() < free[s].addr
    ensures FreeOk(base, Replace(free, m, s, [j]), brk)
  {
    var r := Replace(free, m, s, [j]);
    forall i: nat | i + 1 < |r| ensures Gap(r, i) {
      if i + 1 < m {
        assert Gap(free, i);
      } else if i > m {
        assert Gap(free, i - m - 1 + s);
      }
    }
  }

  lemma RemoveOk(base: nat, free: seq<Blk>, brk: nat, m: nat)
    requires FreeOk(base, free, brk) && 1 <= m < |free|
    ensures FreeOk(base, Replace(free, m, m + 1, []), brk)
  {
    var r := Replace(free, m, m + 1, []);
    assert Gap(free, m - 1);
    forall i: nat | i + 1 < |r| ensures Gap(r, i) {
      if i + 1 < m {
        assert Gap(free, i);
      } else {
        assert Gap(free, i + 1);
      }
    }
    Ordered(base, free, brk, m - 1, m - 1);
  }

  lemma ReplaceUnits(free: seq<Blk>, m: nat, s: nat, js: seq<Blk>)
    requires m <= s <= |free|
    ensures FreeUnits(Replace(free, m, s, js)) + FreeUnits(free[m..s])
         == FreeUnits(free) + FreeUnits(js)
  {
    assert free == free[..m] + free[m..s] + free[s..];
    UnitsConcat(free[..m], free[m..s]);
    UnitsConcat(free[..m] + free[m..s], free[s..]);
    UnitsConcat(free[..m], js);
    UnitsConcat(free[..m] + js, free[s..]);
  }

  // ---------- freeing a block ----------

  /** `b` lies between the free blocks at `k` and `k + 1`, overlapping neither. */
  predicate Fits(base: nat, free: seq<Blk>, k: nat, b: Blk) {
    && k < |free| && b.size >= 1 && base < b.addr
    && free[k].addr < b.addr && free[k].End() <= b.addr
    && (k + 1 < |free| ==> b.End() <= free[k + 1].addr)
  }

  predicate Up(free: seq<Blk>, k: nat, b: Blk) {
    k + 1 < |free| && b.End() == free[k + 1].addr
  }

  /** The first block behind the joined one. */
  function Behind(free: seq<Blk>, k: nat, b: Blk): (s: nat)
    requires k < |free|
    ensures k + 1 <= s <= |free| && s <= k + 2
  {
    if Up(free, k, b) then k + 2 else k + 1
  }

  /** The block at `k` takes the new one in when they touch. */
  predicate Down(free: seq<Blk>, k: nat, b: Blk)
    requires k < |free|
  {
    free[k].End() == b.addr
  }

  /** `b` with the free block behind it, when they touch. */
  function Grown(free: seq<Blk>, k: nat, b: Blk): Blk {
    if Up(free, k, b) then Blk(b.addr, b.size + free[k + 1].size) else b
  }

  /** `free` inserts `b` after the block at index `k`, joined with the neighbours it touches. */
  function Insert(free: seq<Blk>, k: nat, b: Blk): seq<Blk>
    requires k < |free|
  {
    var g, s := Grown(free, k, b), Behind(free, k, b);
    if Down(free, k, b) then Replace(free, k, s, [Blk(free[k].addr, free[k].size + g.size)])
    else Replace(free, k + 1, s, [g])
  }

  lemma GrownOk(base: nat, free: seq<Blk>, brk: nat, k: nat, b: Blk)
    requires FreeOk(base, free, brk) && Fits(base, free, k, b) && b.End() <= brk
    ensures var g, s := Grown(free, k, b), Behind(free, k, b);
      && g.addr == b.addr && g.size >= 1 && g.End() <= brk
      && (s < |free| ==> g.End() < free[s].addr)
      && FreeUnits(free[k + 1..s]) + b.size == g.size
  {
    if Up(free, k, b) {
      Ordered(base, free, brk, k + 1, k + 1);
      if k + 2 < |free| { assert Gap(free, k + 1); }
      assert free[k + 1..k + 2] == [free[k + 1]];
    }
  }

  lemma InsertOk(base: nat, free: seq<Blk>, brk: nat, k: nat, b: Blk)
    requires FreeOk(base, free, brk) && Fits(base, free, k, b) && b.End() <= brk
    ensures FreeOk(base, Insert(free, k, b), brk)
  {
    GrownOk(base, free, brk, k, b);
    var g, s := Grown(free, k, b), Behind(free, k, b);
    if Down(free, k, b) {
      Ordered(base, free, brk, k - 1, k);
      hide FreeOk, Replace;
      ReplaceOk(base, free, brk, k, s, Blk(free[k].addr, free[k].size + g.size));
    } else {
      hide FreeOk, Replace;
      ReplaceOk(base, free, brk, k + 1, s, g);
    }
  }

  lemma InsertUnits(base: nat, free: seq<Blk>, brk: nat, k: nat, b: Blk)
    requires FreeOk(base, free, brk) && Fits(base, free, k, b) && b.End() <= brk
    ensures FreeUnits(Insert(free, k, b)) == FreeUnits(free) + b.size
  {
    GrownOk(base, free, brk, k, b);
    var g, s := Grown(free, k, b), Behind(free, k, b);
    hide FreeOk, Replace, Grown, Behind, FreeUnits;
    if Down(free, k, b) {
      var j := Blk(free[k].addr, free[k].size + g.size);
      ReplaceUnits(free, k, s, [j]);
      assert free[k..s] == [free[k]] + free[k + 1..s];
      UnitsConcat([free[k]], free[k + 1..s]);
      UnitsOne(free[k]);
      UnitsOne(j);
    } else {
      ReplaceUnits(free, k + 1, s, [g]);
      UnitsOne(g);
    }
  }

  /** The last free block below `a`. */
  function Spot(free: seq<Blk>, a: nat): (k: nat)
    requires |free| >= 1 && free[0].addr < a
    ensures k < |free| && free[k].addr < a
    ensures k + 1 < |free| ==> free[|free| - 1].addr < a || k < |free| - 1
    decreases |free|
  {
    if free[|free| - 1].addr < a then |free| - 1 else Spot(free[..|free| - 1], a)
  }

  lemma {:induction false} SpotNext(free: seq<Blk>, a: nat)
    requires |free| >= 1 && free[0].addr < a
    ensures var k := Spot(free, a); k + 1 < |free| ==> free[k + 1].addr >= a
    decreases |free|
  {
    if free[|free| - 1].addr >= a {
      SpotNext(free[..|free| - 1], a);
    }
  }

  lemma SpotFits(h: Heap, a: nat)
    requires FreeOk(h.base, h.free, h.brk) && LiveOk(h) && a in h.live
    ensures Fits(h.base, h.free, Spot(h.free, a), Blk(a, h.live[a]))
  {
    var k, b := Spot(h.free, a), Blk(a, h.live[a]);
    SpotNext(h.free, a);
    assert Clear(b, h.free);
    hide LiveOk, Spot;
    assert Apart(b, h.free[k]);
    if k + 1 < |h.free| {
      assert Apart(b, h.free[k + 1]);
    }
  }

  function FreeBlock(h: Heap, a: nat): Heap
    requires |h.free| >= 1 && h.free[0].addr < a && a in h.live
  {
    h.(free := Insert(h.free, Spot(h.free, a), Blk(a, h.live[a])), live := h.live - {a})
  }

  /** A block apart from `b` and from every free block is apart from the joined ones too. */
  lemma InsertClear(base: nat, free: seq<Blk>, brk: nat, k: nat, b: Blk, x: Blk)
    requires FreeOk(base, free, brk) && Fits(base, free, k, b) && b.End() <= brk
    requires x.size >= 1 && base < x.addr && Apart(x, b) && Clear(x, free)
    ensures Clear(x, Insert(free, k, b))
  {
    var g, s := Grown(free, k, b), Behind(free, k, b);
    assert Apart(x, g);
    var d := if Down(free, k, b) then k else k + 1;
    var r := Insert(free, k, b);
    assert Apart(x, free[k]);
    assert Apart(x, r[d]);
    forall i | 0 <= i < |r| ensures Apart(x, r[i]) {
      assert i < d ==> r[i] == free[i];
      assert i > d ==> r[i] == free[i - d - 1 + s];
    }
  }

  lemma FreeInv(h: Heap, a: nat)
    requires Inv(h) && a in h.live
    ensures Inv(FreeBlock(h, a))
  {
    var b, k := Blk(a, h.live[a]), Spot(h.free, a);
    SpotFits(h, a);
    InsertOk(h.base, h.free, h.brk, k, b);
    InsertUnits(h.base, h.free, h.brk, k, b);
    LiveRemove(h.live, a);
    var r := FreeBlock(h, a);
    assert LiveOk(r) by {
      forall c | c in r.live ensures Clear(Blk(c, r.live[c]), r.free) {
        InsertClear(h.base, h.free, h.brk, k, b, Blk(c, h.live[c]));
      }
    }
  }

  // ---------- obtaining memory ----------

  /** `sbrk` hands over `nu` units at `c`: a block like any other, which `morecore` then frees. */
  function Core(h: Heap, c: nat, nu: nat): Heap {
    h.(live := h.live[c := nu], brk := c + 8 * nu, total := h.total + nu)
  }

  lemma CoreFree(h: Heap, c: nat, nu: nat)
    requires FreeOk(h.base, h.free, h.brk) && c >= h.brk && nu >= 1
    ensures FreeOk(h.base, h.free, c + 8 * nu) && Clear(Blk(c, nu), h.free)
  {
    forall i | 0 <= i < |h.free| ensures Apart(Blk(c, nu), h.free[i]) {
      Ordered(h.base, h.free, h.brk, i, i);
    }
  }

  lemma LiveBelow(h: Heap, brk: nat)
    requires LiveOk(h) && h.brk <= brk
    ensures LiveOk(h.(brk := brk))
  {
    hide Clear, Apart;
  }

  lemma CoreLive(h: Heap, c: nat, nu: nat)
    requires LiveOk(h) && c >= h.brk && nu >= 1 && h.base < h.brk && Clear(Blk(c, nu), h.free)
    ensures LiveOk(Core(h, c, nu))
  {
    LiveBelow(h, c + 8 * nu);
    forall a | a in h.live ensures Apart(Blk(a, h.live[a]), Blk(c, nu)) && Clear(Blk(a, h.live[a]), h.free) {
    }
    hide LiveOk, Clear, Apart;
    LiveAdded(h.(brk := c + 8 * nu), h.free, c, nu);
  }

  lemma CoreInv(h: Heap, c: nat, nu: nat)
    requires Inv(h) && c >= h.brk && nu >= 1
    ensures Inv(Core(h, c, nu))
  {
    assert h.base < h.brk;
    assert c !in h.live;
    hide FreeOk, LiveOk, FreeUnits, LiveUnits, Clear;
    CoreFree(h, c, nu);
    CoreLive(h, c, nu);
    LiveAdd(h.live, c, nu);
  }

  // ---------- handing out a block ----------

  /** The address handed out: the tail of the free block at `j`. */
  function TailOf(b: Blk, n: nat): nat
    requires n <= b.size
  {
    b.addr + 8 * (b.size - n)
  }

  function TakeBlock(h: Heap, j: nat, n: nat): Heap
    requires j < |h.free| && n <= h.free[j].size
  {
    var b := h.free[j];
    h.(free := Replace(h.free, j, j + 1, if b.size == n then [] else [Blk(b.addr, b.size - n)]),
       live := h.live[TailOf(b, n) := n])
  }

  lemma TakeFree(h: Heap, j: nat, n: nat)
    requires FreeOk(h.base, h.free, h.brk) && 1 <= j < |h.free| && 1 <= n <= h.free[j].size
    ensures FreeOk(h.base, TakeBlock(h, j, n).free, h.brk)
  {
    var b := h.free[j];
    Ordered(h.base, h.free, h.brk, j - 1, j);
    if j + 1 < |h.free| { Ordered(h.base, h.free, h.brk, j, j + 1); }
    hide FreeOk, Replace;
    if b.size == n {
      RemoveOk(h.base, h.free, h.brk, j);
    } else {
      ReplaceOk(h.base, h.free, h.brk, j, j + 1, Blk(b.addr, b.size - n));
    }
  }

  lemma TakeUnits(h: Heap, j: nat, n: nat)
    requires 1 <= j < |h.free| && 1 <= n <= h.free[j].size
    ensures FreeUnits(TakeBlock(h, j, n).free) + n == FreeUnits(h.free)
  {
    var b := h.free[j];
    var js := if b.size == n then [] else [Blk(b.addr, b.size - n)];
    assert FreeUnits(js) == b.size - n by {
      if b.size != n { UnitsOne(js[0]); }
    }
    assert h.free[j..j + 1] == [b];
    UnitsOne(b);
    ReplaceUnits(h.free, j, j + 1, js);
  }

  lemma TakeClear(h: Heap, j: nat, n: nat, x: Blk)
    requires FreeOk(h.base, h.free, h.brk) && 1 <= j < |h.free| && 1 <= n <= h.free[j].size
    requires x.size >= 1 && (x == Blk(TailOf(h.free[j], n), n) || Clear(x, h.free))
    ensures Clear(x, TakeBlock(h, j, n).free)
  {
    var b, r := h.free[j], TakeBlock(h, j, n).free;
    forall i | 0 <= i < |r| ensures Apart(x, r[i]) {
      if b.size != n && i == j {
        assert Clear(x, h.free) ==> Apart(x, b);
      } else {
        var m := if i < j then i else if b.size == n then i + 1 else i;
        assert r[i] == h.free[m];
        Ordered(h.base, h.free, h.brk, if m < j then m else j, if m < j then j else m);
      }
    }
  }

  lemma TailIn(b: Blk, n: nat)
    requires n <= b.size
    ensures b.addr <= TailOf(b, n) && Blk(TailOf(b, n), n).End() == b.End()
  {
  }

  lemma TailApart(free: seq<Blk>, j: nat, n: nat, x: Blk)
    requires j < |free| && 1 <= n <= free[j].size && x.size >= 1 && Clear(x, free)
    ensures Apart(x, Blk(TailOf(free[j], n), n)) && x.addr != TailOf(free[j], n)
  {
    assert Apart(x, free[j]);
  }

  /** A new block apart from every live one and from the new ring keeps the live blocks in order. */
  lemma LiveAdded(h: Heap, free: seq<Blk>, t: nat, n: nat)
    requires LiveOk(h) && n >= 1 && h.base < t && Blk(t, n).End() <= h.brk
    requires forall a | a in h.live :: Apart(Blk(a, h.live[a]), Blk(t, n)) && Clear(Blk(a, h.live[a]), free)
    requires Clear(Blk(t, n), free)
    ensures LiveOk(h.(free := free, live := h.live[t := n]))
  {
    hide Clear, Blk.End;
  }

  lemma TakeLive(h: Heap, j: nat, n: nat)
    requires FreeOk(h.base, h.free, h.brk) && LiveOk(h) && 1 <= j < |h.free| && 1 <= n <= h.free[j].size
    ensures TailOf(h.free[j], n) !in h.live
    ensures LiveOk(TakeBlock(h, j, n))
  {
    var b, r := h.free[j], TakeBlock(h, j, n);
    var t := TailOf(b, n);
    Ordered(h.base, h.free, h.brk, 0, j);
    assert h.base < b.addr;
    TailIn(b, n);
    TakeClear(h, j, n, Blk(t, n));
    forall a | a in h.live ensures Clear(Blk(a, h.live[a]), r.free) && Apart(Blk(a, h.live[a]), Blk(t, n)) && a != t {
      TailApart(h.free, j, n, Blk(a, h.live[a]));
      TakeClear(h, j, n, Blk(a, h.live[a]));
    }
    hide FreeOk, Clear, TailOf, Replace, LiveOk;
    LiveAdded(h, r.free, t, n);
  }

  lemma TakeInv(h: Heap, j: nat, n: nat)
    requires Inv(h) && 1 <= j < |h.free| && 1 <= n <= h.free[j].size
    ensures TailOf(h.free[j], n) !in h.live
    ensures Inv(TakeBlock(h, j, n))
  {
    hide FreeOk, LiveOk, Replace, LiveUnits, FreeUnits;
    TakeFree(h, j, n);
    TakeUnits(h, j, n);
    TakeLive(h, j, n);
    LiveAdd(h.live, TailOf(h.free[j], n), n);
  }
}
