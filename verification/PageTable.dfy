/** The two-level page table of `vm.c` and the flat one it stands for. A page directory names
page-table pages, which `walkpgdir` takes off the free list when it needs a new one. */
module PageTable {
  import opened Common

  const FAN: nat := 1024
  const PAGES: nat := FAN * FAN

  /** An entry: is it present, and which frame address and permissions does it hold? */
  datatype Entry = Entry(present: bool, pa: nat, perm: nat)

  const ABSENT := Entry(false, 0, 0)

  datatype Tab = Tab(ptes: seq<Entry>)

  datatype Space = Space(dir: seq<Option<nat>>, tabs: map<nat, Tab>, free: seq<nat>)

  /** Every directory entry has a page of its own, and no free page is in use. */
  predicate Inv(m: Space) {
    && |m.dir| == FAN
    && (forall d | 0 <= d < FAN && m.dir[d].Some? ::
          m.dir[d].value in m.tabs && |m.tabs[m.dir[d].value].ptes| == FAN && m.dir[d].value !in m.free)
    && (forall c, d | 0 <= c < d < FAN && m.dir[c].Some? && m.dir[d].Some? :: m.dir[c] != m.dir[d])
    && (forall i, j | 0 <= i < j < |m.free| :: m.free[i] != m.free[j])
  }

  /** What the hardware finds for page `v`. */
  function Flat(m: Space, v: nat): Entry
    requires Inv(m) && v < PAGES
  {
    match m.dir[v / FAN]
    case None => ABSENT
    case Some(t) => m.tabs[t].ptes[v % FAN]
  }

  /** The flat table of `n` is that of `m` but for the pages `changed` gives. */
  predicate FlatIs(m: Space, n: Space, changed: map<nat, Entry>)
    requires Inv(m) && Inv(n)
  {
    forall v: nat | v < PAGES :: Flat(n, v) == if v in changed then changed[v] else Flat(m, v)
  }

  // ---------- walking ----------

  function NewTab(m: Space, d: nat): Space
    requires d < |m.dir| && m.free != []
  {
    Space(m.dir[d := Some(m.free[0])], m.tabs[m.free[0] := Tab(seq(FAN, _ => ABSENT))], m.free[1..])
  }

  /** `walkpgdir` as far as the page of entries goes. */
  function Walk(m: Space, v: nat, alloc: bool): Option<Space>
    requires |m.dir| == FAN && v < PAGES
  {
    if m.dir[v / FAN].Some? then Some(m)
    else if !alloc || m.free == [] then None
    else Some(NewTab(m, v / FAN))
  }

  lemma NewTabInv(m: Space, d: nat)
    requires Inv(m) && d < FAN && m.dir[d].None? && m.free != []
    ensures Inv(NewTab(m, d))
  {
    var n := NewTab(m, d);
    forall c | 0 <= c < FAN && n.dir[c].Some?
      ensures n.dir[c].value in n.tabs && |n.tabs[n.dir[c].value].ptes| == FAN && n.dir[c].value !in n.free
    {
      if c != d {
        assert m.dir[c].value != m.free[0];
      }
    }
  }

  /** Walking, with a new page of entries or not, changes no translation. */
  lemma WalkKeepsFlat(m: Space, v: nat, alloc: bool)
    requires Inv(m) && v < PAGES && Walk(m, v, alloc).Some?
    ensures var n := Walk(m, v, alloc).value;
      Inv(n) && n.dir[v / FAN].Some? && FlatIs(m, n, map[])
  {
    var d := v / FAN;
    if m.dir[d].None? {
      NewTabInv(m, d);
      var n := NewTab(m, d);
      forall w: nat | w < PAGES ensures Flat(n, w) == Flat(m, w) {
        if w / FAN != d && m.dir[w / FAN].Some? {
          assert m.dir[w / FAN].value != m.free[0];
        }
      }
    }
  }

  // ---------- writing an entry ----------

  function SetPte(m: Space, v: nat, e: Entry): Space
    requires Inv(m) && v < PAGES && m.dir[v / FAN].Some?
  {
    var t := m.dir[v / FAN].value;
    m.(tabs := m.tabs[t := Tab(m.tabs[t].ptes[v % FAN := e])])
  }

  /** Writing one entry changes one translation: no page of entries is shared. */
  lemma SetPteFlat(m: Space, v: nat, e: Entry)
    requires Inv(m) && v < PAGES && m.dir[v / FAN].Some?
    ensures Inv(SetPte(m, v, e)) && FlatIs(m, SetPte(m, v, e), map[v := e])
  {
    var n := SetPte(m, v, e);
    forall w: nat | w < PAGES ensures Flat(n, w) == if w == v then e else Flat(m, w) {
      var c, d := w / FAN, v / FAN;
      if c == d {
        assert w % FAN == v % FAN ==> w == v;
      } else if m.dir[c].Some? {
        assert m.dir[if c < d then c else d] != m.dir[if c < d then d else c];
      }
    }
  }

  lemma FlatThen(m: Space, n: Space, o: Space, a: map<nat, Entry>, b: map<nat, Entry>)
    requires Inv(m) && Inv(n) && Inv(o) && FlatIs(m, n, a) && FlatIs(n, o, b)
    ensures FlatIs(m, o, a + b)
  {
    forall v: nat | v < PAGES ensures Flat(o, v) == if v in a + b then (a + b)[v] else Flat(m, v) {
      assert Flat(n, v) == if v in a then a[v] else Flat(m, v);
    }
  }

  lemma FlatSame(m: Space, n: Space, o: Space, a: map<nat, Entry>)
    requires Inv(m) && Inv(n) && Inv(o) && FlatIs(m, n, a) && FlatIs(n, o, map[])
    ensures FlatIs(m, o, a)
  {
    FlatThen(m, n, o, a, map[]);
    assert a + map[] == a;
  }

  // ---------- mapping a range ----------

  datatype Outcome = Mapped | NoMemory | Remap

  predicate InRun(v: nat, first: nat, k: nat) { first <= v < first + k }

  /** The entries for `k` pages from `first` on, at frame addresses from `pa` on. */
  function Entries(first: nat, pa: nat, perm: nat, k: nat): map<nat, Entry> {
    map v: nat | v < first + k && InRun(v, first, k) :: Entry(true, pa + (v - first) * PGSIZE, perm)
  }

  lemma EntriesNext(first: nat, pa: nat, perm: nat, k: nat)
    ensures Entries(first, pa, perm, k + 1)
         == Entries(first, pa, perm, k) + map[first + k := Entry(true, pa + k * PGSIZE, perm)]
  {
  }

  lemma NoEntries(m: Space, first: nat, pa: nat, perm: nat)
    requires Inv(m)
    ensures FlatIs(m, m, Entries(first, pa, perm, 0))
  {
  }

  /** Page `v` cannot be mapped: there is a translation already, or no page for its entry. */
  predicate Blocked(m: Space, v: nat, o: Outcome)
    requires Inv(m) && v < PAGES
  {
    match o
    case Mapped => false
    case NoMemory => m.dir[v / FAN].None? && m.free == []
    case Remap => Flat(m, v).present
  }

  class AddressSpace {
    var dir: seq<Option<nat>>
    var tabs: map<nat, Tab>
    var free: seq<nat>

    ghost function Value(): Space
      reads this
    {
      Space(dir, tabs, free)
    }

    /** `setupkvm` without the kernel's own mappings: an empty directory. */
    constructor (free: seq<nat>)
      requires forall i, j | 0 <= i < j < |free| :: free[i] != free[j]
      ensures Inv(Value()) && this.free == free && forall v: nat | v < PAGES :: Flat(Value(), v) == ABSENT
    {
      dir, tabs, this.free := seq(FAN, _ => None), map[], free;
    }

    /** `walkpgdir`: the page of entries and the place in it for `va`, or None. */
    method WalkPgdir(va: nat, alloc: bool) returns (r: Option<(nat, nat)>)
      requires Inv(Value()) && va < WORD
      modifies this
      ensures Inv(Value()) && FlatIs(old(Value()), Value(), map[])
      ensures r.None? ==> Value() == old(Value())
      ensures r.None? <==> old(dir)[va / PGSIZE / FAN].None? && (!alloc || old(free) == [])
      ensures r.Some? ==> dir[va / PGSIZE / FAN] == Some(r.value.0) && r.value.1 == va / PGSIZE % FAN
    {
      var d := va / PGSIZE / FAN;
      if Walk(Value(), va / PGSIZE, alloc).Some? { WalkKeepsFlat(Value(), va / PGSIZE, alloc); }
      if dir[d].None? {
        if !alloc || free == [] {
          return None;
        }
        var pgtab := free[0];
        free := free[1..];
        tabs := tabs[pgtab := Tab(seq(FAN, _ => ABSENT))];
        dir := dir[d := Some(pgtab)];
      }
      r := Some((dir[d].value, va / PGSIZE % FAN));
    }

    /** One round of `mappages`. */
    method MapPage(va: nat, pa: nat, perm: nat) returns (o: Outcome)
      requires Inv(Value()) && va < WORD
      modifies this
      ensures Inv(Value())
      ensures o.Mapped? ==> FlatIs(old(Value()), Value(), map[va / PGSIZE := Entry(true, pa, perm)])
      ensures o.Mapped? ==> !Flat(old(Value()), va / PGSIZE).present
      ensures !o.Mapped? ==> FlatIs(old(Value()), Value(), map[]) && Blocked(Value(), va / PGSIZE, o)
    {
      ghost var m, v := Value(), va / PGSIZE;
      var pte := WalkPgdir(va, true);
      if pte.None? {
        return NoMemory;
      }
      ghost var n := Value();
      var (t, i) := pte.value;
      if tabs[t].ptes[i].present {
        return Remap;
      }
      SetPteFlat(n, v, Entry(true, pa, perm));
      tabs := tabs[t := Tab(tabs[t].ptes[i := Entry(true, pa, perm)])];
      FlatThen(m, n, Value(), map[], map[v := Entry(true, pa, perm)]);
      assert map[] + map[v := Entry(true, pa, perm)] == map[v := Entry(true, pa, perm)];
      assert !Flat(m, v).present;
      o := Mapped;
    }

    /** The same, on top of the `k` pages mapped before. */
    method MapNext(ghost m: Space, ghost first: nat, ghost pa: nat, ghost k: nat, a: nat, at: nat, perm: nat)
      returns (o: Outcome)
      requires Inv(m) && Inv(Value()) && a < WORD && a / PGSIZE == first + k && at == pa + k * PGSIZE
      requires FlatIs(m, Value(), Entries(first, pa, perm, k))
      modifies this
      ensures Inv(Value())
      ensures o.Mapped? ==> FlatIs(m, Value(), Entries(first, pa, perm, k + 1))
      ensures !o.Mapped? ==>
        FlatIs(m, Value(), Entries(first, pa, perm, k)) && Blocked(Value(), first + k, o)
    {
      hide Inv, FlatIs, Entries, Blocked;
      ghost var here, done := Value(), Entries(first, pa, perm, k);
      o := MapPage(a, at, perm);
      if o.Mapped? {
        EntriesNext(first, pa, perm, k);
        FlatThen(m, here, Value(), done, map[first + k := Entry(true, at, perm)]);
      } else {
        FlatSame(m, here, Value(), done);
      }
    }

    /** `mappages`: the pages from `va` to `va + size - 1` are mapped in order to consecutive frames;
    on failure the first `k` of them are, and the next one is the obstacle. No other translation
    changes. */
    method MapPages(va: nat, size: nat, pa: nat, perm: nat) returns (o: Outcome, ghost k: nat)
      requires Inv(Value()) && size >= 1 && va + size <= WORD
      modifies this
      ensures Inv(Value())
      ensures var first, n := va / PGSIZE, (va + size - 1) / PGSIZE - va / PGSIZE + 1;
        && k <= n && (o.Mapped? <==> k == n)
        && FlatIs(old(Value()), Value(), Entries(first, pa, perm, k))
        && (k < n ==> Blocked(Value(), first + k, o))
    {
      var a := va / PGSIZE * PGSIZE;
      var last := (va + size - 1) / PGSIZE * PGSIZE;
      var at := pa;
      k := 0;
      ghost var m, first, end := Value(), va / PGSIZE, (va + size - 1) / PGSIZE;
      NoEntries(m, first, pa, perm);
      hide Inv, FlatIs, Entries, Blocked;
      while true
        invariant Inv(Value()) && first + k <= end < PAGES && a == (first + k) * PGSIZE && at == pa + k * PGSIZE
        invariant FlatIs(m, Value(), Entries(first, pa, perm, k))
        decreases end - k
      {
        o := MapNext(m, first, pa, k, a, at, perm);
        if !o.Mapped? {
          return;
        }
        k := k + 1;
        if a == last {
          return;
        }
        a := a + PGSIZE;
        at := at + PGSIZE;
      }
    }
  }
}
