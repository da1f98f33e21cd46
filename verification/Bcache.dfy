/** The buffer cache of `bio.c`: an LRU ring of buffers with reference counts, in which a buffer
that is referenced or dirty is never given to another block. */
module Bcache {
  import opened Common
  import opened Disk

  /** `struct buf` without its links. `users` lists the processes between `bget` and `brelse`, and
  `holder` is the owner of the sleep lock (0 for none). */
  datatype Buf = Buf(dev: nat, blockno: nat, valid: bool, dirty: bool, refcnt: nat,
                     holder: nat, users: multiset<nat>, data: Block)
  {
    predicate Holds(d: nat, b: nat) {
      dev == d && blockno == b
    }

    predicate Idle() {
      refcnt == 0 && !dirty
    }
  }

  type Key = (nat, nat)

  /** `order` is the ring from `head.next` to `head.prev`, most recently used first. `latest`
  records the last contents handed to `bwrite` or `log_write` for each block. */
  datatype Cache = Cache(bufs: seq<Buf>, order: seq<nat>, disk: map<Key, Block>,
                         latest: map<Key, Block>)

  predicate Permutation(order: seq<nat>, n: nat) {
    && |order| == n
    && (forall i | 0 <= i < n :: order[i] < n)
    && (forall i, j | 0 <= i < j < n :: order[i] != order[j])
    && (forall b: nat | b < n :: b in order)
  }

  function MoveToFront(order: seq<nat>, k: nat): seq<nat>
    requires k < |order|
  {
    [order[k]] + order[..k] + order[k + 1..]
  }

  lemma MoveToFrontPermutes(order: seq<nat>, n: nat, k: nat)
    requires Permutation(order, n) && k < n
    ensures Permutation(MoveToFront(order, k), n)
  {
    var o := MoveToFront(order, k);
    assert o[0] == order[k];
    assert forall i | 1 <= i <= k :: o[i] == order[i - 1];
    assert forall i | k < i < n :: o[i] == order[i];
    forall b: nat | b < n ensures b in o {
      assert b in order;
      var i :| 0 <= i < n && order[i] == b;
      if i < k { assert o[i + 1] == b; }
    }
  }

  // ---------- what the operations do ----------

  /** The first position at or after `i` of a buffer that holds the block, or |order|. */
  function Lookup(bufs: seq<Buf>, order: seq<nat>, dev: nat, blockno: nat, i: nat): (k: nat)
    requires Permutation(order, |bufs|) && i <= |order|
    ensures i <= k <= |order|
    ensures forall j | i <= j < k :: !bufs[order[j]].Holds(dev, blockno)
    ensures k < |order| ==> bufs[order[k]].Holds(dev, blockno)
    decreases |order| - i
  {
    if i == |order| || bufs[order[i]].Holds(dev, blockno) then i
    else Lookup(bufs, order, dev, blockno, i + 1)
  }

  /** One more than the last position below `i` of an idle buffer, or 0. */
  function Victim(bufs: seq<Buf>, order: seq<nat>, i: nat): (k: nat)
    requires Permutation(order, |bufs|) && i <= |order|
    ensures k <= i
    ensures forall j | k <= j < i :: !bufs[order[j]].Idle()
    ensures k > 0 ==> bufs[order[k - 1]].Idle()
  {
    if i == 0 || bufs[order[i - 1]].Idle() then i else Victim(bufs, order, i - 1)
  }

  /** `bget` up to its release of `bcache.lock`: the buffer, or None for the panic. */
  function Get(c: Cache, pid: nat, dev: nat, blockno: nat): Option<(Cache, nat)>
    requires Permutation(c.order, |c.bufs|)
  {
    var k := Lookup(c.bufs, c.order, dev, blockno, 0);
    if k < |c.order| then
      var b := c.order[k];
      var buf := c.bufs[b];
      var buf' := buf.(refcnt := buf.refcnt + 1, users := buf.users + multiset{pid});
      Some((c.(bufs := c.bufs[b := buf']), b))
    else
      var v := Victim(c.bufs, c.order, |c.order|);
      if v == 0 then None else
      var b := c.order[v - 1];
      var buf' := Buf(dev, blockno, false, false, 1, c.bufs[b].holder, multiset{pid}, c.bufs[b].data);
      Some((c.(bufs := c.bufs[b := buf']), b))
  }

  datatype Event =
    | GetBlock(pid: nat, dev: nat, blockno: nat)   // bget
    | Lock(pid: nat, b: nat)                       // acquiresleep returns
    | Fill(pid: nat, b: nat)                       // iderw reads an invalid buffer
    | LogWrite(pid: nat, b: nat, data: Block)      // the holder changes the data and logs it
    | Bwrite(pid: nat, b: nat, data: Block)        // the holder changes the data and writes it
    | Release(pid: nat, b: nat)                    // brelse

  function KeyOf(buf: Buf): Key {
    (buf.dev, buf.blockno)
  }

  predicate Holding(c: Cache, pid: nat, b: nat) {
    pid != 0 && b < |c.bufs| && c.bufs[b].holder == pid && KeyOf(c.bufs[b]) in c.disk
  }

  predicate Enabled(c: Cache, e: Event) {
    match e
    case GetBlock(pid, dev, blockno) =>
      && pid != 0 && dev != 0 && (dev, blockno) in c.disk && Permutation(c.order, |c.bufs|)
      && Get(c, pid, dev, blockno).Some?
    case Lock(pid, b) =>
      pid != 0 && b < |c.bufs| && c.bufs[b].holder == 0 && pid in c.bufs[b].users
    case Fill(pid, b) => Holding(c, pid, b) && !c.bufs[b].valid
    case LogWrite(pid, b, _) => Holding(c, pid, b) && c.bufs[b].valid
    case Bwrite(pid, b, _) => Holding(c, pid, b)
    case Release(pid, b) => Holding(c, pid, b) && b in c.order
  }

  function Position(order: seq<nat>, b: nat): (k: nat)
    requires b in order
    ensures k < |order| && order[k] == b
  {
    if order[0] == b then 0 else 1 + Position(order[1..], b)
  }

  function Step(c: Cache, e: Event): Cache
    requires Enabled(c, e)
  {
    match e
    case GetBlock(pid, dev, blockno) => Get(c, pid, dev, blockno).value.0
    case Lock(pid, b) => c.(bufs := c.bufs[b := c.bufs[b].(holder := pid)])
    case Fill(pid, b) =>
      c.(bufs := c.bufs[b := c.bufs[b].(valid := true, data := c.disk[KeyOf(c.bufs[b])])])
    case LogWrite(pid, b, data) =>
      c.(bufs := c.bufs[b := c.bufs[b].(dirty := true, data := data)],
         latest := c.latest[KeyOf(c.bufs[b]) := data])
    case Bwrite(pid, b, data) =>
      c.(bufs := c.bufs[b := c.bufs[b].(valid := true, dirty := false, data := data)],
         disk := c.disk[KeyOf(c.bufs[b]) := data], latest := c.latest[KeyOf(c.bufs[b]) := data])
    case Release(pid, b) =>
      var buf := c.bufs[b];
      var n := if buf.refcnt > 0 then buf.refcnt - 1 else 0;
      c.(bufs := c.bufs[b := buf.(holder := 0, refcnt := n, users := buf.users - multiset{pid})],
         order := if n == 0 then MoveToFront(c.order, Position(c.order, b)) else c.order)
  }

  // ---------- every run ----------

  ghost predicate BufOk(c: Cache, buf: Buf) {
    && buf.refcnt == |buf.users|
    && (buf.holder != 0 ==> buf.holder in buf.users)
    && (buf.dirty ==> buf.valid)
    && (buf.dev == 0 ==> !buf.valid && buf.refcnt == 0)
    && (buf.valid ==> KeyOf(buf) in c.latest && buf.data == c.latest[KeyOf(buf)])
  }

  ghost predicate Inv(c: Cache) {
    && Permutation(c.order, |c.bufs|)
    && c.latest.Keys == c.disk.Keys
    && (forall b | 0 <= b < |c.bufs| :: BufOk(c, c.bufs[b]))
    // at most one buffer per block of a nonzero device
    && (forall a, b | 0 <= a < b < |c.bufs| && c.bufs[a].dev != 0 ::
          KeyOf(c.bufs[a]) != KeyOf(c.bufs[b]))
    // only a dirty buffer may be ahead of the disk
    && (forall k | k in c.disk && c.disk[k] != c.latest[k] ::
          exists b :: 0 <= b < |c.bufs| && c.bufs[b].dirty && KeyOf(c.bufs[b]) == k)
  }

  /** After `binit`: n buffers of device 0, inserted one by one at the front of the ring. */
  function Init(n: nat, disk: map<Key, Block>): Cache {
    Cache(seq(n, _ => Buf(0, 0, false, false, 0, 0, multiset{}, Block([]))),
          seq(n, i requires 0 <= i < n => n - 1 - i), disk, disk)
  }

  /** The cache after the events `es`, or None when one of them was not possible. */
  function Exec(c: Cache, es: seq<Event>): Option<Cache>
    decreases |es|
  {
    if es == [] then Some(c) else
    var r := Exec(c, es[..|es| - 1]);
    if r.Some? && Enabled(r.value, es[|es| - 1]) then Some(Step(r.value, es[|es| - 1])) else None
  }

  lemma InitInv(n: nat, disk: map<Key, Block>)
    ensures Inv(Init(n, disk))
  {
    var o := Init(n, disk).order;
    forall b: nat | b < n ensures b in o {
      assert o[n - 1 - b] == b;
    }
  }

  lemma LookupAll(c: Cache, dev: nat, blockno: nat)
    requires Permutation(c.order, |c.bufs|)
    requires Lookup(c.bufs, c.order, dev, blockno, 0) == |c.order|
    ensures forall b | 0 <= b < |c.bufs| :: !c.bufs[b].Holds(dev, blockno)
  {
    forall b: nat | b < |c.bufs| ensures !c.bufs[b].Holds(dev, blockno) {
      assert b in c.order;
    }
  }

  /** Replacing one buffer by another that is fine and names a block no other buffer names. */
  lemma ReplaceInv(c: Cache, b: nat, buf: Buf)
    requires Inv(c) && b < |c.bufs| && BufOk(c, buf)
    requires c.bufs[b].dirty ==> buf.dirty && KeyOf(buf) == KeyOf(c.bufs[b])
    requires forall a | 0 <= a < |c.bufs| && a != b && (c.bufs[a].dev != 0 || buf.dev != 0) ::
               KeyOf(c.bufs[a]) != KeyOf(buf)
    ensures Inv(c.(bufs := c.bufs[b := buf]))
  {
    var c' := c.(bufs := c.bufs[b := buf]);
    forall a | 0 <= a < |c.bufs| ensures BufOk(c', c'.bufs[a]) {
      assert BufOk(c, c.bufs[a]);
    }
    KeepDirty(c, c', b);
    hide BufOk;
  }

  lemma GetInv(c: Cache, pid: nat, dev: nat, blockno: nat)
    requires Inv(c) && Enabled(c, GetBlock(pid, dev, blockno))
    ensures Inv(Step(c, GetBlock(pid, dev, blockno)))
  {
    var (c', b) := Get(c, pid, dev, blockno).value;
    assert BufOk(c, c.bufs[b]);
    if Lookup(c.bufs, c.order, dev, blockno, 0) == |c.order| {
      LookupAll(c, dev, blockno);
    }
    ReplaceInv(c, b, c'.bufs[b]);
    hide Inv;
  }

  /** Changing a clean buffer, or keeping a dirty one dirty, explains no less. */
  lemma KeepDirty(c: Cache, c': Cache, b: nat)
    requires b < |c.bufs| && |c'.bufs| == |c.bufs|
    requires c'.disk == c.disk && c'.latest == c.latest && c.latest.Keys == c.disk.Keys
    requires forall a | 0 <= a < |c.bufs| && a != b :: c'.bufs[a] == c.bufs[a]
    requires c.bufs[b].dirty ==> c'.bufs[b].dirty && KeyOf(c'.bufs[b]) == KeyOf(c.bufs[b])
    requires forall k | k in c.disk && c.disk[k] != c.latest[k] ::
               exists a :: 0 <= a < |c.bufs| && c.bufs[a].dirty && KeyOf(c.bufs[a]) == k
    ensures forall k | k in c'.disk && c'.disk[k] != c'.latest[k] ::
              exists a :: 0 <= a < |c'.bufs| && c'.bufs[a].dirty && KeyOf(c'.bufs[a]) == k
  {
    forall k | k in c'.disk && c'.disk[k] != c'.latest[k]
      ensures exists a :: 0 <= a < |c'.bufs| && c'.bufs[a].dirty && KeyOf(c'.bufs[a]) == k
    {
      var a :| 0 <= a < |c.bufs| && c.bufs[a].dirty && KeyOf(c.bufs[a]) == k;
      assert c'.bufs[a].dirty && KeyOf(c'.bufs[a]) == k;
    }
  }

  lemma WriteInv(c: Cache, e: Event)
    requires Inv(c) && Enabled(c, e) && (e.LogWrite? || e.Bwrite?)
    ensures Inv(Step(c, e))
  {
    var c' := Step(c, e);
    var key := KeyOf(c.bufs[e.b]);
    assert BufOk(c, c.bufs[e.b]);
    forall a | 0 <= a < |c.bufs| ensures BufOk(c', c'.bufs[a]) {
      assert BufOk(c, c.bufs[a]);
    }
    forall k | k in c'.disk && c'.disk[k] != c'.latest[k]
      ensures exists a :: 0 <= a < |c'.bufs| && c'.bufs[a].dirty && KeyOf(c'.bufs[a]) == k
    {
      if k == key {
        assert c'.bufs[e.b].dirty;
      } else {
        var a :| 0 <= a < |c.bufs| && c.bufs[a].dirty && KeyOf(c.bufs[a]) == k;
        assert c'.bufs[a].dirty && KeyOf(c'.bufs[a]) == k;
      }
    }
  }

  lemma ReleaseInv(c: Cache, pid: nat, b: nat)
    requires Inv(c) && Enabled(c, Release(pid, b))
    ensures Inv(Step(c, Release(pid, b)))
  {
    assert BufOk(c, c.bufs[b]);
    MoveToFrontPermutes(c.order, |c.bufs|, Position(c.order, b));
    ReplaceInv(c, b, Step(c, Release(pid, b)).bufs[b]);
  }

  lemma LockFillInv(c: Cache, e: Event)
    requires Inv(c) && Enabled(c, e) && (e.Lock? || e.Fill?)
    ensures Inv(Step(c, e))
  {
    assert BufOk(c, c.bufs[e.b]);
    ReplaceInv(c, e.b, Step(c, e).bufs[e.b]);
  }

  lemma StepInv(c: Cache, e: Event)
    requires Inv(c) && Enabled(c, e)
    ensures Inv(Step(c, e))
  {
    hide Inv, Step;
    match e
    case GetBlock(pid, dev, blockno) => GetInv(c, pid, dev, blockno);
    case Lock(_, _) => LockFillInv(c, e);
    case Fill(_, _) => LockFillInv(c, e);
    case LogWrite(_, _, _) => WriteInv(c, e);
    case Bwrite(_, _, _) => WriteInv(c, e);
    case Release(pid, b) => ReleaseInv(c, pid, b);
  }

  lemma {:induction false} ExecInv(n: nat, disk: map<Key, Block>, es: seq<Event>)
    requires Exec(Init(n, disk), es).Some?
    ensures Inv(Exec(Init(n, disk), es).value)
    decreases |es|
  {
    hide Inv, Step, Init;
    if es == [] {
      InitInv(n, disk);
    } else {
      ExecInv(n, disk, es[..|es| - 1]);
      StepInv(Exec(Init(n, disk), es[..|es| - 1]).value, es[|es| - 1]);
    }
  }

  /** In every run the cache agrees with the disk it caches: a block of a nonzero device sits in at
  most one buffer, a valid buffer holds the latest contents given to `bwrite` or `log_write`, and
  a block that no dirty buffer holds has its latest contents on the disk. */
  lemma CacheAgreesWithDisk(n: nat, disk: map<Key, Block>, es: seq<Event>)
    requires Exec(Init(n, disk), es).Some?
    ensures var c := Exec(Init(n, disk), es).value;
            && Permutation(c.order, n) && |c.bufs| == n
            && (forall b | 0 <= b < n && c.bufs[b].valid ::
                  var k := KeyOf(c.bufs[b]); k in c.latest && c.bufs[b].data == c.latest[k])
            && (forall a, b | 0 <= a < b < n && c.bufs[a].dev != 0 ::
                  KeyOf(c.bufs[a]) != KeyOf(c.bufs[b]))
            && (forall k | k in c.disk && (forall b | 0 <= b < n :: 
                  c.bufs[b].dirty ==> KeyOf(c.bufs[b]) != k) :: 
                  k in c.latest && c.disk[k] == c.latest[k])
  {
    ExecInv(n, disk, es);
    SameSize(n, disk, es);
    var c := Exec(Init(n, disk), es).value;
    forall b | 0 <= b < n && c.bufs[b].valid
      ensures KeyOf(c.bufs[b]) in c.latest && c.bufs[b].data == c.latest[KeyOf(c.bufs[b])]
    {
      assert BufOk(c, c.bufs[b]);
    }
  }

  lemma {:induction false} SameSize(n: nat, disk: map<Key, Block>, es: seq<Event>)
    requires Exec(Init(n, disk), es).Some?
    ensures |Exec(Init(n, disk), es).value.bufs| == n
    decreases |es|
  {
    if es != [] { SameSize(n, disk, es[..|es| - 1]); }
  }

  /** A buffer that is referenced or dirty is not recycled by any step. */
  lemma NeverRecycled(c: Cache, e: Event, b: nat)
    requires Inv(c) && Enabled(c, e) && b < |c.bufs|
    requires c.bufs[b].refcnt > 0 || c.bufs[b].dirty
    ensures KeyOf(Step(c, e).bufs[b]) == KeyOf(c.bufs[b])
  {
  }

  /** Between its `bget` and its `brelse` a process keeps its buffer, whatever others do. */
  lemma {:induction false} UserKeepsBlock(c: Cache, es: seq<Event>, pid: nat, b: nat)
    requires Inv(c) && Exec(c, es).Some? && b < |c.bufs| && pid in c.bufs[b].users
    requires Release(pid, b) !in es
    ensures var c' := Exec(c, es).value;
            && Inv(c') && b < |c'.bufs| && pid in c'.bufs[b].users
            && KeyOf(c'.bufs[b]) == KeyOf(c.bufs[b])
    decreases |es|
  {
    if es != [] {
      var front, e := es[..|es| - 1], es[|es| - 1];
      UserKeepsBlock(c, front, pid, b);
      var c1 := Exec(c, front).value;
      assert BufOk(c1, c1.bufs[b]);
      StepInv(c1, e);
      NeverRecycled(c1, e, b);
    }
  }

  /** A buffer with logged changes keeps its block, and the changes stay off the disk, until a
  `bwrite` of that very buffer: whatever else happens, with or without users, its block's home
  keeps the old contents and the buffer holds the latest ones. */
  lemma {:induction false} DirtyStays(c: Cache, es: seq<Event>, b: nat)
    requires Inv(c) && Exec(c, es).Some? && b < |c.bufs|
    requires c.bufs[b].dirty && KeyOf(c.bufs[b]) in c.disk
    requires forall e | e in es && e.Bwrite? :: e.b != b
    ensures var (c', k) := (Exec(c, es).value, KeyOf(c.bufs[b]));
            && Inv(c') && b < |c'.bufs| && c'.bufs[b].dirty && KeyOf(c'.bufs[b]) == k
            && k in c'.disk && c'.disk[k] == c.disk[k]
            && k in c'.latest && c'.bufs[b].data == c'.latest[k]
    decreases |es|
  {
    assert BufOk(c, c.bufs[b]);
    hide Inv, BufOk;
    if es != [] {
      var front, e := es[..|es| - 1], es[|es| - 1];
      DirtyStays(c, front, b);
      DirtyStep(Exec(c, front).value, e, b);
    }
  }

  lemma DirtyStep(c: Cache, e: Event, b: nat)
    requires Inv(c) && Enabled(c, e) && b < |c.bufs|
    requires c.bufs[b].dirty && KeyOf(c.bufs[b]) in c.disk && (e.Bwrite? ==> e.b != b)
    ensures var (c', k) := (Step(c, e), KeyOf(c.bufs[b]));
            && Inv(c') && b < |c'.bufs| && c'.bufs[b].dirty && KeyOf(c'.bufs[b]) == k
            && k in c'.disk && c'.disk[k] == c.disk[k]
            && k in c'.latest && c'.bufs[b].data == c'.latest[k]
  {
    var c' := Step(c, e);
    StepInv(c, e);
    NeverRecycled(c, e, b);
    assert BufOk(c, c.bufs[b]);
    assert c'.bufs[b].dirty;
    assert BufOk(c', c'.bufs[b]);
    if e.Bwrite? {
      DistinctKeys(c, b, e.b);
    }
    hide Inv;
  }

  lemma DistinctKeys(c: Cache, a: nat, b: nat)
    requires Inv(c) && a < |c.bufs| && b < |c.bufs| && a != b && c.bufs[a].valid
    ensures KeyOf(c.bufs[a]) != KeyOf(c.bufs[b])
  {
    assert BufOk(c, c.bufs[a]);
    var (i, j) := if a < b then (a, b) else (b, a);
    assert c.bufs[i].dev == 0 || KeyOf(c.bufs[i]) != KeyOf(c.bufs[j]);
  }

  /** `bget` panics exactly when the block is not cached and every buffer is in use. */
  lemma GetPanics(c: Cache, pid: nat, dev: nat, blockno: nat)
    requires Permutation(c.order, |c.bufs|)
    ensures Get(c, pid, dev, blockno).None? <==>
            forall b | 0 <= b < |c.bufs| ::
              !c.bufs[b].Holds(dev, blockno) && (c.bufs[b].refcnt > 0 || c.bufs[b].dirty)
  {
    var k := Lookup(c.bufs, c.order, dev, blockno, 0);
    if k == |c.order| {
      LookupAll(c, dev, blockno);
      var v := Victim(c.bufs, c.order, |c.order|);
      if v == 0 {
        forall b: nat | b < |c.bufs| ensures !c.bufs[b].Idle() {
          assert b in c.order;
        }
      }
    }
  }
}
