/** What the users of the buffer cache get: the buffer of the block they asked for, with what was last
written to it, and on a miss the buffer that has been idle longest. */
module BcacheReads {
  import opened Common
  import opened Disk
  import opened Bcache

  // ---------- which buffer ----------

  predicate Cached(c: Cache, dev: nat, blockno: nat) {
    exists b :: 0 <= b < |c.bufs| && c.bufs[b].Holds(dev, blockno)
  }

  /** `bget` returns a buffer of the block asked for, with the caller among its users, and touches no
  other buffer. A cached block keeps its contents and flags; otherwise an idle buffer is emptied. */
  lemma GetIs(c: Cache, pid: nat, dev: nat, blockno: nat)
    requires Permutation(c.order, |c.bufs|) && Get(c, pid, dev, blockno).Some?
    ensures var (c', b) := Get(c, pid, dev, blockno).value;
      && c' == c.(bufs := c'.bufs) && |c'.bufs| == |c.bufs| && b < |c.bufs|
      && c'.bufs[b].Holds(dev, blockno) && c'.bufs[b].users[pid] > 0
      && (forall a | 0 <= a < |c.bufs| && a != b :: c'.bufs[a] == c.bufs[a])
      && (Cached(c, dev, blockno) ==>
            c'.bufs[b] == c.bufs[b].(refcnt := c.bufs[b].refcnt + 1, users := c.bufs[b].users + multiset{pid}))
      && (!Cached(c, dev, blockno) ==>
            && c.bufs[b].Idle() && !c'.bufs[b].valid && !c'.bufs[b].dirty
            && c'.bufs[b].refcnt == 1 && c'.bufs[b].users == multiset{pid})
  {
    if Lookup(c.bufs, c.order, dev, blockno, 0) == |c.order| {
      LookupAll(c, dev, blockno);
    }
  }

  // ---------- what a read returns ----------

  /** The contents last handed to `log_write` or `bwrite` for block `k`, or those it had at first. */
  function LastWritten(c: Cache, es: seq<Event>, k: Key): Option<Block>
    decreases |es|
  {
    if es == [] then (if k in c.disk then Some(c.disk[k]) else None) else
    var (front, e) := (es[..|es| - 1], es[|es| - 1]);
    if (e.LogWrite? || e.Bwrite?) && Exec(c, front).Some? && e.b < |Exec(c, front).value.bufs|
       && KeyOf(Exec(c, front).value.bufs[e.b]) == k
    then Some(e.data) else LastWritten(c, front, k)
  }

  lemma {:induction false} LatestIsLast(n: nat, disk: map<Key, Block>, es: seq<Event>, k: Key)
    requires Exec(Init(n, disk), es).Some? && k in disk
    ensures var c := Exec(Init(n, disk), es).value;
      k in c.latest && LastWritten(Init(n, disk), es, k) == Some(c.latest[k])
    decreases |es|
  {
    if es != [] {
      var (front, e) := (es[..|es| - 1], es[|es| - 1]);
      LatestIsLast(n, disk, front, k);
      hide Step, Enabled, Init;
      LatestStep(Exec(Init(n, disk), front).value, e, k);
    }
  }

  lemma LatestStep(c: Cache, e: Event, k: Key)
    requires Enabled(c, e) && k in c.latest
    ensures (e.LogWrite? || e.Bwrite?) ==> e.b < |c.bufs|
    ensures k in Step(c, e).latest && Step(c, e).latest[k]
         == if (e.LogWrite? || e.Bwrite?) && KeyOf(c.bufs[e.b]) == k then e.data else c.latest[k]
  {
    hide Get, Lookup, Victim, MoveToFront;
    if e.GetBlock? { GetIs(c, e.pid, e.dev, e.blockno); }
  }

  /** `bread`: a process gets the buffer of a block, waits for it while others do what they like, and
  has it locked and filled. Then it holds that very block, with the contents last written to it. */
  lemma ReadsLatest(n: nat, disk: map<Key, Block>, es: seq<Event>, pid: nat, dev: nat, blockno: nat,
                    fs: seq<Event>)
    requires Exec(Init(n, disk), es).Some? && Enabled(Exec(Init(n, disk), es).value, GetBlock(pid, dev, blockno))
    requires var b := Get(Exec(Init(n, disk), es).value, pid, dev, blockno).value.1; Release(pid, b) !in fs
    requires Exec(Init(n, disk), es + [GetBlock(pid, dev, blockno)] + fs).Some?
    ensures var b := Get(Exec(Init(n, disk), es).value, pid, dev, blockno).value.1;
      var all := es + [GetBlock(pid, dev, blockno)] + fs;
      var c := Exec(Init(n, disk), all).value;
      && b < |c.bufs| && c.bufs[b].Holds(dev, blockno)
      && (c.bufs[b].valid ==> LastWritten(Init(n, disk), all, (dev, blockno)) == Some(c.bufs[b].data))
      && (c.bufs[b].holder == pid && !c.bufs[b].valid ==>
            && Enabled(c, Fill(pid, b)) && Step(c, Fill(pid, b)).bufs[b].valid
            && LastWritten(Init(n, disk), all, (dev, blockno)) == Some(Step(c, Fill(pid, b)).bufs[b].data))
  {
    var i, get := Init(n, disk), GetBlock(pid, dev, blockno);
    var c0 := Exec(i, es).value;
    var b := Get(c0, pid, dev, blockno).value.1;
    ExecInv(n, disk, es);
    GetIs(c0, pid, dev, blockno);
    var one := es + [get];
    assert one[..|one| - 1] == es;
    var c1 := Exec(i, one).value;
    GetInv(c0, pid, dev, blockno);
    ExecJoin(i, one, fs);
    UserKeepsBlock(c1, fs, pid, b);
    var c := Exec(i, one + fs).value;
    SameKeys(n, disk, es);
    LatestIsLast(n, disk, one + fs, (dev, blockno));
    hide Inv, Exec, LastWritten;
    HeldIsLatest(c, pid, b);
  }

  lemma {:induction false} ExecJoin(c: Cache, es: seq<Event>, fs: seq<Event>)
    requires Exec(c, es + fs).Some?
    ensures Exec(c, es).Some? && Exec(Exec(c, es).value, fs) == Exec(c, es + fs)
    decreases |fs|
  {
    hide Step, Enabled;
    if fs == [] {
      assert es + fs == es;
    } else {
      assert (es + fs)[..|es + fs| - 1] == es + fs[..|fs| - 1];
      ExecJoin(c, es, fs[..|fs| - 1]);
    }
  }

  lemma {:induction false} SameKeys(n: nat, disk: map<Key, Block>, es: seq<Event>)
    requires Exec(Init(n, disk), es).Some?
    ensures Exec(Init(n, disk), es).value.disk.Keys == disk.Keys
    decreases |es|
  {
    if es != [] { SameKeys(n, disk, es[..|es| - 1]); }
  }

  /** A valid buffer holds the latest contents; filling an invalid one makes it so. */
  lemma HeldIsLatest(c: Cache, pid: nat, b: nat)
    requires Inv(c) && b < |c.bufs| && KeyOf(c.bufs[b]) in c.disk && pid != 0
    ensures KeyOf(c.bufs[b]) in c.latest
    ensures c.bufs[b].valid ==> c.bufs[b].data == c.latest[KeyOf(c.bufs[b])]
    ensures c.bufs[b].holder == pid && !c.bufs[b].valid ==>
      Enabled(c, Fill(pid, b)) && Step(c, Fill(pid, b)).bufs[b].valid
      && Step(c, Fill(pid, b)).bufs[b].data == c.latest[KeyOf(c.bufs[b])]
  {
    assert BufOk(c, c.bufs[b]);
    if c.bufs[b].holder == pid && !c.bufs[b].valid {
      StepInv(c, Fill(pid, b));
      var c' := Step(c, Fill(pid, b));
      assert BufOk(c', c'.bufs[b]);
    }
  }

  // ---------- least recently used ----------

  /** When buffer `b` was last given up by its last user, counted in events; buffers never given up
  come before all others, in the order `binit` put them. */
  function GivenUp(n: nat, disk: map<Key, Block>, es: seq<Event>, b: nat): int
    decreases |es|
  {
    if es == [] then b - n else
    var (front, e) := (es[..|es| - 1], es[|es| - 1]);
    if e.Release? && e.b == b && Exec(Init(n, disk), front).Some?
       && b < |Exec(Init(n, disk), front).value.bufs| && Exec(Init(n, disk), front).value.bufs[b].refcnt <= 1
    then |es| else GivenUp(n, disk, front, b)
  }

  /** The ring is ordered by it, latest first. */
  predicate Ordered(n: nat, disk: map<Key, Block>, es: seq<Event>, order: seq<nat>) {
    forall i, j | 0 <= i < j < |order| :: GivenUp(n, disk, es, order[i]) > GivenUp(n, disk, es, order[j])
  }

  lemma {:induction false} GivenUpBound(n: nat, disk: map<Key, Block>, es: seq<Event>, b: nat)
    requires b < n
    ensures GivenUp(n, disk, es, b) <= |es|
    decreases |es|
  {
    if es != [] { GivenUpBound(n, disk, es[..|es| - 1], b); }
  }

  /** Only the last release of a buffer changes the ring. */
  lemma RingStep(c: Cache, e: Event)
    requires Enabled(c, e)
    ensures e.Release? ==> e.b < |c.bufs| && e.b in c.order
    ensures Step(c, e).order
         == if e.Release? && c.bufs[e.b].refcnt <= 1 then MoveToFront(c.order, Position(c.order, e.b)) else c.order
  {
    hide Lookup, Victim, MoveToFront, Position;
  }

  lemma {:induction false} RingIsOrdered(n: nat, disk: map<Key, Block>, es: seq<Event>)
    requires Exec(Init(n, disk), es).Some?
    ensures Ordered(n, disk, es, Exec(Init(n, disk), es).value.order)
    decreases |es|
  {
    if es != [] {
      var (front, e) := (es[..|es| - 1], es[|es| - 1]);
      hide Step, Enabled, Inv;
      RingIsOrdered(n, disk, front);
      var c := Exec(Init(n, disk), front).value;
      RingStep(c, e);
      InvRing(n, disk, front);
      hide Init, MoveToFront, Ordered;
      if e.Release? && c.bufs[e.b].refcnt <= 1 {
        FrontOrdered(n, disk, es, c.order, e.b);
      } else {
        SameOrdered(n, disk, es, c.order);
      }
    }
  }

  lemma InvRing(n: nat, disk: map<Key, Block>, es: seq<Event>)
    requires Exec(Init(n, disk), es).Some?
    ensures var c := Exec(Init(n, disk), es).value; |c.bufs| == n && Permutation(c.order, n)
  {
    ExecInv(n, disk, es);
    SameSize(n, disk, es);
  }

  /** The event concerns no buffer's last release. */
  lemma SameOrdered(n: nat, disk: map<Key, Block>, es: seq<Event>, order: seq<nat>)
    requires es != [] && Ordered(n, disk, es[..|es| - 1], order)
    requires var e := es[|es| - 1]; var r := Exec(Init(n, disk), es[..|es| - 1]);
      r.Some? && (e.Release? ==> e.b < |r.value.bufs| && r.value.bufs[e.b].refcnt > 1)
    ensures Ordered(n, disk, es, order)
  {
    hide Exec, Init;
    forall b ensures GivenUp(n, disk, es, b) == GivenUp(n, disk, es[..|es| - 1], b) {
    }
  }

  /** The buffer just given up is the latest. */
  lemma FrontOrdered(n: nat, disk: map<Key, Block>, es: seq<Event>, order: seq<nat>, b: nat)
    requires es != [] && Ordered(n, disk, es[..|es| - 1], order) && Permutation(order, n) && b in order
    requires var e := es[|es| - 1]; var r := Exec(Init(n, disk), es[..|es| - 1]);
      r.Some? && e.Release? && e.b == b && b < |r.value.bufs| && r.value.bufs[b].refcnt <= 1
    ensures Ordered(n, disk, es, MoveToFront(order, Position(order, b)))
  {
    hide Exec, Init;
    var front := es[..|es| - 1];
    var o := MoveToFront(order, Position(order, b));
    assert GivenUp(n, disk, es, b) == |es|;
    forall x: nat | x != b ensures GivenUp(n, disk, es, x) == GivenUp(n, disk, front, x) {
    }
    forall i, j | 0 <= i < j < |o| ensures GivenUp(n, disk, es, o[i]) > GivenUp(n, disk, es, o[j]) {
      assert o[j] != b && o[j] < n;
      GivenUpBound(n, disk, front, o[j]);
    }
  }

  /** A miss takes, of all idle clean buffers, the one that was given up longest ago. */
  lemma RecyclesOldest(n: nat, disk: map<Key, Block>, es: seq<Event>, pid: nat, dev: nat, blockno: nat, a: nat)
    requires Exec(Init(n, disk), es).Some?
    requires var c := Exec(Init(n, disk), es).value;
      && Permutation(c.order, |c.bufs|) && Get(c, pid, dev, blockno).Some? && !Cached(c, dev, blockno)
      && a < |c.bufs| && c.bufs[a].Idle()
    ensures var b := Get(Exec(Init(n, disk), es).value, pid, dev, blockno).value.1;
      GivenUp(n, disk, es, b) <= GivenUp(n, disk, es, a)
  {
    hide Exec, Init, GivenUp, Permutation, Cached;
    var c := Exec(Init(n, disk), es).value;
    RingIsOrdered(n, disk, es);
    var i, j := VictimIsBehind(c, pid, dev, blockno, a);
  }

  /** The buffer recycled is behind every other idle one. */
  lemma VictimIsBehind(c: Cache, pid: nat, dev: nat, blockno: nat, a: nat) returns (i: nat, j: nat)
    requires Permutation(c.order, |c.bufs|) && Get(c, pid, dev, blockno).Some? && !Cached(c, dev, blockno)
    requires a < |c.bufs| && c.bufs[a].Idle()
    ensures i <= j < |c.order| && c.order[i] == a && c.order[j] == Get(c, pid, dev, blockno).value.1
  {
    assert a in c.order;
    i :| 0 <= i < |c.order| && c.order[i] == a;
    var k := Lookup(c.bufs, c.order, dev, blockno, 0);
    assert k == |c.order|;
    var v := Victim(c.bufs, c.order, |c.order|);
    assert i < v;
    j := v - 1;
  }
}
