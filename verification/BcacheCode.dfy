/** The code of `bio.c`: the buffers and the doubly linked ring through `prev` and `next`. */
module BcacheCode {
  import opened Common
  import opened Disk
  import opened Bcache
  import opened BcacheReads

  /** The nodes of the ring in order, the head at both ends. */
  function Node(order: seq<nat>, head: nat, i: nat): nat
    requires i <= |order| + 1
  {
    if i == 0 || i == |order| + 1 then head else order[i - 1]
  }

  ghost predicate LinkAt(next: seq<nat>, prev: seq<nat>, order: seq<nat>, head: nat, i: nat)
    requires i <= |order| && Fits(next, prev, order, head)
  {
    && next[Node(order, head, i)] == Node(order, head, i + 1)
    && prev[Node(order, head, i + 1)] == Node(order, head, i)
  }

  ghost predicate Fits(next: seq<nat>, prev: seq<nat>, order: seq<nat>, head: nat) {
    && |next| == |prev| == head + 1 && |order| <= head
    && (forall i | 0 <= i < |order| :: order[i] < head)
    && (forall i, j | 0 <= i < j < |order| :: order[i] != order[j])
  }

  /** `next` and `prev` link head, order[0], order[1], ..., head in both directions. */
  ghost predicate Linked(next: seq<nat>, prev: seq<nat>, order: seq<nat>, head: nat) {
    && Fits(next, prev, order, head)
    && (forall i: nat | i <= |order| :: LinkAt(next, prev, order, head, i))
  }

  /** The four link writes that put `b` behind the head. */
  lemma LinkFront(next: seq<nat>, prev: seq<nat>, order: seq<nat>, head: nat, b: nat)
    requires Linked(next, prev, order, head) && b < head && b !in order && |order| < head
    ensures next[head] <= head
    ensures Linked(next[b := next[head]][head := b], prev[b := head][next[head] := b],
                   [b] + order, head)
  {
    assert LinkAt(next, prev, order, head, 0);
    var next', prev', o := next[b := next[head]][head := b], prev[b := head][next[head] := b], [b] + order;
    forall i: nat | i <= |o| ensures LinkAt(next', prev', o, head, i) {
      if i >= 2 {
        assert LinkAt(next, prev, order, head, i - 1);
        assert i <= |order| ==> order[i - 1] != order[0];
      }
    }
  }

  /** The two link writes that take the buffer at position `k` out of the ring. */
  lemma Unlinked(next: seq<nat>, prev: seq<nat>, order: seq<nat>, head: nat, k: nat)
    requires Linked(next, prev, order, head) && k < |order|
    ensures var b := order[k];
            && next[b] <= head && prev[b] <= head
            && Linked(next[prev[b] := next[b]], prev[next[b] := prev[b]],
                      order[..k] + order[k + 1..], head)
  {
    var b, o := order[k], order[..k] + order[k + 1..];
    assert LinkAt(next, prev, order, head, k);
    assert LinkAt(next, prev, order, head, k + 1);
    var next', prev' := next[prev[b] := next[b]], prev[next[b] := prev[b]];
    forall i: nat | i <= |o| ensures LinkAt(next', prev', o, head, i) {
      var j := if i <= k then i else i + 1;
      assert LinkAt(next, prev, order, head, j);
      assert Node(o, head, i) == Node(order, head, j);
      assert Node(o, head, i + 1) == Node(order, head, if i < k then i + 1 else i + 2);
    }
  }

  class BufferCache {
    const n: nat
    var buf: seq<Buf>
    const next: array<nat>     // entry n belongs to bcache.head
    const prev: array<nat>
    var disk: map<Key, Block>
    ghost var order: seq<nat>
    ghost var latest: map<Key, Block>

    ghost predicate Valid()
      reads this, next, prev
    {
      && |buf| == n && next != prev
      && Linked(next[..], prev[..], order, n) && Permutation(order, n)
    }

    ghost function State(): Cache
      reads this
    {
      Cache(buf, order, disk, latest)
    }

    /** `binit` */
    constructor (n: nat, disk: map<Key, Block>)
      ensures Valid() && fresh(next) && fresh(prev)
      ensures this.n == n && State() == Init(n, disk)
    {
      this.n, this.disk, latest, order := n, disk, disk, [];
      buf := seq(n, _ => Buf(0, 0, false, false, 0, 0, multiset{}, Block([])));
      next, prev := new nat[n + 1], new nat[n + 1];
      new;
      prev[n] := n;
      next[n] := n;
      var b := 0;
      while b < n
        invariant b <= n && next != prev && fresh(next) && fresh(prev)
        invariant Linked(next[..], prev[..], order, n)
        invariant order == seq(b, i requires 0 <= i < b => b - 1 - i)
        invariant buf == Init(n, disk).bufs && this.disk == latest == disk
      {
        InsertFront(b);
        b := b + 1;
      }
      InitInv(n, disk);
    }

    /** Put `b` at the front of the ring: the insertion of `binit` and `brelse`. */
    method InsertFront(b: nat)
      requires next != prev && Linked(next[..], prev[..], order, n)
      requires b < n && b !in order && |order| < n
      modifies next, prev, `order
      ensures order == [b] + old(order) && Linked(next[..], prev[..], order, n)
    {
      ghost var ns: seq<nat>, ps: seq<nat> := next[..], prev[..];
      LinkFront(ns, ps, order, n, b);
      next[b] := next[n];
      prev[b] := n;
      prev[next[n]] := b;
      next[n] := b;
      order := [b] + order;
      assert next[..] == ns[b := ns[n]][n := b] && prev[..] == ps[b := n][ns[n] := b];
    }
  
    method Unlink(b: nat, ghost k: nat)
      requires next != prev && Linked(next[..], prev[..], order, n)
      requires k < |order| && order[k] == b
      modifies next, prev, `order
      ensures order == old(order[..k] + order[k + 1..]) && Linked(next[..], prev[..], order, n)
      ensures b !in order
    {
      ghost var ns: seq<nat>, ps: seq<nat> := next[..], prev[..];
      Unlinked(ns, ps, order, n, k);
      prev[next[b]] := prev[b];
      next[prev[b]] := next[b];
      order := order[..k] + order[k + 1..];
      assert prev[..] == ps[ns[b] := ps[b]];
      assert next[..] == ns[ps[b] := ns[b]];
    }

    /** The forward scan of `bget`; the head (entry n) means not cached. */
    method FindCached(dev: nat, blockno: nat) returns (b: nat)
      requires Valid()
      ensures b == Node(order, n, Lookup(buf, order, dev, blockno, 0) + 1)
    {
      ghost var i: nat := 0;
      assert LinkAt(next[..], prev[..], order, n, 0);
      b := next[n];
      while b != n
        invariant i <= n && b == Node(order, n, i + 1)
        invariant Lookup(buf, order, dev, blockno, 0) == Lookup(buf, order, dev, blockno, i)
        decreases n - i
      {
        if buf[b].dev == dev && buf[b].blockno == blockno {
          return b;
        }
        i := i + 1;
        assert LinkAt(next[..], prev[..], order, n, i);
        b := next[b];
      }
    }

    /** The backward scan of `bget`; the head means that no buffer is idle. */
    method FindIdle() returns (b: nat)
      requires Valid()
      ensures b == Node(order, n, Victim(buf, order, n))
    {
      ghost var i: nat := n;
      assert LinkAt(next[..], prev[..], order, n, n);
      b := prev[n];
      while b != n
        invariant i <= n && b == Node(order, n, i)
        invariant Victim(buf, order, n) == Victim(buf, order, i)
        decreases i
      {
        if buf[b].refcnt == 0 && !buf[b].dirty {
          return b;
        }
        i := i - 1;
        assert LinkAt(next[..], prev[..], order, n, i);
        b := prev[b];
      }
    }

    /** The two scans of `bget` and what follows each. */
    method Claim(pid: nat, dev: nat, blockno: nat) returns (ok: bool, b: nat)
      requires Valid()
      modifies `buf
      ensures Valid() && ok == Get(old(State()), pid, dev, blockno).Some?
      ensures ok ==> Get(old(State()), pid, dev, blockno) == Some((State(), b))
      ensures !ok ==> State() == old(State())
    {
      b := FindCached(dev, blockno);
      if b != n {
        buf := buf[b := buf[b].(refcnt := buf[b].refcnt + 1,
                                users := buf[b].users + multiset{pid})];
        return true, b;
      }
      b := FindIdle();
      ok := b != n;
      if ok {
        buf := buf[b := Buf(dev, blockno, false, false, 1, buf[b].holder, multiset{pid},
                            buf[b].data)];
      }
    }

    /** Find the block, or recycle the least recently used idle buffer; `ok` is false on a panic. The
    buffer returned is that of the block, the caller is among its users, and no other has changed. */
    method Bget(pid: nat, dev: nat, blockno: nat) returns (ok: bool, b: nat)
      requires Valid()
      modifies `buf
      ensures Valid() && ok == Get(old(State()), pid, dev, blockno).Some?
      ensures ok ==> Get(old(State()), pid, dev, blockno) == Some((State(), b))
      ensures !ok ==> State() == old(State())
      ensures ok ==> b < n && |buf| == n && buf[b].Holds(dev, blockno) && buf[b].users[pid] > 0
      ensures ok ==> |old(buf)| == n && forall a | 0 <= a < n && a != b :: buf[a] == old(buf)[a]
    {
      ghost var was := State();
      hide Linked;
      ok, b := Claim(pid, dev, blockno);
      if ok {
        GetIs(was, pid, dev, blockno);
      }
    }

    /** The rest of `bread`: `acquiresleep` returns, and `iderw` reads the block if needed. */
    method LockAndFill(pid: nat, b: nat) returns (data: Block)
      requires Valid() && Enabled(State(), Lock(pid, b)) && KeyOf(buf[b]) in disk
      modifies `buf
      ensures Valid() && data == buf[b].data && buf[b].valid
      ensures var locked := Step(old(State()), Lock(pid, b));
              State() == if old(buf[b].valid) then locked else Step(locked, Fill(pid, b))
    {
      buf := buf[b := buf[b].(holder := pid)];
      if !buf[b].valid {
        buf := buf[b := buf[b].(valid := true, data := disk[KeyOf(buf[b])])];
      }
      data := buf[b].data;
    }

    /** `bread` of a block nobody has locked: its latest contents, in a buffer the caller holds. */
    method Bread(pid: nat, dev: nat, blockno: nat) returns (ok: bool, b: nat, data: Block)
      requires Valid() && Inv(State()) && pid != 0 && dev != 0 && (dev, blockno) in disk
      requires forall a | 0 <= a < |buf| && buf[a].Holds(dev, blockno) :: buf[a].holder == 0
      modifies `buf
      ensures Valid() && Inv(State()) && ok == Get(old(State()), pid, dev, blockno).Some?
      ensures ok ==> b < |buf| && buf[b].Holds(dev, blockno) && buf[b].holder == pid && buf[b].data == data
      ensures ok ==> (dev, blockno) in latest && data == latest[(dev, blockno)]
    {
      ghost var was := State();
      ok, b := Bget(pid, dev, blockno);
      if !ok {
        data := Block([]);
        return;
      }
      GetIs(was, pid, dev, blockno);
      GetInv(was, pid, dev, blockno);
      ghost var got := State();
      assert BufOk(was, was.bufs[b]);
      StepInv(got, Lock(pid, b));
      data := LockAndFill(pid, b);
      ghost var locked := Step(got, Lock(pid, b));
      if !got.bufs[b].valid { StepInv(locked, Fill(pid, b)); }
      hide Permutation;
      assert BufOk(State(), buf[b]);
    }

    /** New contents for a held buffer, then `bwrite`; `ok` is false on a panic. */
    method WriteBlock(pid: nat, b: nat, data: Block) returns (ok: bool)
      requires Valid() && b < n && pid != 0 && KeyOf(buf[b]) in disk
      modifies `buf, `disk, `latest
      ensures Valid() && ok == (old(buf[b].holder) == pid)
      ensures State() == if ok then Step(old(State()), Bwrite(pid, b, data)) else old(State())
    {
      if buf[b].holder != pid {
        return false;
      }
      latest := latest[KeyOf(buf[b]) := data];
      buf := buf[b := buf[b].(data := data, dirty := true)];
      // iderw: write the dirty buffer, then mark it valid and clean
      disk := disk[KeyOf(buf[b]) := buf[b].data];
      buf := buf[b := buf[b].(valid := true, dirty := false)];
      ok := true;
    }

    /** Move a buffer to the most recently used end. */
    method Refresh(b: nat)
      requires Valid() && b < n && b in order
      modifies next, prev, `order
      ensures Valid() && order == MoveToFront(old(order), Position(old(order), b))
    {
      assert |order| == n;
      hide Position, Linked, Permutation;
      ghost var o, k := order, Position(order, b);
      MoveToFrontPermutes(o, n, k);
      assert [o[k]] + (o[..k] + o[k + 1..]) == MoveToFront(o, k);
      Unlink(b, k);
      InsertFront(b);
    }

    /** `ok` is false on a panic. */
    method Brelse(pid: nat, b: nat) returns (ok: bool)
      requires Valid() && b < n && pid != 0 && KeyOf(buf[b]) in disk && buf[b].refcnt > 0
      modifies `buf, next, prev, `order
      ensures Valid() && ok == (old(buf[b].holder) == pid)
      ensures State() == if ok then Step(old(State()), Release(pid, b)) else old(State())
    {
      if buf[b].holder != pid {
        return false;
      }
      assert b in order;
      buf := buf[b := buf[b].(holder := 0, refcnt := buf[b].refcnt - 1,
                              users := buf[b].users - multiset{pid})];
      if buf[b].refcnt == 0 {
        Refresh(b);
      }
      ok := true;
    }
  }
}
