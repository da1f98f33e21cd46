/** How many blocks a write needs, and that it runs out of disk exactly when there are fewer. */
module FsSpace {
  import opened Common
  import opened Fs
  import opened FsFile

  /** The number of free blocks. */
  function Free(used: seq<bool>): nat
    decreases |used|
  {
    if used == [] then 0 else Free(used[..|used| - 1]) + if used[|used| - 1] then 0 else 1
  }

  lemma {:induction false} FreeTake(used: seq<bool>, b: nat)
    requires b < |used| && !used[b]
    ensures Free(used[b := true]) == Free(used) - 1
    decreases |used|
  {
    var n := |used| - 1;
    if b < n {
      assert used[b := true][..n] == used[..n][b := true];
      FreeTake(used[..n], b);
    } else {
      assert used[b := true][..n] == used[..n];
    }
  }

  lemma {:induction false} FreeNone(used: seq<bool>)
    ensures Free(used) == 0 <==> forall b | 0 <= b < |used| :: used[b]
    decreases |used|
  {
    if used != [] {
      FreeNone(used[..|used| - 1]);
    }
  }

  // ---------- what is missing ----------

  /** How many of the blocks from `lo` to below `hi` the file does not have. */
  function Missing(d: Disk, n: nat, lo: nat, hi: nat): nat
    requires Shape(d) && n < |d.inodes| && hi <= MAXFILE
    decreases hi - lo
  {
    if lo >= hi then 0 else (if Ptr(d, n, lo) == 0 then 1 else 0) + Missing(d, n, lo + 1, hi)
  }

  /** The indirect block is still to come. */
  predicate NeedsIndirect(d: Disk, n: nat, lo: nat, hi: nat)
    requires Shape(d) && n < |d.inodes|
  {
    lo < hi && hi > NDIRECT && Ptr(d, n, MAXFILE) == 0
  }

  /** How many blocks a write of the blocks from `lo` to below `hi` takes off the disk. */
  function Need(d: Disk, n: nat, lo: nat, hi: nat): nat
    requires Shape(d) && n < |d.inodes| && hi <= MAXFILE
  {
    Missing(d, n, lo, hi) + if NeedsIndirect(d, n, lo, hi) then 1 else 0
  }

  function First(off: nat): nat { off / BSIZE }

  function Past(off: nat, len: nat): nat {
    if len == 0 then off / BSIZE else (off + len - 1) / BSIZE + 1
  }

  lemma {:induction false} MissingSame(d: Disk, e: Disk, n: nat, lo: nat, hi: nat)
    requires Shape(d) && Shape(e) && n < |d.inodes| && n < |e.inodes| && hi <= MAXFILE
    requires forall j: nat | lo <= j < hi :: Ptr(e, n, j) == 0 <==> Ptr(d, n, j) == 0
    ensures Missing(e, n, lo, hi) == Missing(d, n, lo, hi)
    decreases hi - lo
  {
    hide Ptr, Shape;
    if lo < hi {
      MissingSame(d, e, n, lo + 1, hi);
    }
  }

  // ---------- one block ----------

  /** What `bmap` of block `bn` allocates. */
  function Cost(d: Disk, n: nat, bn: nat): nat
    requires Shape(d) && n < |d.inodes| && bn < MAXFILE
  {
    (if Ptr(d, n, bn) == 0 then 1 else 0) + if bn >= NDIRECT && Ptr(d, n, MAXFILE) == 0 then 1 else 0
  }

  lemma AllocSpends(d: Disk, n: nat, i: nat)
    requires Shape(d) && n < |d.inodes| && i <= MAXFILE && Ptr(d, n, i) == 0
    ensures AllocPtr(d, n, i).Some? <==> Free(d.used) > 0
    ensures AllocPtr(d, n, i).Some? ==> Free(AllocPtr(d, n, i).value.used) == Free(d.used) - 1
  {
    var b := FirstFree(d.used, 0);
    FreeNone(d.used);
    if b < |d.used| {
      FreeTake(d.used, b);
      BallocShape(d);
    }
    hide Free;
  }

  lemma BmapSpends(d: Disk, n: nat, bn: nat)
    requires Shape(d) && Owned(d) && n < |d.inodes| && bn < MAXFILE
    ensures Bmap(d, n, bn).Some? <==> Free(d.used) >= Cost(d, n, bn)
    ensures Bmap(d, n, bn).Some? ==>
      var e := Bmap(d, n, bn).value;
      && Free(e.used) == Free(d.used) - Cost(d, n, bn)
      && Shape(e) && n < |e.inodes|
      && (Ptr(e, n, MAXFILE) == 0 <==> Ptr(d, n, MAXFILE) == 0 && bn < NDIRECT)
  {
    if bn < NDIRECT {
      if Ptr(d, n, bn) == 0 {
        AllocSpends(d, n, bn);
        if AllocPtr(d, n, bn).Some? { AllocPtrOk(d, n, bn); }
      }
    } else if Ptr(d, n, MAXFILE) != 0 {
      if Ptr(d, n, bn) == 0 {
        AllocSpends(d, n, bn);
        if AllocPtr(d, n, bn).Some? { AllocPtrOk(d, n, bn); }
      }
    } else {
      FirstWordSpends(d, n, bn);
    }
  }

  lemma FirstWordSpends(d: Disk, n: nat, bn: nat)
    requires Shape(d) && Owned(d) && n < |d.inodes| && NDIRECT <= bn < MAXFILE && Ptr(d, n, MAXFILE) == 0
    ensures Bmap(d, n, bn).Some? <==> Free(d.used) >= 2
    ensures Bmap(d, n, bn).Some? ==>
      var e := Bmap(d, n, bn).value;
      Free(e.used) == Free(d.used) - 2 && Shape(e) && n < |e.inodes| && Ptr(e, n, MAXFILE) != 0
  {
    assert Ptr(d, n, bn) == 0;
    AllocSpends(d, n, MAXFILE);
    if AllocPtr(d, n, MAXFILE).Some? {
      AllocPtrOk(d, n, MAXFILE);
      AllocShape(d, n, MAXFILE);
      var e := AllocPtr(d, n, MAXFILE).value;
      assert Ptr(e, n, bn) == 0 && Ptr(e, n, MAXFILE) != 0;
      AllocSpends(e, n, bn);
      if AllocPtr(e, n, bn).Some? { AllocPtrOk(e, n, bn); }
    }
  }

  // ---------- a range ----------

  /** From `d` to `e` the file gained exactly the blocks from `lo` to below `hi`, and the disk lost as
  many as that takes. */
  ghost predicate Grown(d: Disk, e: Disk, n: nat, lo: nat, hi: nat)
    requires Shape(d) && Shape(e) && hi <= MAXFILE
  {
    && n < |d.inodes| && n < |e.inodes|
    && (forall j: nat | j < MAXFILE :: Ptr(e, n, j) == 0 <==> Ptr(d, n, j) == 0 && !(lo <= j < hi))
    && (Ptr(e, n, MAXFILE) == 0 <==> Ptr(d, n, MAXFILE) == 0 && !NeedsIndirect(d, n, lo, hi))
    && Free(e.used) == Free(d.used) - Need(d, n, lo, hi)
  }

  lemma GrownNone(d: Disk, n: nat, lo: nat)
    requires Shape(d) && n < |d.inodes| && lo <= MAXFILE
    ensures Grown(d, d, n, lo, lo)
  {
    hide Ptr, Shape;
  }

  lemma {:induction false} MissingSplit(d: Disk, n: nat, lo: nat, mid: nat, hi: nat)
    requires Shape(d) && n < |d.inodes| && lo <= mid <= hi <= MAXFILE
    ensures Missing(d, n, lo, hi) == Missing(d, n, lo, mid) + Missing(d, n, mid, hi)
    decreases mid - lo
  {
    hide Ptr, Shape;
    if lo < mid {
      MissingSplit(d, n, lo + 1, mid, hi);
    }
  }

  /** The rest of a range, seen from `e`, costs what was not paid for yet; blocks that are there cost
  nothing. */
  lemma NeedRest(d: Disk, e: Disk, n: nat, lo: nat, mid: nat, hi: nat)
    requires Shape(d) && Shape(e) && lo <= mid <= hi <= MAXFILE && Grown(d, e, n, lo, mid)
    ensures Need(d, n, lo, hi) == Need(d, n, lo, mid) + Need(e, n, mid, hi)
  {
    MissingSplit(d, n, lo, mid, hi);
    MissingSame(d, e, n, mid, hi);
    hide Ptr, Shape, Missing;
  }

  lemma GrownThen(d: Disk, e: Disk, f: Disk, n: nat, lo: nat, mid: nat, hi: nat)
    requires Shape(d) && Shape(e) && Shape(f) && lo <= mid <= hi <= MAXFILE
    requires Grown(d, e, n, lo, mid) && Grown(e, f, n, mid, hi)
    ensures Grown(d, f, n, lo, hi)
  {
    NeedRest(d, e, n, lo, mid, hi);
    hide Ptr, Shape, Missing, Free;
  }

  /** A block that is there already may be counted in or left out. */
  lemma GrownOver(d: Disk, e: Disk, n: nat, lo: nat, hi: nat)
    requires Shape(d) && Shape(e) && lo < hi <= MAXFILE && n < |d.inodes| && Ptr(d, n, lo) != 0
    requires lo >= NDIRECT ==> Ptr(d, n, MAXFILE) != 0
    ensures Grown(d, e, n, lo, hi) <==> Grown(d, e, n, lo + 1, hi)
    ensures Need(d, n, lo, hi) == Need(d, n, lo + 1, hi)
  {
    hide Ptr, Shape, Free;
  }

  /** `bmap` gains one block, and fails exactly when the disk has too few. */
  lemma BmapGrows(d: Disk, n: nat, bn: nat)
    requires Shape(d) && Owned(d) && n < |d.inodes| && bn < MAXFILE
    ensures Bmap(d, n, bn).Some? <==> Free(d.used) >= Need(d, n, bn, bn + 1)
    ensures Bmap(d, n, bn).Some? ==>
      var e := Bmap(d, n, bn).value; Shape(e) && Grown(d, e, n, bn, bn + 1)
  {
    BmapSpends(d, n, bn);
    assert Missing(d, n, bn + 1, bn + 1) == 0;
    assert Need(d, n, bn, bn + 1) == Cost(d, n, bn);
    if Bmap(d, n, bn).Some? { BmapOk(d, n, bn); }
    hide Ptr, Shape, Free, Bmap, Missing;
  }

  /** The count does not look at sizes, contents or the log. */
  lemma GrownSame(d: Disk, e: Disk, f: Disk, n: nat, lo: nat, hi: nat)
    requires Shape(d) && Shape(e) && Shape(f) && hi <= MAXFILE && Grown(d, e, n, lo, hi)
    requires f.used == e.used && n < |f.inodes|
    requires forall j: nat | j <= MAXFILE :: Ptr(f, n, j) == Ptr(e, n, j)
    ensures Grown(d, f, n, lo, hi)
  {
    hide Ptr, Shape, Free;
  }

  lemma SameNeed(d: Disk, e: Disk, n: nat, lo: nat, hi: nat)
    requires Shape(d) && Shape(e) && n < |d.inodes| && n < |e.inodes| && hi <= MAXFILE
    requires forall j: nat | j <= MAXFILE :: Ptr(e, n, j) == Ptr(d, n, j)
    ensures Need(e, n, lo, hi) == Need(d, n, lo, hi)
  {
    MissingSame(d, e, n, lo, hi);
  }

  lemma NeedMore(d: Disk, n: nat, lo: nat, mid: nat, hi: nat)
    requires Shape(d) && n < |d.inodes| && lo <= mid <= hi <= MAXFILE
    ensures Need(d, n, lo, mid) <= Need(d, n, lo, hi)
  {
    MissingSplit(d, n, lo, mid, hi);
    hide Ptr, Shape, Missing;
  }

  /** A round that fails for lack of blocks means that the whole range needs more than there were. */
  lemma TooFew(d: Disk, e: Disk, n: nat, lo: nat, bn: nat, hi: nat)
    requires Shape(d) && Shape(e) && lo <= bn < hi <= MAXFILE && Grown(d, e, n, lo, bn)
    requires Free(e.used) < Need(e, n, bn, bn + 1)
    ensures Free(d.used) < Need(d, n, lo, hi)
  {
    NeedRest(d, e, n, lo, bn, hi);
    NeedMore(e, n, bn, bn + 1, hi);
    hide Ptr, Shape, Missing, Free;
  }

  // ---------- ranges of bytes ----------

  /** How many blocks a write of `len` bytes at `off` takes off the disk. */
  function NeedBytes(d: Disk, n: nat, off: nat, len: nat): nat
    requires Shape(d) && n < |d.inodes| && (len == 0 || off + len <= MAXFILE * BSIZE)
  {
    if len == 0 then 0 else Need(d, n, First(off), Past(off, len))
  }

  ghost predicate GrownBytes(d: Disk, e: Disk, n: nat, off: nat, len: nat)
    requires Shape(d) && Shape(e) && (len == 0 || off + len <= MAXFILE * BSIZE)
  {
    if len == 0 then Grown(d, e, n, 0, 0) else Grown(d, e, n, First(off), Past(off, len))
  }

  /** A range of bytes and the one right behind it. */
  lemma GrownChunk(d: Disk, e: Disk, f: Disk, n: nat, off: nat, i: nat, k: nat)
    requires Shape(d) && Shape(e) && Shape(f) && k > 0 && off + i + k <= MAXFILE * BSIZE
    requires GrownBytes(d, e, n, off, i)
    ensures n < |d.inodes| && n < |e.inodes|
    ensures NeedBytes(d, n, off, i + k) == NeedBytes(d, n, off, i) + NeedBytes(e, n, off + i, k)
    ensures GrownBytes(e, f, n, off + i, k) ==> GrownBytes(d, f, n, off, i + k)
  {
    assert Missing(d, n, 0, 0) == 0;
    hide Ptr, Shape, Missing, Free;
    if i == 0 {
      MissingSame(d, e, n, First(off), Past(off, k));
    } else {
      var lo, mid, hi := First(off), Past(off, i), Past(off, i + k);
      assert Past(off + i, k) == hi && First(off + i) <= mid <= hi && lo < mid;
      NeedRest(d, e, n, lo, mid, hi);
      if First(off + i) != mid {
        assert First(off + i) == mid - 1;
        GrownOver(e, f, n, mid - 1, hi);
      }
      if Grown(e, f, n, mid, hi) { GrownThen(d, e, f, n, lo, mid, hi); }
    }
  }

  lemma NeedBytesMore(d: Disk, n: nat, off: nat, len: nat, more: nat)
    requires Shape(d) && n < |d.inodes| && len <= more && (more == 0 || off + more <= MAXFILE * BSIZE)
    ensures NeedBytes(d, n, off, len) <= NeedBytes(d, n, off, more)
  {
    if len > 0 {
      NeedMore(d, n, First(off), Past(off, len), Past(off, more));
    }
  }

  // ---------- how far a chunked write gets ----------

  const LIMIT: nat := MAXFILE * BSIZE

  /** How many of `n` bytes `filewrite` writes at `off`: all of them if they fit, else the whole
  chunks before the first one that does not, and none beyond the end of the file. */
  function Reach(off: nat, size: nat, n: int, chunk: nat): (w: nat)
    requires chunk > 0
  {
    if n <= 0 || off > size || off > LIMIT then 0
    else if off + n <= LIMIT then n
    else (LIMIT - off) / chunk * chunk
  }

  lemma ReachFits(off: nat, size: nat, n: int, chunk: nat)
    requires chunk > 0
    ensures var w := Reach(off, size, n, chunk);
      && (w == 0 || off + w <= LIMIT) && (w == 0 || w <= n)
      && (n > 0 && off <= size <= LIMIT ==> (w == n <==> off + n <= LIMIT))
  {
  }

  lemma ReachAll(off: nat, size: nat, n: int, chunk: nat)
    requires chunk > 0 && size <= LIMIT
    ensures Reach(off, size, n, chunk) == n <==> n == 0 || (n > 0 && off <= size && off + n <= LIMIT)
  {
  }

  /** One more chunk fits. */
  lemma ReachStep(off: nat, size: nat, n: int, chunk: nat, q: nat, n1: nat)
    requires chunk > 0 && q * chunk < n && off <= size <= LIMIT
    requires n1 == (if n - q * chunk > chunk then chunk else n - q * chunk) && off + q * chunk + n1 <= LIMIT
    ensures q * chunk + n1 <= Reach(off, size, n, chunk)
    ensures q * chunk + n1 == n || q * chunk + n1 == (q + 1) * chunk
  {
    assert (q + 1) * chunk == q * chunk + chunk;
    if off + n > LIMIT {
      FloorAbove(LIMIT - off, chunk, q + 1);
    }
  }

  lemma FloorAbove(room: nat, chunk: nat, q: nat)
    requires chunk > 0 && q * chunk <= room
    ensures q * chunk <= room / chunk * chunk
  {
    var k := room / chunk;
    assert room == k * chunk + room % chunk;
    assert (k + 1) * chunk == k * chunk + chunk;
    MulLess(k + 1, q, chunk);
    MulLess(q, k, chunk);
  }

  lemma MulLess(a: nat, b: nat, m: nat)
    ensures a <= b ==> a * m <= b * m
  {
    if a <= b { assert b * m == a * m + (b - a) * m; }
  }

  /** The first chunk that does not fit ends the write. */
  lemma ReachStop(off: nat, size: nat, n: int, chunk: nat, q: nat, n1: nat)
    requires chunk > 0 && q * chunk < n && size <= LIMIT && q * chunk <= Reach(off, size, n, chunk)
    requires n1 == (if n - q * chunk > chunk then chunk else n - q * chunk)
    requires off > size || off + q * chunk + n1 > LIMIT
    ensures q * chunk == Reach(off, size, n, chunk)
  {
    if off <= size {
      FloorIs(LIMIT - off, chunk, q);
    }
  }

  lemma FloorIs(room: nat, chunk: nat, q: nat)
    requires chunk > 0
    ensures q * chunk <= room / chunk * chunk && q * chunk + chunk > room ==> q * chunk == room / chunk * chunk
  {
    var k := room / chunk;
    assert room == k * chunk + room % chunk;
    assert (q + 1) * chunk == q * chunk + chunk;
    MulLess(q + 1, k, chunk);
    MulLess(k, q, chunk);
  }
}
