/** Files as byte sequences: what `bmap` and one block copy do to the contents of every file, and the
effect of a whole `writei` built from them. */
module FsFile {
  import opened Common
  import opened Fs

  /** `e` has all the addresses and data of `d`, and possibly more blocks for inode `n`. */
  ghost predicate Extends(d: Disk, e: Disk, n: nat)
    requires Shape(d) && Shape(e)
  {
    && e.sb == d.sb && |e.inodes| == |d.inodes|
    && (forall m | 0 <= m < |d.inodes| :: e.inodes[m].size == d.inodes[m].size)
    && (forall b: nat | b < |d.used| && d.used[b] :: e.used[b])
    && (forall m: nat, j: nat | m < |d.inodes| && j <= MAXFILE && (m != n || Ptr(d, m, j) != 0) ::
          Ptr(e, m, j) == Ptr(d, m, j))
    && (forall m: nat, j: nat | m < |d.inodes| && j < MAXFILE && Ptr(d, m, j) != 0 ::
          Ptr(d, m, j) < |d.blocks| && e.blocks[Ptr(d, m, j)] == d.blocks[Ptr(d, m, j)])
  }

  /** The log space of the indirect block of inode `n`, if it has one. */
  function IndirectLog(d: Disk, n: nat): set<nat>
    requires Shape(d) && n < |d.inodes|
  {
    var b := Ptr(d, n, MAXFILE);
    if b == 0 then {} else {b, BBlock(d.sb, b)}
  }

  lemma ExtendsSelf(d: Disk, n: nat)
    requires Shape(d) && Owned(d)
    ensures Extends(d, d, n)
  {
    forall m: nat, j: nat | m < |d.inodes| && j < MAXFILE && Ptr(d, m, j) != 0
      ensures Ptr(d, m, j) < |d.blocks|
    {
      assert Taken(d, Ptr(d, m, j));
    }
  }

  lemma ExtendsTrans(d: Disk, e: Disk, f: Disk, n: nat)
    requires Shape(d) && Shape(e) && Shape(f) && Extends(d, e, n) && Extends(e, f, n)
    ensures Extends(d, f, n)
  {
    hide Ptr;
  }

  lemma AllocatedExtends(d: Disk, e: Disk, n: nat, i: nat, b: nat)
    requires Shape(d) && Owned(d) && Shape(e) && n < |d.inodes| && i <= MAXFILE
    requires Allocated(d, e, n, i, b) && Ptr(d, n, i) == 0
    ensures Extends(d, e, n)
  {
    forall m: nat, j: nat | m < |d.inodes| && j < MAXFILE && Ptr(d, m, j) != 0
      ensures Ptr(d, m, j) < |d.blocks| && e.blocks[Ptr(d, m, j)] == d.blocks[Ptr(d, m, j)]
    {
      assert Taken(d, Ptr(d, m, j));
      assert Ptr(d, m, j) != Ptr(d, n, MAXFILE);
    }
    hide Ptr;
  }

  /** `bmap`: afterwards block `bn` of the file is there, zeroed if it is new, and nothing else
  changed; what it logged is the new block, its bitmap block, and the indirect block with its own
  bitmap block. */
  lemma BmapOk(d: Disk, n: nat, bn: nat)
    requires Shape(d) && Owned(d) && n < |d.inodes| && bn < MAXFILE && Bmap(d, n, bn).Some?
    ensures var e := Bmap(d, n, bn).value;
            && Shape(e) && Owned(e) && Extends(d, e, n) && Ptr(e, n, bn) != 0
            && (Ptr(d, n, bn) == 0 ==>
                  Ptr(e, n, bn) < |e.blocks| && e.blocks[Ptr(e, n, bn)] == Zero())
            && (forall j: nat | j < MAXFILE && j != bn :: Ptr(e, n, j) == Ptr(d, n, j))
            && e.logged <= d.logged + IndirectLog(e, n)
                 + (if Ptr(d, n, bn) == 0 then {Ptr(e, n, bn), BBlock(d.sb, Ptr(e, n, bn))} else {})
  {
    hide Ptr, Zero, Balloc, SetPtr;
    ExtendsSelf(d, n);
    var d1 := d;
    if bn >= NDIRECT && Ptr(d, n, MAXFILE) == 0 {
      AllocPtrOk(d, n, MAXFILE);
      d1 := AllocPtr(d, n, MAXFILE).value;
      AllocatedExtends(d, d1, n, MAXFILE, FirstFree(d.used, 0));
    }
    if Ptr(d1, n, bn) == 0 {
      AllocPtrOk(d1, n, bn);
      var e := AllocPtr(d1, n, bn).value;
      AllocatedExtends(d1, e, n, bn, FirstFree(d1.used, 0));
      ExtendsTrans(d, d1, e, n);
    }
  }

  /** A block that is there is found without any allocation. */
  lemma BmapThere(d: Disk, n: nat, bn: nat)
    requires Shape(d) && n < |d.inodes| && bn < MAXFILE && Ptr(d, n, bn) != 0
    ensures Bmap(d, n, bn) == Some(d)
  {
  }

  // ---------- one block copy ----------

  /** `memmove` into the block at `b`, then `log_write`. */
  function PutBytes(d: Disk, b: nat, o: nat, src: seq<nat>): Disk
    requires Shape(d) && b < |d.blocks| && o + |src| <= BSIZE
  {
    var was := d.blocks[b].bytes;
    d.(blocks := d.blocks[b := Block(was[..o] + src + was[o + |src|..])],
       logged := d.logged + {b})
  }

  lemma PutBytesOk(d: Disk, n: nat, bn: nat, o: nat, src: seq<nat>)
    requires Shape(d) && Owned(d) && n < |d.inodes| && bn < MAXFILE && Ptr(d, n, bn) != 0
    requires o + |src| <= BSIZE
    ensures Ptr(d, n, bn) < |d.blocks|
    ensures var e := PutBytes(d, Ptr(d, n, bn), o, src);
            && Shape(e) && Owned(e)
            && (forall m: nat, j: nat | m < |d.inodes| && j <= MAXFILE :: Ptr(e, m, j) == Ptr(d, m, j))
            && (forall m: nat, k: nat | m < |d.inodes| && k < MAXFILE * BSIZE ::
                  ByteAt(e, m, k) == if m == n && bn * BSIZE + o <= k < bn * BSIZE + o + |src|
                                     then src[k - (bn * BSIZE + o)] else ByteAt(d, m, k))
  {
    var b := Ptr(d, n, bn);
    assert Taken(d, b);
    var e := PutBytes(d, b, o, src);
    forall m: nat, j: nat | m < |d.inodes| && j <= MAXFILE ensures Ptr(e, m, j) == Ptr(d, m, j) {
      assert Ptr(d, m, MAXFILE) != b;
    }
    assert Owned(e) by { hide Ptr; }
    forall m: nat, k: nat | m < |d.inodes| && k < MAXFILE * BSIZE
      ensures ByteAt(e, m, k) == if m == n && bn * BSIZE + o <= k < bn * BSIZE + o + |src|
                                 then src[k - (bn * BSIZE + o)] else ByteAt(d, m, k)
    {
      var j := k / BSIZE;
      assert k == j * BSIZE + k % BSIZE;
      hide Ptr;
    }
  }

  // ---------- a write in progress ----------

  /** `src` has been written to file `n` at `off`, starting from disk `d`: those bytes are in place,
  and all other bytes of all files are as before. */
  ghost predicate Written(d: Disk, e: Disk, n: nat, off: nat, src: seq<nat>)
    requires Shape(d) && Shape(e)
  {
    && e.sb == d.sb && |e.inodes| == |d.inodes| && n < |d.inodes|
    && off + |src| <= MAXFILE * BSIZE
    && (forall m | 0 <= m < |d.inodes| :: e.inodes[m].size == d.inodes[m].size)
    && (forall m: nat, j: nat | m < |d.inodes| && j <= MAXFILE && (m != n || Ptr(d, m, j) != 0) ::
          Ptr(e, m, j) == Ptr(d, m, j))
    && (forall m: nat, k: nat | m < |d.inodes| && k < MAXFILE * BSIZE
          && Ptr(d, m, k / BSIZE) != 0 && !(m == n && off <= k < off + |src|) ::
          ByteAt(e, m, k) == ByteAt(d, m, k))
    && (forall k: nat | off <= k < off + |src| ::
          Ptr(e, n, k / BSIZE) != 0 && ByteAt(e, n, k) == src[k - off])
  }

  lemma WrittenNone(d: Disk, n: nat, off: nat)
    requires Shape(d) && n < |d.inodes| && off <= MAXFILE * BSIZE
    ensures Written(d, d, n, off, [])
  {
  }

  lemma ExtendsBytes(d: Disk, e: Disk, n: nat)
    requires Shape(d) && Shape(e) && Extends(d, e, n)
    ensures forall m: nat, k: nat | m < |d.inodes| && k < MAXFILE * BSIZE
              && Ptr(d, m, k / BSIZE) != 0 ::
              Ptr(e, m, k / BSIZE) == Ptr(d, m, k / BSIZE) && ByteAt(e, m, k) == ByteAt(d, m, k)
  {
    hide Ptr;
    forall m: nat, k: nat | m < |d.inodes| && k < MAXFILE * BSIZE && Ptr(d, m, k / BSIZE) != 0
      ensures Ptr(e, m, k / BSIZE) == Ptr(d, m, k / BSIZE) && ByteAt(e, m, k) == ByteAt(d, m, k)
    {
      assert k / BSIZE < MAXFILE;
    }
  }

  /** `bmap` moves no byte that is there. */
  lemma WrittenMapped(d: Disk, e: Disk, f: Disk, n: nat, off: nat, src: seq<nat>)
    requires Shape(d) && Shape(e) && Shape(f) && Written(d, e, n, off, src) && Extends(e, f, n)
    ensures Written(d, f, n, off, src)
  {
    hide Ptr, ByteAt;
    ExtendsBytes(e, f, n);
    forall m: nat, k: nat | m < |d.inodes| && k < MAXFILE * BSIZE
          && Ptr(d, m, k / BSIZE) != 0 && !(m == n && off <= k < off + |src|)
      ensures ByteAt(f, m, k) == ByteAt(d, m, k)
    {
      assert k / BSIZE < MAXFILE;
      assert Ptr(e, m, k / BSIZE) == Ptr(d, m, k / BSIZE);
    }
  }

  /** The bytes of one more piece. */
  lemma WrittenPut(d: Disk, f: Disk, g: Disk, n: nat, off: nat, src: seq<nat>, piece: seq<nat>)
    requires Shape(d) && Shape(f) && Shape(g) && Written(d, f, n, off, src)
    requires off + |src| + |piece| <= MAXFILE * BSIZE
    requires g == f.(blocks := g.blocks, logged := g.logged)
    requires forall m: nat, j: nat | m < |f.inodes| && j <= MAXFILE :: Ptr(g, m, j) == Ptr(f, m, j)
    requires forall m: nat, k: nat | m < |f.inodes| && k < MAXFILE * BSIZE ::
               ByteAt(g, m, k) == if m == n && off + |src| <= k < off + |src| + |piece|
                                  then piece[k - (off + |src|)] else ByteAt(f, m, k)
    requires forall k: nat | off + |src| <= k < off + |src| + |piece| :: Ptr(f, n, k / BSIZE) != 0
    ensures Written(d, g, n, off, src + piece)
  {
    hide Ptr, ByteAt;
    forall k: nat | off <= k < off + |src + piece|
      ensures Ptr(g, n, k / BSIZE) != 0 && ByteAt(g, n, k) == (src + piece)[k - off]
    {
      assert k / BSIZE < MAXFILE;
      assert Ptr(f, n, k / BSIZE) != 0;
    }
  }

  /** One round of `writei`: `bmap`, copy up to the end of the block, log. */
  lemma WrittenNext(d: Disk, e: Disk, n: nat, off: nat, src: seq<nat>, piece: seq<nat>)
    requires Shape(d) && Shape(e) && Owned(e) && Written(d, e, n, off, src)
    requires var o := (off + |src|) % BSIZE; 0 < |piece| && o + |piece| <= BSIZE
    requires off + |src| + |piece| <= MAXFILE * BSIZE
    requires var bn := (off + |src|) / BSIZE; bn < MAXFILE && Bmap(e, n, bn).Some?
    ensures var bn, o := (off + |src|) / BSIZE, (off + |src|) % BSIZE;
            var f := Bmap(e, n, bn).value;
            && Shape(f) && Ptr(f, n, bn) != 0 && Ptr(f, n, bn) < |f.blocks|
            && var g := PutBytes(f, Ptr(f, n, bn), o, piece);
            && Shape(g) && Owned(g) && Written(d, g, n, off, src + piece)
  {
    var bn, o := (off + |src|) / BSIZE, (off + |src|) % BSIZE;
    assert bn * BSIZE + o == off + |src|;
    var f := Bmap(e, n, bn).value;
    hide Ptr, Bmap, ByteAt;
    BmapOk(e, n, bn);
    WrittenMapped(d, e, f, n, off, src);
    hide Written, Extends;
    PutBytesOk(f, n, bn, o, piece);
    var g := PutBytes(f, Ptr(f, n, bn), o, piece);
    forall k: nat | off + |src| <= k < off + |src| + |piece| ensures Ptr(f, n, k / BSIZE) != 0 {
      assert k / BSIZE == bn;
    }
    WrittenPut(d, f, g, n, off, src, piece);
  }

  // ---------- contents ----------

  /** `src` laid over `c` at `off`, extending it at the end. */
  function Splice(c: seq<nat>, off: nat, src: seq<nat>): seq<nat>
    requires off <= |c|
  {
    c[..off] + src + (if off + |src| < |c| then c[off + |src|..] else [])
  }

  /** Reading back what was written. */
  lemma SpliceRead(c: seq<nat>, off: nat, src: seq<nat>)
    requires off <= |c|
    ensures var s := Splice(c, off, src);
            && |s| == (if off + |src| > |c| then off + |src| else |c|)
            && s[off..off + |src|] == src && s[..off] == c[..off]
            && (forall k | off + |src| <= k < |c| :: s[k] == c[k])
  {
  }

  /** Two writes, the second where the first ended, are one. */
  lemma SpliceTwice(c: seq<nat>, off: nat, a: seq<nat>, b: seq<nat>)
    requires off <= |c|
    ensures off + |a| <= |Splice(c, off, a)|
    ensures Splice(Splice(c, off, a), off + |a|, b) == Splice(c, off, a + b)
  {
    var s := Splice(c, off, a);
    assert s[..off + |a|] == c[..off] + a;
  }

  function SetSize(d: Disk, n: nat, size: nat): Disk
    requires n < |d.inodes|
  {
    d.(inodes := d.inodes[n := d.inodes[n].(size := size)],
       logged := d.logged + {IBlock(d.sb, n)})
  }

  lemma SetSizePtrs(d: Disk, n: nat, size: nat)
    requires Shape(d) && n < |d.inodes|
    ensures var e := SetSize(d, n, size);
            && Shape(e) && (Owned(d) ==> Owned(e))
            && (forall m: nat, j: nat | m < |d.inodes| && j <= MAXFILE :: Ptr(e, m, j) == Ptr(d, m, j))
  {
    var e := SetSize(d, n, size);
    forall m: nat, j: nat | m < |d.inodes| && j <= MAXFILE ensures Ptr(e, m, j) == Ptr(d, m, j) {
    }
    hide Ptr;
  }

  function Max(a: nat, b: nat): nat {
    if a < b then b else a
  }

  /** A finished write: the file is the old contents with `src` spliced in, every other file is as
  before, and the file system is as well-formed as before. */
  lemma WrittenDone(d: Disk, e: Disk, n: nat, off: nat, src: seq<nat>)
    requires Inv(d) && Shape(e) && Owned(e) && Written(d, e, n, off, src)
    requires off <= d.inodes[n].size
    ensures var f := if off + |src| > d.inodes[n].size then SetSize(e, n, off + |src|) else e;
            && Inv(f) && |f.inodes| == |d.inodes|
            && Contents(f, n) == Splice(Contents(d, n), off, src)
            && (forall m: nat | m < |d.inodes| && m != n :: Contents(f, m) == Contents(d, m))
  {
    hide Ptr, ByteAt;
    var f := if off + |src| > d.inodes[n].size then SetSize(e, n, off + |src|) else e;
    SetSizePtrs(e, n, off + |src|);
    assert forall m: nat, k: nat | m < |d.inodes| && k < MAXFILE * BSIZE ::
        ByteAt(f, m, k) == ByteAt(e, m, k) by {
      BytesFromPtrs(e, f);
    }
    forall m: nat, i: nat | m < |f.inodes| && i < Blocks(f.inodes[m].size)
      ensures Ptr(f, m, i) != 0
    {
      if i >= Blocks(d.inodes[m].size) {
        assert (i * BSIZE) / BSIZE == i && off <= i * BSIZE < off + |src|;
      } else {
        assert Ptr(d, m, i) != 0;
      }
    }
    FileBytes(d, e, f, n, off, src);
    forall m: nat | m < |d.inodes| && m != n ensures Contents(f, m) == Contents(d, m) {
      forall k: nat | k < d.inodes[m].size ensures ByteAt(f, m, k) == ByteAt(d, m, k) {
        assert Ptr(d, m, k / BSIZE) != 0;
      }
    }
  }

  lemma BytesFromPtrs(d: Disk, e: Disk)
    requires Shape(d) && Shape(e) && e.blocks == d.blocks && |e.inodes| == |d.inodes|
    requires forall m: nat, j: nat | m < |d.inodes| && j <= MAXFILE :: Ptr(e, m, j) == Ptr(d, m, j)
    ensures forall m: nat, k: nat | m < |d.inodes| && k < MAXFILE * BSIZE ::
              ByteAt(e, m, k) == ByteAt(d, m, k)
  {
    hide Ptr;
    forall m: nat, k: nat | m < |d.inodes| && k < MAXFILE * BSIZE
      ensures ByteAt(e, m, k) == ByteAt(d, m, k)
    {
      assert k / BSIZE < MAXFILE;
    }
  }

  lemma FileBytes(d: Disk, e: Disk, f: Disk, n: nat, off: nat, src: seq<nat>)
    requires Inv(d) && Shape(e) && Shape(f) && Written(d, e, n, off, src)
    requires off <= d.inodes[n].size && |f.inodes| == |d.inodes|
    requires f.inodes[n].size == Max(d.inodes[n].size, off + |src|)
    requires forall k: nat | k < MAXFILE * BSIZE :: ByteAt(f, n, k) == ByteAt(e, n, k)
    ensures Contents(f, n) == Splice(Contents(d, n), off, src)
  {
    hide Ptr, ByteAt;
    var c, s := Contents(d, n), Splice(Contents(d, n), off, src);
    forall k: nat | k < |s| ensures Contents(f, n)[k] == s[k] {
      if k < d.inodes[n].size {
        assert k / BSIZE < Blocks(d.inodes[n].size);
        assert Ptr(d, n, k / BSIZE) != 0;
      }
    }
  }

  // ---------- truncation ----------

  /** The blocks held at the first `k` positions of inode `n`. */
  function HeldUpTo(d: Disk, n: nat, k: nat): set<nat>
    requires Shape(d) && n < |d.inodes| && k <= MAXFILE + 1
  {
    set i: nat | i < k && Ptr(d, n, i) != 0 :: Ptr(d, n, i)
  }

  /** `itrunc` gives back exactly the blocks of the inode. */
  function Truncated(d: Disk, n: nat): Disk
    requires Shape(d) && n < |d.inodes|
  {
    var held := HeldUpTo(d, n, MAXFILE + 1);
    d.(used := seq(|d.used|, b requires 0 <= b < |d.used| => d.used[b] && b !in held),
       inodes := d.inodes[n := Inode(seq(NDIRECT + 1, _ => 0), 0)],
       logged := d.logged + (set b | b in held :: BBlock(d.sb, b)) + {IBlock(d.sb, n)})
  }

  /** The next block to be freed is still marked used: "freeing free block" cannot happen. */
  lemma StillUsed(d: Disk, n: nat, k: nat)
    requires Shape(d) && Owned(d) && n < |d.inodes| && k <= MAXFILE && Ptr(d, n, k) != 0
    ensures Taken(d, Ptr(d, n, k)) && Ptr(d, n, k) !in HeldUpTo(d, n, k)
    ensures HeldUpTo(d, n, k + 1) == HeldUpTo(d, n, k) + {Ptr(d, n, k)}
  {
    hide Ptr;
  }

  lemma TruncatedPtrs(d: Disk, n: nat)
    requires Shape(d) && Owned(d) && n < |d.inodes|
    ensures var e := Truncated(d, n);
            && Shape(e)
            && (forall m: nat, j: nat | m < |d.inodes| && j <= MAXFILE ::
                  Ptr(e, m, j) == if m == n then 0 else Ptr(d, m, j))
  {
    var e := Truncated(d, n);
    forall b | 0 <= b < d.sb.meta ensures e.used[b] {
      forall i: nat | i <= MAXFILE && Ptr(d, n, i) != 0 ensures Ptr(d, n, i) != b {
        assert Taken(d, Ptr(d, n, i));
      }
    }
  }

  lemma TruncatedOwned(d: Disk, n: nat)
    requires Shape(d) && Owned(d) && n < |d.inodes|
    ensures Shape(Truncated(d, n)) && Owned(Truncated(d, n))
  {
    TruncatedPtrs(d, n);
    hide Ptr;
    var e := Truncated(d, n);
    forall m: nat, j: nat | m < |e.inodes| && j <= MAXFILE && Ptr(e, m, j) != 0
      ensures Taken(e, Ptr(e, m, j))
    {
      assert Taken(d, Ptr(d, m, j));
    }
  }

  /** After truncation the file is empty, all other files are untouched, and the file system is
  well-formed. */
  lemma TruncateOk(d: Disk, n: nat)
    requires Inv(d) && n < |d.inodes|
    ensures var e := Truncated(d, n);
            && Inv(e) && |e.inodes| == |d.inodes| && Contents(e, n) == []
            && (forall m: nat | m < |d.inodes| && m != n :: Contents(e, m) == Contents(d, m))
            && (forall b: nat | b < |d.used| :: e.used[b] <==>
                  d.used[b] && forall i: nat | i <= MAXFILE :: Ptr(d, n, i) == 0 || Ptr(d, n, i) != b)
  {
    TruncatedPtrs(d, n);
    TruncatedOwned(d, n);
    hide Ptr, Owned;
    var e := Truncated(d, n);
    forall m: nat | m < |d.inodes| && m != n ensures Contents(e, m) == Contents(d, m) {
      forall k: nat | k < d.inodes[m].size ensures ByteAt(e, m, k) == ByteAt(d, m, k) {
        assert k / BSIZE < MAXFILE;
      }
    }
  }

  // ---------- log space of one write ----------

  /** The number of blocks that `n` bytes at `off` touch. */
  function Touched(off: nat, n: nat): nat {
    if n == 0 then 0 else (off + n - 1) / BSIZE - off / BSIZE + 1
  }

  /** Data blocks, a bitmap block for each but an existing first one, the indirect block with its
  bitmap block, and the inode block. */
  function LogCost(off: nat, n: nat): nat {
    if n == 0 then 0 else 2 * Touched(off, n) + 3 - (if off % BSIZE != 0 then 1 else 0)
  }

  /** The largest chunk `filewrite` hands to one operation. */
  function ChunkSize(maxop: nat): nat
    requires maxop >= 4
  {
    (maxop - 1 - 1 - 2) / 2 * BSIZE
  }

  /** Every chunk fits the log budget of its operation. */
  lemma ChunkFits(maxop: nat, off: nat, n: nat)
    requires maxop >= 6 && n <= ChunkSize(maxop)
    ensures LogCost(off, n) <= maxop
  {
    var k := (maxop - 4) / 2;
    assert 2 * k + 4 <= maxop && n <= k * BSIZE;
    if n > 0 {
      var q, r := off / BSIZE, off % BSIZE;
      assert off == q * BSIZE + r;
      if r == 0 {
        assert off + n - 1 < (q + k) * BSIZE;
        assert (off + n - 1) / BSIZE <= q + k - 1;
      } else {
        assert off + n - 1 < (q + k + 1) * BSIZE;
        assert (off + n - 1) / BSIZE <= q + k;
      }
    }
  }

  /** After `tot` bytes, the log holds at most the touched data blocks, a bitmap block for each of
  them that is new, and the blocks of the indirect block. */
  ghost predicate InLog(d: Disk, n: nat, off: nat, tot: nat, l0: set<nat>, data: set<nat>, maps: set<nat>)
    requires Shape(d) && n < |d.inodes|
  {
    && d.logged <= l0 + data + maps + IndirectLog(d, n)
    && |data| <= Touched(off, tot)
    && |maps| <= Touched(off, tot) - (if tot > 0 && off % BSIZE != 0 then 1 else 0)
  }

  lemma TouchedNext(off: nat, tot: nat, m: nat)
    requires m > 0 && (off + tot) % BSIZE + m <= BSIZE
    requires tot == 0 || (off + tot) % BSIZE == 0
    ensures Touched(off, tot + m) == Touched(off, tot) + 1
  {
    var q, r := (off + tot) / BSIZE, (off + tot) % BSIZE;
    assert off + tot == q * BSIZE + r;
    assert (off + tot + m - 1) / BSIZE == q;
    if tot > 0 {
      assert off + tot - 1 == (q - 1) * BSIZE + (BSIZE - 1);
      assert (off + tot - 1) / BSIZE == q - 1;
    }
  }

  lemma IndirectGrows(d: Disk, e: Disk, n: nat)
    requires Shape(d) && Shape(e) && n < |d.inodes| && Extends(d, e, n)
    ensures |e.inodes| == |d.inodes| && e.sb == d.sb && IndirectLog(d, n) <= IndirectLog(e, n)
  {
    hide Ptr;
  }

  lemma IndirectSame(d: Disk, e: Disk, n: nat)
    requires Shape(d) && Shape(e) && n < |d.inodes| == |e.inodes| && e.sb == d.sb
    requires Ptr(e, n, MAXFILE) == Ptr(d, n, MAXFILE)
    ensures IndirectLog(e, n) == IndirectLog(d, n)
  {
  }

  lemma InLogNext(d: Disk, n: nat, off: nat, tot: nat, piece: seq<nat>,
                  l0: set<nat>, data: set<nat>, maps: set<nat>) returns (data': set<nat>, maps': set<nat>)
    requires Shape(d) && Owned(d) && n < |d.inodes| && InLog(d, n, off, tot, l0, data, maps)
    requires (off + tot) / BSIZE < MAXFILE && Bmap(d, n, (off + tot) / BSIZE).Some?
    requires 0 < |piece| && (off + tot) % BSIZE + |piece| <= BSIZE
    requires tot == 0 || (off + tot) % BSIZE == 0
    requires tot == 0 && off % BSIZE != 0 ==> Ptr(d, n, off / BSIZE) != 0
    ensures var e := Bmap(d, n, (off + tot) / BSIZE).value;
            && Shape(e) && n < |e.inodes| && Ptr(e, n, (off + tot) / BSIZE) < |e.blocks|
            && var g := PutBytes(e, Ptr(e, n, (off + tot) / BSIZE), (off + tot) % BSIZE, piece);
            && Shape(g) && n < |g.inodes| && InLog(g, n, off, tot + |piece|, l0, data', maps')
  {
    hide Ptr, Bmap, Shape, Owned, Extends;
    var bn, o := (off + tot) / BSIZE, (off + tot) % BSIZE;
    BmapOk(d, n, bn);
    var e := Bmap(d, n, bn).value;
    IndirectGrows(d, e, n);
    PutBytesOk(e, n, bn, o, piece);
    IndirectSame(e, PutBytes(e, Ptr(e, n, bn), o, piece), n);
    TouchedNext(off, tot, |piece|);
    hide IndirectLog, Touched;
    var a := Ptr(e, n, bn);
    data' := data + {a};
    maps' := if Ptr(d, n, bn) == 0 then maps + {BBlock(d.sb, a)} else maps;
  }

  /** The log of a finished write, with the inode block if the file grew. */
  lemma InLogDone(d: Disk, n: nat, off: nat, tot: nat, l0: set<nat>, data: set<nat>, maps: set<nat>)
    requires Shape(d) && n < |d.inodes| && InLog(d, n, off, tot, l0, data, maps)
    ensures |d.logged + {IBlock(d.sb, n)} - l0| <= 2 * Touched(off, tot) + 3
                                                   - (if tot > 0 && off % BSIZE != 0 then 1 else 0)
    ensures |d.logged - l0| <= |d.logged + {IBlock(d.sb, n)} - l0|
    ensures tot == 0 ==> |data| == |maps| == 0
  {
    var i := IBlock(d.sb, n);
    LogSize(d.logged + {i}, l0, data, maps, IndirectLog(d, n), i);
    var all := d.logged + {i} - l0;
    assert all == (d.logged - l0) + (all - (d.logged - l0));
  }

  lemma LogSize(logged: set<nat>, l0: set<nat>, data: set<nat>, maps: set<nat>, ind: set<nat>, i: nat)
    requires logged <= l0 + data + maps + ind + {i} && |ind| <= 2
    ensures |logged - l0| <= |data| + |maps| + 3
  {
    var all := data + maps + ind + {i};
    assert |all| <= |data| + |maps| + |ind| + 1;
    assert logged - l0 <= all;
    assert all == (logged - l0) + (all - (logged - l0));
  }

  // ---------- writing a file in chunks ----------

  /** Disk `e` is disk `d` with `w` written to file `n` at `off`, in one or more pieces. */
  ghost predicate Wrote(d: Disk, e: Disk, n: nat, off: nat, w: seq<nat>) {
    && Inv(d) && Inv(e) && n < |d.inodes| == |e.inodes|
    && (if w == [] then Contents(e, n) == Contents(d, n)
        else off <= |Contents(d, n)| && Contents(e, n) == Splice(Contents(d, n), off, w))
    && (forall m: nat | m < |d.inodes| && m != n :: Contents(e, m) == Contents(d, m))
  }

  lemma WroteNext(d: Disk, e: Disk, g: Disk, n: nat, off: nat, w: seq<nat>, piece: seq<nat>)
    requires Wrote(d, e, n, off, w) && Wrote(e, g, n, off + |w|, piece)
    ensures Wrote(d, g, n, off, w + piece)
  {
    hide Ptr, ByteAt, Owned;
    if w == [] {
      assert w + piece == piece;
    } else if piece == [] {
      assert w + piece == w;
    } else {
      SpliceTwice(Contents(d, n), off, w, piece);
    }
  }

  /** Which blocks are logged matters to no file. */
  lemma LogIrrelevant(d: Disk, l: set<nat>)
    requires Inv(d)
    ensures var e := d.(logged := l);
            && Inv(e)
            && (forall n: nat | n < |d.inodes| :: Contents(e, n) == Contents(d, n))
  {
    var e := d.(logged := l);
    assert forall m: nat, j: nat | m < |d.inodes| && j <= MAXFILE :: Ptr(e, m, j) == Ptr(d, m, j);
    hide Ptr;
    assert Owned(e) && NoHoles(e);
    BytesFromPtrs(d, e);
    hide Owned, NoHoles, ByteAt;
  }

  // ---------- every run ----------

  datatype Event =
    | Grow(n: nat, bn: nat)                                // bmap
    | Put(n: nat, bn: nat, o: nat, src: seq<nat>)          // copy into a block of the file
    | Truncate(n: nat)                                     // itrunc

  predicate Enabled(d: Disk, e: Event)
    requires Shape(d)
  {
    e.n < |d.inodes| && match e
      case Grow(n, bn) => bn < MAXFILE && Bmap(d, n, bn).Some?
      case Put(n, bn, o, src) =>
        bn < MAXFILE && 0 < Ptr(d, n, bn) < |d.blocks| && o + |src| <= BSIZE
      case Truncate(n) => true
  }

  function Step(d: Disk, e: Event): Disk
    requires Shape(d) && Enabled(d, e)
  {
    match e
    case Grow(n, bn) => Bmap(d, n, bn).value
    case Put(n, bn, o, src) => PutBytes(d, Ptr(d, n, bn), o, src)
    case Truncate(n) => Truncated(d, n)
  }

  function Exec(d: Disk, es: seq<Event>): Option<Disk>
    decreases |es|
  {
    if es == [] then Some(d) else
    var r := Exec(d, es[..|es| - 1]);
    if r.Some? && Shape(r.value) && Enabled(r.value, es[|es| - 1])
    then Some(Step(r.value, es[|es| - 1])) else None
  }

  /** In every run of growth, writing and truncation over any files, no block belongs to two
  addresses, every owned block is marked used, and none is metadata. */
  lemma {:induction false} RunsKeepOwnership(d: Disk, es: seq<Event>)
    requires Shape(d) && Owned(d) && Exec(d, es).Some?
    ensures Shape(Exec(d, es).value) && Owned(Exec(d, es).value)
    decreases |es|
  {
    hide Shape, Owned, Ptr, Bmap, PutBytes, Truncated;
    if es != [] {
      var front, e := es[..|es| - 1], es[|es| - 1];
      RunsKeepOwnership(d, front);
      var d1 := Exec(d, front).value;
      match e
      case Grow(n, bn) => BmapOk(d1, n, bn);
      case Put(n, bn, o, src) => PutBytesOk(d1, n, bn, o, src);
      case Truncate(n) => TruncatedOwned(d1, n);
    }
  }
}
