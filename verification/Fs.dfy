/** The file layer of `fs.c`: block bitmap, inodes with direct and indirect block addresses, and the
ownership of disk blocks. */
module Fs {
  import opened Common

  const NDIRECT: nat := 12
  const NINDIRECT: nat := 128
  const MAXFILE: nat := 140          // NDIRECT + NINDIRECT
  const BPB: nat := 4096             // bitmap bits per block
  const IPB: nat := 8                // inodes per block

  datatype Block = Block(bytes: seq<nat>)
  datatype Inode = Inode(addrs: seq<nat>, size: nat)

  /** The superblock fields in use; `meta` is the number of blocks before the data blocks. */
  datatype Super = Super(size: nat, bmapstart: nat, inodestart: nat, meta: nat)

  /** `used` is the bitmap, and `logged` the blocks handed to `log_write` by the running operation.
  The inode table is kept in memory form; `iupdate` writes it through. */
  datatype Disk = Disk(sb: Super, used: seq<bool>, blocks: seq<Block>, inodes: seq<Inode>,
                       logged: set<nat>)

  function Zero(): Block {
    Block(seq(BSIZE, _ => 0))
  }

  // ---------- 32-bit words in a block, little-endian ----------

  function Word(b: Block, j: nat): nat
    requires |b.bytes| == BSIZE && j < NINDIRECT
  {
    b.bytes[4 * j] + 0x100 * b.bytes[4 * j + 1]
    + 0x1_0000 * b.bytes[4 * j + 2] + 0x100_0000 * b.bytes[4 * j + 3]
  }

  function SetWord(b: Block, j: nat, w: nat): (r: Block)
    requires |b.bytes| == BSIZE && j < NINDIRECT && w < WORD
    ensures |r.bytes| == BSIZE
  {
    Block(b.bytes[4 * j := w % 0x100][4 * j + 1 := w / 0x100 % 0x100]
          [4 * j + 2 := w / 0x1_0000 % 0x100][4 * j + 3 := w / 0x100_0000])
  }

  lemma Digits(w: nat)
    requires w < WORD
    ensures w % 0x100 + 0x100 * (w / 0x100 % 0x100) + 0x1_0000 * (w / 0x1_0000 % 0x100)
            + 0x100_0000 * (w / 0x100_0000) == w
  {
    var a, b, c := w / 0x100, w / 0x1_0000, w / 0x100_0000;
    assert b == a / 0x100 && c == b / 0x100;
  }

  lemma WordSet(b: Block, j: nat, w: nat, k: nat)
    requires |b.bytes| == BSIZE && j < NINDIRECT && k < NINDIRECT && w < WORD
    ensures Word(SetWord(b, j, w), k) == if k == j then w else Word(b, k)
  {
    Digits(w);
  }

  // ---------- block addresses of a file ----------

  /** Address `i` of inode `n`: data block `i` for i < MAXFILE, the indirect block for MAXFILE;
  0 when there is none. */
  function Ptr(d: Disk, n: nat, i: nat): nat
    requires Shape(d) && n < |d.inodes| && i <= MAXFILE
  {
    var a := d.inodes[n].addrs;
    if i < NDIRECT then a[i]
    else if i == MAXFILE then a[NDIRECT]
    else if a[NDIRECT] == 0 || a[NDIRECT] >= |d.blocks| then 0
    else Word(d.blocks[a[NDIRECT]], i - NDIRECT)
  }

  predicate Shape(d: Disk) {
    && |d.used| == |d.blocks| == d.sb.size < WORD && 1 <= d.sb.meta <= d.sb.size
    && (forall b | 0 <= b < |d.blocks| :: |d.blocks[b].bytes| == BSIZE)
    && (forall n | 0 <= n < |d.inodes| :: |d.inodes[n].addrs| == NDIRECT + 1)
    && (forall b | 0 <= b < d.sb.meta :: d.used[b])
  }

  /** A data block in use. */
  predicate Taken(d: Disk, b: nat)
    requires Shape(d)
  {
    d.sb.meta <= b < d.sb.size && d.used[b]
  }

  /** Block ownership: every address held by any inode is a data block marked used, and no two
  addresses anywhere are equal. */
  ghost predicate Owned(d: Disk)
    requires Shape(d)
  {
    && (forall n: nat, i: nat | n < |d.inodes| && i <= MAXFILE && Ptr(d, n, i) != 0 ::
          Taken(d, Ptr(d, n, i)))
    && (forall n: nat, i: nat, m: nat, j: nat |
          n < |d.inodes| && i <= MAXFILE && m < |d.inodes| && j <= MAXFILE
          && Ptr(d, n, i) != 0 && Ptr(d, n, i) == Ptr(d, m, j) :: n == m && i == j)
  }

  function Blocks(size: nat): nat {
    (size + BSIZE - 1) / BSIZE
  }

  /** No holes: every block below the size of a file is there. */
  ghost predicate NoHoles(d: Disk)
    requires Shape(d)
  {
    forall n: nat | n < |d.inodes| :: d.inodes[n].size <= MAXFILE * BSIZE
      && forall i: nat | i < Blocks(d.inodes[n].size) :: Ptr(d, n, i) != 0
  }

  ghost predicate Inv(d: Disk) {
    Shape(d) && Owned(d) && NoHoles(d)
  }

  /** Byte `k` of the file. */
  function ByteAt(d: Disk, n: nat, k: nat): nat
    requires Shape(d) && n < |d.inodes| && k < MAXFILE * BSIZE
  {
    var b := Ptr(d, n, k / BSIZE);
    if b < |d.blocks| then d.blocks[b].bytes[k % BSIZE] else 0
  }

  function Contents(d: Disk, n: nat): seq<nat>
    requires Shape(d) && n < |d.inodes| && d.inodes[n].size <= MAXFILE * BSIZE
  {
    seq(d.inodes[n].size, k requires 0 <= k < d.inodes[n].size => ByteAt(d, n, k))
  }

  // ---------- allocation ----------

  function BBlock(sb: Super, b: nat): nat {
    b / BPB + sb.bmapstart
  }

  function IBlock(sb: Super, n: nat): nat {
    n / IPB + sb.inodestart
  }

  /** The lowest free block at or above `i`, or |used|. */
  function FirstFree(used: seq<bool>, i: nat): (b: nat)
    requires i <= |used|
    ensures i <= b <= |used|
    ensures forall k | i <= k < b :: used[k]
    ensures b < |used| ==> !used[b]
    decreases |used| - i
  {
    if i == |used| || !used[i] then i else FirstFree(used, i + 1)
  }

  /** `balloc`: mark the first free block and zero it; None is the panic. */
  function Balloc(d: Disk): Option<(Disk, nat)>
    requires Shape(d)
  {
    var b := FirstFree(d.used, 0);
    if b == |d.used| then None else
    Some((d.(used := d.used[b := true], blocks := d.blocks[b := Zero()],
             logged := d.logged + {BBlock(d.sb, b), b}), b))
  }

  /** Store address `b` at position `i` of inode `n`. */
  function SetPtr(d: Disk, n: nat, i: nat, b: nat): Disk
    requires Shape(d) && n < |d.inodes| && i <= MAXFILE && b < WORD
  {
    var a := d.inodes[n].addrs;
    if i < NDIRECT || i == MAXFILE then
      var at := if i < NDIRECT then i else NDIRECT;
      d.(inodes := d.inodes[n := d.inodes[n].(addrs := a[at := b])])
    else if a[NDIRECT] == 0 || a[NDIRECT] >= |d.blocks| then d
    else
      var ind := a[NDIRECT];
      d.(blocks := d.blocks[ind := SetWord(d.blocks[ind], i - NDIRECT, b)],
         logged := d.logged + {ind})
  }

  function AllocPtr(d: Disk, n: nat, i: nat): Option<Disk>
    requires Shape(d) && n < |d.inodes| && i <= MAXFILE
  {
    if Ptr(d, n, i) != 0 then Some(d) else
    var r := Balloc(d);
    if r.None? then None else
    BallocShape(d);
    Some(SetPtr(r.value.0, n, i, r.value.1))
  }

  /** `bmap` for a block in range: allocate the indirect block if needed, then the data block. */
  function Bmap(d: Disk, n: nat, bn: nat): Option<Disk>
    requires Shape(d) && n < |d.inodes| && bn < MAXFILE
  {
    if bn < NDIRECT then AllocPtr(d, n, bn) else
    var r := AllocPtr(d, n, MAXFILE);
    if r.None? then None else
    AllocShape(d, n, MAXFILE);
    AllocPtr(r.value, n, bn)
  }

  lemma BallocShape(d: Disk)
    requires Shape(d)
    ensures Balloc(d).Some? ==>
              var (e, b) := Balloc(d).value;
              Shape(e) && b < d.sb.size && e.sb == d.sb && e.inodes == d.inodes
  {
  }

  lemma SetPtrShape(d: Disk, n: nat, i: nat, b: nat)
    requires Shape(d) && n < |d.inodes| && i <= MAXFILE && b < WORD
    ensures var e := SetPtr(d, n, i, b);
            && Shape(e) && e.sb == d.sb && |e.inodes| == |d.inodes| && e.used == d.used
            && (forall m | 0 <= m < |d.inodes| :: e.inodes[m].size == d.inodes[m].size)
  {
  }

  lemma AllocShape(d: Disk, n: nat, i: nat)
    requires Shape(d) && n < |d.inodes| && i <= MAXFILE
    ensures AllocPtr(d, n, i).Some? ==>
              var e := AllocPtr(d, n, i).value;
              && Shape(e) && e.sb == d.sb && |e.inodes| == |d.inodes|
              && (forall m | 0 <= m < |d.inodes| :: e.inodes[m].size == d.inodes[m].size)
  {
    hide Shape;
    if Ptr(d, n, i) == 0 && Balloc(d).Some? {
      BallocShape(d);
      var (e, b) := Balloc(d).value;
      SizeSmall(d);
      SetPtrShape(e, n, i, b);
    }
  }

  lemma SizeSmall(d: Disk)
    requires Shape(d)
    ensures d.sb.size < WORD
  {
  }

  // ---------- what allocation does to the addresses ----------

  /** No inode holds address `b`. */
  ghost predicate Unowned(d: Disk, b: nat)
    requires Shape(d)
  {
    forall n: nat, i: nat | n < |d.inodes| && i <= MAXFILE :: Ptr(d, n, i) != b
  }

  /** The addresses of `e` are those of `d`, with `b` at position (n, i). */
  ghost predicate OnePtr(d: Disk, e: Disk, n: nat, i: nat, b: nat)
    requires Shape(d) && Shape(e)
  {
    && |e.inodes| == |d.inodes|
    && (forall m: nat, j: nat | m < |d.inodes| && j <= MAXFILE ::
          Ptr(e, m, j) == if m == n && j == i then b else Ptr(d, m, j))
  }

  lemma ZeroWords(j: nat)
    requires j < NINDIRECT
    ensures |Zero().bytes| == BSIZE && Word(Zero(), j) == 0
  {
  }

  lemma BallocPtrs(d: Disk)
    requires Shape(d) && Owned(d) && Balloc(d).Some?
    ensures var (e, b) := Balloc(d).value;
            && Shape(e) && Taken(e, b) && b != 0 && Unowned(d, b) && Unowned(e, b) && Owned(e)
            && |e.inodes| == |d.inodes|
            && (forall m: nat, j: nat | m < |d.inodes| && j <= MAXFILE ::
                  Ptr(e, m, j) == Ptr(d, m, j))
  {
    hide Word, Zero;
    BallocShape(d);
    var (e, b) := Balloc(d).value;
    forall m: nat, j: nat | m < |d.inodes| && j <= MAXFILE
      ensures Ptr(d, m, j) != b && Ptr(e, m, j) == Ptr(d, m, j)
    {
      var ind := Ptr(d, m, MAXFILE);
      assert ind != 0 ==> Taken(d, ind);
      assert Ptr(d, m, j) != 0 ==> Taken(d, Ptr(d, m, j));
    }
    assert forall k: nat | k < |d.used| && Taken(d, k) :: Taken(e, k);
  }

  lemma OwnedWithOne(d: Disk, e: Disk, n: nat, i: nat, b: nat)
    requires Shape(d) && Owned(d) && Shape(e) && OnePtr(d, e, n, i, b)
    requires e.used == d.used && e.sb == d.sb && Unowned(d, b) && Taken(d, b)
    ensures Owned(e)
  {
    hide Ptr;
  }

  lemma SetDirect(d: Disk, n: nat, i: nat, b: nat)
    requires Shape(d) && n < |d.inodes| && i < NDIRECT && b < WORD
    ensures Shape(SetPtr(d, n, i, b)) && OnePtr(d, SetPtr(d, n, i, b), n, i, b)
  {
    hide Word;
    SetPtrShape(d, n, i, b);
  }

  lemma SetIndirectBlock(d: Disk, n: nat, b: nat)
    requires Shape(d) && n < |d.inodes| && b < d.sb.size && Ptr(d, n, MAXFILE) == 0
    requires d.blocks[b] == Zero()
    ensures Shape(SetPtr(d, n, MAXFILE, b)) && OnePtr(d, SetPtr(d, n, MAXFILE, b), n, MAXFILE, b)
  {
    SetPtrShape(d, n, MAXFILE, b);
    var e := SetPtr(d, n, MAXFILE, b);
    forall m: nat, j: nat | m < |d.inodes| && j <= MAXFILE
      ensures Ptr(e, m, j) == if m == n && j == MAXFILE then b else Ptr(d, m, j)
    {
      if NDIRECT <= j < MAXFILE { ZeroWords(j - NDIRECT); }
    }
  }

  lemma SetIndirectWord(d: Disk, n: nat, i: nat, b: nat)
    requires Shape(d) && Owned(d) && n < |d.inodes| && NDIRECT <= i < MAXFILE && b < WORD
    requires Ptr(d, n, MAXFILE) != 0
    ensures Shape(SetPtr(d, n, i, b)) && OnePtr(d, SetPtr(d, n, i, b), n, i, b)
  {
    SetPtrShape(d, n, i, b);
    hide Word, SetWord;
    var e := SetPtr(d, n, i, b);
    var ind := Ptr(d, n, MAXFILE);
    assert Taken(d, ind);
    forall m: nat, j: nat | m < |d.inodes| && j <= MAXFILE
      ensures Ptr(e, m, j) == if m == n && j == i then b else Ptr(d, m, j)
    {
      assert m != n ==> Ptr(d, m, MAXFILE) != ind;
      if m == n && NDIRECT <= j < MAXFILE {
        WordSet(d.blocks[ind], i - NDIRECT, b, j - NDIRECT);
      }
    }
  }

  /** What one allocation does: a fresh used block at position (n, i), nothing else moves, and all
  blocks except the fresh one and the inode's indirect block keep their contents. */
  ghost predicate Allocated(d: Disk, e: Disk, n: nat, i: nat, b: nat)
    requires Shape(d) && Shape(e)
  {
    && e.sb == d.sb && |e.inodes| == |d.inodes|
    && (forall m | 0 <= m < |d.inodes| :: e.inodes[m].size == d.inodes[m].size)
    && b < |d.used| && b != 0 && !d.used[b] && e.used == d.used[b := true]
    && Unowned(d, b) && OnePtr(d, e, n, i, b)
    && (forall k: nat | k < |d.blocks| && k != b
          && !(n < |d.inodes| && NDIRECT <= i < MAXFILE && k == Ptr(d, n, MAXFILE)) ::
          e.blocks[k] == d.blocks[k])
    && (i < MAXFILE ==> e.blocks[b] == Zero())
    && e.logged <= d.logged + {b, BBlock(d.sb, b)}
         + (if NDIRECT <= i < MAXFILE && n < |d.inodes| then {Ptr(d, n, MAXFILE)} else {})
  }

  lemma AllocPtrOk(d: Disk, n: nat, i: nat)
    requires Shape(d) && Owned(d) && n < |d.inodes| && i <= MAXFILE && Ptr(d, n, i) == 0
    requires NDIRECT <= i < MAXFILE ==> Ptr(d, n, MAXFILE) != 0
    requires AllocPtr(d, n, i).Some?
    ensures var e := AllocPtr(d, n, i).value;
            Shape(e) && Owned(e) && Allocated(d, e, n, i, FirstFree(d.used, 0))
  {
    hide Zero, Word, SetWord;
    BallocPtrs(d);
    BallocShape(d);
    SizeSmall(d);
    var (d1, b) := Balloc(d).value;
    var e := SetPtr(d1, n, i, b);
    SetPtrShape(d1, n, i, b);
    if i < NDIRECT {
      SetDirect(d1, n, i, b);
    } else if i == MAXFILE {
      SetIndirectBlock(d1, n, b);
    } else {
      assert Taken(d, Ptr(d, n, MAXFILE));
      SetIndirectWord(d1, n, i, b);
    }
    OwnedWithOne(d1, e, n, i, b);
    hide Owned, Unowned, Ptr;
  }
}
