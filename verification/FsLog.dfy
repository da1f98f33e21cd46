/** What is changed is logged: every block, bitmap bit and inode that an operation changes is among the
blocks it handed to `log_write`, so that its commit carries all of it. */
module FsLog {
  import opened Common
  import opened Fs
  import opened FsFile

  /** Blocks and bitmap differ only where `l` has the block, or the bitmap block of the bit. */
  ghost predicate BlocksIn(d: Disk, e: Disk, l: set<nat>) {
    && e.sb == d.sb && |e.blocks| == |d.blocks| && |e.used| == |d.used|
    && (forall b: nat | b < |d.blocks| && e.blocks[b] != d.blocks[b] :: b in l)
    && (forall b: nat | b < |d.used| && e.used[b] != d.used[b] :: BBlock(d.sb, b) in l)
  }

  /** So do the inodes. */
  ghost predicate ChangesIn(d: Disk, e: Disk, l: set<nat>) {
    && BlocksIn(d, e, l) && |e.inodes| == |d.inodes|
    && (forall n: nat | n < |d.inodes| && e.inodes[n] != d.inodes[n] :: IBlock(d.sb, n) in l)
  }

  lemma BlocksThen(d: Disk, e: Disk, f: Disk, k: set<nat>, l: set<nat>)
    requires BlocksIn(d, e, k) && BlocksIn(e, f, l) && k <= l
    ensures BlocksIn(d, f, l)
  {
  }

  lemma ChangesThen(d: Disk, e: Disk, f: Disk, k: set<nat>, l: set<nat>)
    requires ChangesIn(d, e, k) && ChangesIn(e, f, l)
    ensures ChangesIn(d, f, k + l)
  {
  }

  /** The bitmap blocks lie one behind the other from `bmapstart` on, BPB bits in each, and the inode
  blocks from `inodestart` on, IPB inodes in each. */
  lemma BlocksInOrder(sb: Super, b: nat, c: nat)
    ensures BBlock(sb, 0) == sb.bmapstart && BBlock(sb, b + BPB) == BBlock(sb, b) + 1
    ensures IBlock(sb, 0) == sb.inodestart && IBlock(sb, b + IPB) == IBlock(sb, b) + 1
    ensures b <= c ==> BBlock(sb, b) <= BBlock(sb, c) && IBlock(sb, b) <= IBlock(sb, c)
  {
  }

  /** What was logged before does not matter. */
  lemma ChangesFrom(d: Disk, e: Disk, k: set<nat>, l: set<nat>)
    ensures ChangesIn(d.(logged := k), e, l) == ChangesIn(d, e, l)
  {
  }

  /** Only inode `n` may differ. */
  predicate OneInode(d: Disk, e: Disk, n: nat) {
    && |e.inodes| == |d.inodes| && n < |d.inodes|
    && forall m | 0 <= m < |d.inodes| && m != n :: e.inodes[m] == d.inodes[m]
  }

  lemma AllocLogs(d: Disk, n: nat, i: nat)
    requires Shape(d) && n < |d.inodes| && i <= MAXFILE && AllocPtr(d, n, i).Some?
    ensures var e := AllocPtr(d, n, i).value;
      d.logged <= e.logged && BlocksIn(d, e, e.logged) && OneInode(d, e, n)
  {
    hide Word, SetWord, Zero;
    if Ptr(d, n, i) == 0 { BallocShape(d); }
  }

  /** Whatever `bmap` changes on disk it logs: the new blocks, their bits, and the indirect block. */
  lemma BmapLogs(d: Disk, n: nat, bn: nat)
    requires Shape(d) && n < |d.inodes| && bn < MAXFILE && Bmap(d, n, bn).Some?
    ensures var e := Bmap(d, n, bn).value;
      d.logged <= e.logged && BlocksIn(d, e, e.logged) && OneInode(d, e, n)
  {
    hide Ptr, AllocPtr;
    if bn < NDIRECT {
      AllocLogs(d, n, bn);
    } else {
      AllocShape(d, n, MAXFILE);
      AllocLogs(d, n, MAXFILE);
      var d1 := AllocPtr(d, n, MAXFILE).value;
      AllocLogs(d1, n, bn);
      BlocksThen(d, d1, Bmap(d, n, bn).value, d1.logged, Bmap(d, n, bn).value.logged);
    }
  }

  /** One round of `writei` logs the block it copies into, and all that `bmap` changed. */
  lemma CopyLogs(d: Disk, n: nat, bn: nat, o: nat, piece: seq<nat>)
    requires Shape(d) && Owned(d) && n < |d.inodes| && bn < MAXFILE && o + |piece| <= BSIZE
    requires Bmap(d, n, bn).Some?
    ensures var e := Bmap(d, n, bn).value;
      && Shape(e) && n < |e.inodes| && Ptr(e, n, bn) < |e.blocks|
      && var f := PutBytes(e, Ptr(e, n, bn), o, piece);
      d.logged <= f.logged && Ptr(e, n, bn) in f.logged && BlocksIn(d, f, f.logged) && OneInode(d, f, n)
  {
    hide Ptr, Bmap;
    BmapOk(d, n, bn);
    BmapLogs(d, n, bn);
    var e := Bmap(d, n, bn).value;
    PutBytesOk(e, n, bn, o, piece);
    var f := PutBytes(e, Ptr(e, n, bn), o, piece);
    BlocksThen(d, e, f, e.logged, f.logged);
  }

  /** How far `writei` has come in a range that ends at `end`: all is logged but the inode, and the
  inode differs only if the range goes past the file's size. */
  ghost predicate LoggedTo(d: Disk, e: Disk, n: nat, end: nat) {
    && d.logged <= e.logged && BlocksIn(d, e, e.logged) && OneInode(d, e, n)
    && (end <= d.inodes[n].size ==> e.inodes == d.inodes)
  }

  lemma LoggedStarts(d: Disk, n: nat, end: nat)
    requires n < |d.inodes|
    ensures LoggedTo(d, d, n, end)
  {
  }

  /** A block below the file's size is there. */
  lemma BlockThere(d: Disk, n: nat, k: nat)
    requires Inv(d) && n < |d.inodes| && k < d.inodes[n].size
    ensures k / BSIZE < MAXFILE && Ptr(d, n, k / BSIZE) != 0
  {
    assert k / BSIZE < Blocks(d.inodes[n].size);
  }

  /** One more round. */
  lemma LoggedNext(d: Disk, e: Disk, n: nat, off: nat, src: seq<nat>, piece: seq<nat>, end: nat)
    requires Inv(d) && Shape(e) && Owned(e) && Written(d, e, n, off, src) && LoggedTo(d, e, n, end)
    requires var o := (off + |src|) % BSIZE; 0 < |piece| && o + |piece| <= BSIZE
    requires off + |src| + |piece| <= end <= MAXFILE * BSIZE
    requires var bn := (off + |src|) / BSIZE; bn < MAXFILE && Bmap(e, n, bn).Some?
    ensures var bn, o := (off + |src|) / BSIZE, (off + |src|) % BSIZE;
      var f := Bmap(e, n, bn).value;
      && Shape(f) && n < |f.inodes| && Ptr(f, n, bn) < |f.blocks|
      && LoggedTo(d, PutBytes(f, Ptr(f, n, bn), o, piece), n, end)
  {
    hide Owned, NoHoles, Ptr, Bmap;
    var k := off + |src|;
    CopyLogs(e, n, k / BSIZE, k % BSIZE, piece);
    var f := Bmap(e, n, k / BSIZE).value;
    var g := PutBytes(f, Ptr(f, n, k / BSIZE), k % BSIZE, piece);
    BlocksThen(d, e, g, e.logged, g.logged);
    if end <= d.inodes[n].size {
      BlockThere(d, n, k);
      BmapThere(e, n, k / BSIZE);
    }
  }

  /** The size, set and logged after the last round. */
  lemma LoggedSize(d: Disk, e: Disk, f: Disk, n: nat, end: nat)
    requires LoggedTo(d, e, n, end)
    requires if end > d.inodes[n].size then
               f == e.(inodes := e.inodes[n := e.inodes[n].(size := end)], logged := e.logged + {IBlock(e.sb, n)})
             else f == e
    ensures d.logged <= f.logged && ChangesIn(d, f, f.logged)
  {
  }

  /** All the blocks that some operation logged. */
  ghost function All(logs: seq<set<nat>>): set<nat> {
    if logs == [] then {} else All(logs[..|logs| - 1]) + logs[|logs| - 1]
  }

  /** No operation logged more than `maxop` blocks. */
  ghost predicate Fit(logs: seq<set<nat>>, maxop: nat) {
    forall i | 0 <= i < |logs| :: |logs[i]| <= maxop
  }

  lemma AllNone(d: Disk, maxop: nat)
    ensures ChangesIn(d, d, All([])) && Fit([], maxop)
  {
  }

  /** One more operation. */
  lemma AllNext(d: Disk, e: Disk, f: Disk, logs: seq<set<nat>>, l: set<nat>, maxop: nat)
    requires ChangesIn(d, e, All(logs)) && ChangesIn(e, f, l) && Fit(logs, maxop) && |l| <= maxop
    ensures ChangesIn(d, f, All(logs + [l])) && Fit(logs + [l], maxop)
  {
    hide ChangesIn;
    ChangesThen(d, e, f, All(logs), l);
    assert (logs + [l])[..|logs|] == logs;
  }

  /** `itrunc` logs the bitmap block of every block it frees, and the inode. */
  lemma TruncateLogs(d: Disk, n: nat)
    requires Shape(d) && n < |d.inodes|
    ensures var e := Truncated(d, n); d.logged <= e.logged && ChangesIn(d, e, e.logged)
  {
    hide Ptr;
    var (e, held) := (Truncated(d, n), HeldUpTo(d, n, MAXFILE + 1));
    forall b: nat | b < |d.used| && e.used[b] != d.used[b] ensures BBlock(d.sb, b) in e.logged {
      assert b in held;
    }
  }
}
