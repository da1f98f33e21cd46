/** The code of `fs.c` and `file.c`: loops over bitmap, addresses and blocks. A panic is an
out-parameter; the disk is then left as the code left it. */
module FsCode {
  import opened Common
  import opened Fs
  import opened FsFile
  import opened FsLog
  import opened FsSpace

  /** An open file: its inode and offset. */
  class File {
    const inum: nat
    var off: nat

    constructor (inum: nat, off: nat)
      ensures this.inum == inum && this.off == off
    {
      this.inum, this.off := inum, off;
    }
  }

  class FileSystem {
    const sb: Super
    var used: seq<bool>
    var blocks: seq<Block>
    var inodes: seq<Inode>
    var logged: set<nat>

    constructor (d: Disk)
      ensures State() == d
    {
      sb, used, blocks, inodes, logged := d.sb, d.used, d.blocks, d.inodes, d.logged;
    }

    ghost function State(): Disk
      reads this
    {
      Disk(sb, used, blocks, inodes, logged)
    }

    /** Scan the bitmap block by block for a clear bit, set it, and zero the block. */
    method AllocBlock() returns (r: Option<nat>)
      requires Shape(State())
      modifies `used, `blocks, `logged
      ensures r.None? <==> Fs.Balloc(old(State())).None?
      ensures r.None? ==> State() == old(State())
      ensures r.Some? ==> Fs.Balloc(old(State())) == Some((State(), r.value))
    {
      var b := 0;
      while b < sb.size
        invariant State() == old(State()) && forall k | 0 <= k < b && k < |used| :: used[k]
        decreases sb.size - b
      {
        var bi := 0;
        while bi < BPB && b + bi < sb.size
          invariant State() == old(State()) && bi <= BPB && b + bi <= sb.size
          invariant forall k | 0 <= k < b + bi :: used[k]
        {
          if !used[b + bi] {
            assert FirstFree(used, 0) == b + bi;
            used := used[b + bi := true];
            blocks := blocks[b + bi := Zero()];
            logged := logged + {BBlock(sb, b + bi)} + {b + bi};
            assert logged == old(logged) + {BBlock(sb, b + bi), b + bi};
            return Some(b + bi);
          }
          bi := bi + 1;
        }
        b := b + BPB;
      }
      r := None;
    }

    /** `ok` is false on the "freeing free block" panic. */
    method FreeBlock(b: nat) returns (ok: bool)
      requires b < |used|
      modifies `used, `logged
      ensures ok == old(used)[b]
      ensures State() == if ok then FreeBit(old(State()), b) else old(State())
    {
      ok := used[b];
      if ok {
        used := used[b := false];
        logged := logged + {BBlock(sb, b)};
      }
    }

    /** `if((addr = ip->addrs[at]) == 0) ip->addrs[at] = addr = balloc()`. */
    method EnsureAddr(n: nat, at: nat) returns (r: Option<nat>)
      requires Shape(State()) && n < |inodes| && at <= NDIRECT
      modifies `used, `blocks, `inodes, `logged
      ensures var i := if at < NDIRECT then at else MAXFILE;
              && (r.None? <==> AllocPtr(old(State()), n, i).None?)
              && (r.None? ==> State() == old(State()) && forall b | 0 <= b < |used| :: used[b])
              && (r.Some? ==> AllocPtr(old(State()), n, i) == Some(State()))
      ensures r.Some? ==> n < |inodes| && at < |inodes[n].addrs| && r.value == inodes[n].addrs[at]
    {
      var addr := inodes[n].addrs[at];
      if addr == 0 {
        r := AllocBlock();
        if r.Some? {
          inodes := inodes[n := inodes[n].(addrs := inodes[n].addrs[at := r.value])];
        }
        return;
      }
      r := Some(addr);
    }

    /** The same for word `j` of the indirect block, which is then logged. */
    method EnsureWord(n: nat, j: nat) returns (r: Option<nat>)
      requires Shape(State()) && Owned(State()) && n < |inodes| && j < NINDIRECT
      requires 0 < Ptr(State(), n, MAXFILE) < |blocks|
      modifies `used, `blocks, `logged
      ensures r.None? <==> AllocPtr(old(State()), n, NDIRECT + j).None?
      ensures r.None? ==> State() == old(State()) && forall b | 0 <= b < |used| :: used[b]
      ensures r.Some? ==> AllocPtr(old(State()), n, NDIRECT + j) == Some(State())
      ensures r.Some? ==> Shape(State()) && r.value == Ptr(State(), n, NDIRECT + j)
    {
      ghost var d := State();
      var ind := inodes[n].addrs[NDIRECT];
      var addr := Word(blocks[ind], j);
      if addr == 0 {
        r := AllocBlock();
        if r.Some? {
          AllocPtrOk(d, n, NDIRECT + j);
          blocks := blocks[ind := SetWord(blocks[ind], j, r.value)];
          logged := logged + {ind};
        }
        return;
      }
      r := Some(addr);
    }

    /** The address of block `bn`, allocated if there is none; None on a panic. */
    method MapBlock(n: nat, bn: nat) returns (r: Option<nat>)
      requires Shape(State()) && Owned(State()) && n < |inodes|
      modifies `used, `blocks, `inodes, `logged
      ensures r.None? <==> bn >= MAXFILE || Bmap(old(State()), n, bn).None?
      ensures r.None? && bn < MAXFILE ==> forall b | 0 <= b < |used| :: used[b]
      ensures r.Some? ==> Bmap(old(State()), n, bn) == Some(State())
      ensures r.Some? ==> Shape(State()) && n < |inodes| && r.value == Ptr(State(), n, bn)
    {
      if bn < NDIRECT {
        AllocShape(State(), n, bn);
        r := EnsureAddr(n, bn);
        return;
      }
      if bn < MAXFILE {
        ghost var d := State();
        AllocShape(d, n, MAXFILE);
        if AllocPtr(d, n, MAXFILE).Some? { IndirectReady(d, n); }
        r := EnsureAddr(n, NDIRECT);
        if r.Some? {
          r := EnsureWord(n, bn - NDIRECT);
        }
        return;
      }
      r := None;
    }

    /** One round of `writei`: find the block, copy into it, log it; `ok` is false on a panic. */
    method CopyIn(n: nat, bn: nat, o: nat, piece: seq<nat>) returns (ok: bool)
      requires Shape(State()) && Owned(State()) && n < |inodes| && bn < MAXFILE
      requires o + |piece| <= BSIZE
      modifies `used, `blocks, `inodes, `logged
      ensures ok == Bmap(old(State()), n, bn).Some?
      ensures !ok ==> forall b | 0 <= b < |used| :: used[b]
      ensures ok ==> var e := Bmap(old(State()), n, bn).value;
                     && Shape(e) && n < |e.inodes| && Ptr(e, n, bn) < |e.blocks|
                     && State() == PutBytes(e, Ptr(e, n, bn), o, piece) && Ptr(e, n, bn) in logged
      ensures ok ==> BlocksIn(old(State()), State(), logged)
    {
      ghost var d := State();
      var at := MapBlock(n, bn);
      if at.None? {
        return false;
      }
      hide Ptr, Bmap;
      BmapOk(d, n, bn);
      CopyLogs(d, n, bn, o, piece);
      PutBytesOk(State(), n, bn, o, piece);
      var was := blocks[at.value].bytes;
      blocks := blocks[at.value := Block(was[..o] + piece + was[o + |piece|..])];
      logged := logged + {at.value};
      ok := true;
    }

    /** The loop of `writei`; `ok` is false on a panic. */
    method CopyAll(n: nat, src: seq<nat>, off: nat) returns (ok: bool, ghost data: set<nat>, ghost maps: set<nat>)
      requires Inv(State()) && n < |inodes| && off <= inodes[n].size
      requires off + |src| <= MAXFILE * BSIZE
      modifies `used, `blocks, `inodes, `logged
      ensures !ok ==> forall b | 0 <= b < |used| :: used[b]
      ensures ok <==> Free(old(used)) >= NeedBytes(old(State()), n, off, |src|)
      ensures ok ==> Shape(State()) && Owned(State()) && n < |inodes|
      ensures ok ==> GrownBytes(old(State()), State(), n, off, |src|)
      ensures ok ==> Written(old(State()), State(), n, off, src)
      ensures ok ==> InLog(State(), n, off, |src|, old(logged), data, maps)
      ensures ok ==> LoggedTo(old(State()), State(), n, off + |src|)
      ensures ok && src == [] ==> State() == old(State())
    {
      hide Shape, Owned, Written, InLog, PutBytes, Bmap, Ptr, NoHoles, Need, Grown, Free, LoggedTo, BlocksIn;
      ghost var d := State();
      data, maps := {}, {};
      WriteStarts(d, n, off);
      GrownStarts(d, n, off);
      LoggedStarts(d, n, off + |src|);
      var tot := 0;
      while tot < |src|
        invariant tot <= |src| && Shape(State()) && Owned(State()) && n < |inodes|
        invariant Written(d, State(), n, off, src[..tot])
        invariant InLog(State(), n, off, tot, d.logged, data, maps)
        invariant LoggedTo(d, State(), n, off + |src|)
        invariant tot == 0 || tot == |src| || (off + tot) % BSIZE == 0
        invariant tot == 0 ==> State() == d
        invariant Grown(d, State(), n, First(off), Past(off, tot))
      {
        var m := if |src| - tot < BSIZE - (off + tot) % BSIZE then |src| - tot
                 else BSIZE - (off + tot) % BSIZE;
        var piece := src[tot..tot + m];
        assert src[..tot] + piece == src[..tot + m];
        ghost var e := State();
        NextBlock(off, tot, m, |src|);
        ok := CopyIn(n, (off + tot) / BSIZE, (off + tot) % BSIZE, piece);
        CopySpends(d, e, n, First(off), Past(off, tot), Past(off, |src|), (off + tot) % BSIZE, piece);
        if !ok {
          return;
        }
        data, maps := RoundDone(d, e, n, off, src[..tot], piece, off + |src|, data, maps);
        tot := tot + m;
      }
      assert src[..tot] == src;
      GrownEnough(d, State(), n, off, |src|);
      ok := true;
    }

    /** The rest of `writei` once the range is known to be in bounds. */
    method WriteRange(n: nat, src: seq<nat>, off: nat) returns (panicked: bool)
      requires Inv(State()) && n < |inodes| && off <= inodes[n].size && off + |src| <= MAXFILE * BSIZE
      modifies `used, `blocks, `inodes, `logged
      ensures panicked <==> Free(old(used)) < NeedBytes(old(State()), n, off, |src|)
      ensures panicked ==> forall b | 0 <= b < |used| :: used[b]
      ensures !panicked ==>
                && Inv(State()) && |inodes| == |old(inodes)|
                && GrownBytes(old(State()), State(), n, off, |src|)
                && Contents(State(), n) == Splice(Contents(old(State()), n), off, src)
                && (forall m: nat | m < |inodes| && m != n ::
                      Contents(State(), m) == Contents(old(State()), m))
                && |logged - old(logged)| <= LogCost(off, |src|)
                && old(logged) <= logged && ChangesIn(old(State()), State(), logged)
    {
      hide Shape, Owned, Written, InLog, Ptr, NoHoles, Splice, LoggedTo, ChangesIn;
      ghost var d := State();
      ghost var data, maps;
      var ok;
      ok, data, maps := CopyAll(n, src, off);
      if !ok {
        return true;
      }
      WrittenInodes(d, State(), n, off, src);
      WrittenDone(d, State(), n, off, src);
      InLogDone(State(), n, off, |src|, d.logged, data, maps);
      GrownSized(d, State(), n, off, |src|);
      hide GrownBytes, NeedBytes, Free, Contents;
      ghost var e := State();
      if |src| > 0 && off + |src| > inodes[n].size {
        inodes := inodes[n := inodes[n].(size := off + |src|)];
        logged := logged + {IBlock(sb, n)};
      }
      LoggedSize(d, e, State(), n, off + |src|);
      panicked := false;
    }

    /** `writei`: -1 when the range is out of bounds, else the number of bytes written; it panics
    exactly when the blocks the range is missing are more than the disk has left. */
    method Writei(n: nat, src: seq<nat>, off: nat) returns (r: int, panicked: bool)
      requires Inv(State()) && n < |inodes| && off < WORD && |src| < WORD
      modifies `used, `blocks, `inodes, `logged
      ensures panicked <==>
                && off <= old(inodes[n].size) && off + |src| <= MAXFILE * BSIZE
                && Free(old(used)) < NeedBytes(old(State()), n, off, |src|)
      ensures panicked ==> forall b | 0 <= b < |used| :: used[b]
      ensures !panicked ==> Inv(State()) && |inodes| == |old(inodes)|
      ensures !panicked ==> r == if off > old(inodes[n].size) || off + |src| > MAXFILE * BSIZE
                                 then -1 else |src|
      ensures !panicked && r == -1 ==> State() == old(State())
      ensures !panicked && r >= 0 ==>
                && Contents(State(), n) == Splice(Contents(old(State()), n), off, src)
                && (forall m: nat | m < |inodes| && m != n ::
                      Contents(State(), m) == Contents(old(State()), m))
                && |logged - old(logged)| <= LogCost(off, |src|)
                && GrownBytes(old(State()), State(), n, off, |src|)
      ensures !panicked ==> old(logged) <= logged && ChangesIn(old(State()), State(), logged)
    {
      assert inodes[n].size <= MAXFILE * BSIZE;
      assert ChangesIn(State(), State(), logged);
      hide Shape, Owned, NoHoles, Splice, Contents, GrownBytes, NeedBytes, Free, ChangesIn;
      if off > inodes[n].size || (off + |src|) % WORD < off {
        return -1, false;
      }
      if off + |src| > MAXFILE * BSIZE {
        return -1, false;
      }
      panicked := WriteRange(n, src, off);
      r := if panicked then -1 else |src|;
    }

    /** One operation of `filewrite`: begin_op, writei, end_op; `logged` is what this operation logged. */
    method WriteChunk(n: nat, piece: seq<nat>, off: nat, maxop: nat) returns (r: int, panicked: bool)
      requires Inv(State()) && n < |inodes| && off < WORD && |piece| < WORD
      requires maxop >= 6 && |piece| <= ChunkSize(maxop)
      modifies `used, `blocks, `inodes, `logged
      ensures panicked <==>
                && off <= old(inodes[n].size) && off + |piece| <= MAXFILE * BSIZE
                && Free(old(used)) < NeedBytes(old(State()), n, off, |piece|)
      ensures panicked ==> forall b | 0 <= b < |used| :: used[b]
      ensures !panicked ==> r == (if off > old(inodes[n].size) || off + |piece| > MAXFILE * BSIZE
                                  then -1 else |piece|)
      ensures !panicked ==> |logged| <= maxop && ChangesIn(old(State()), State(), logged)
      ensures !panicked ==>
                && Inv(State()) && n < |inodes|
                && GrownBytes(old(State()), State(), n, off, if r == -1 then 0 else |piece|)
      ensures !panicked ==> Wrote(old(State()), State(), n, off, if r == -1 then [] else piece)
    {
      hide Ptr, NoHoles, BlocksIn, ChangesIn, Owned, NeedBytes, Free;
      ghost var d := State();
      ContentsSize(d, n);
      ChunkFits(maxop, off, |piece|);
      LogIrrelevant(d, {});
      logged := {};
      SpaceIrrelevant(d, {}, n, off, |piece|);
      r, panicked := Writei(n, piece, off);
      ChangesFrom(d, State(), {}, logged);
      if !panicked { SpaceStays(d, State(), n, off, |piece|); }
      hide Inv, Contents;
      if !panicked {
        assert logged - {} == logged;
        if piece == [] && r == 0 {
          assert Splice(Contents(d, n), off, []) == Contents(d, n);
        }
      }
    }

    /** `filewrite` for a file: write in chunks, one logged operation each. `logs` lists the blocks
    that each operation logged: none is too large, and together they hold all that changed. It
    succeeds exactly when the whole range is in bounds; else the whole chunks before the first one
    that is not have been written, and the offset tells how much. It panics exactly when what it would
    write needs more blocks than the disk has left. */
    method FileWrite(f: File, src: seq<nat>, n: int, maxop: nat)
      returns (r: int, panicked: bool, ghost logs: seq<set<nat>>)
      requires Inv(State()) && f.inum < |inodes| && n <= |src| && n < 0x8000_0000 && maxop >= 6
      requires f.off < WORD && ChunkSize(maxop) < WORD
      modifies this, f
      ensures Fit(logs, maxop)
      ensures !panicked ==> ChangesIn(old(State()), State(), All(logs))
      ensures ChunkSize(maxop) > 0
      ensures var w := Reach(old(f.off), old(inodes[f.inum].size), n, ChunkSize(maxop));
              && (w == 0 || old(f.off) + w <= MAXFILE * BSIZE) && w <= |src|
              && (panicked <==> Free(old(used)) < NeedBytes(old(State()), f.inum, old(f.off), w))
              && (!panicked ==>
                    && f.off == old(f.off) + w && r == (if w == n then n else -1)
                    && Wrote(old(State()), State(), f.inum, old(f.off), src[..w]))
      ensures !panicked ==>
                (r >= 0 <==> n == 0 || (n > 0 && old(f.off) <= old(inodes[f.inum].size)
                                        && old(f.off) + n <= MAXFILE * BSIZE))
      ensures panicked ==> forall b | 0 <= b < |used| :: used[b]
    {
      hide Wrote, Contents, ChunkSize, Shape, Owned, NoHoles, GrownBytes, NeedBytes, Free, Reach, ChangesIn,
           BlocksIn, All, Fit;
      logs, panicked := [], false;
      ghost var d, off, size, q := State(), f.off, inodes[f.inum].size, 0;
      WroteNone(d, f.inum, off);
      AllNone(d, maxop);
      ChunkPositive(maxop);
      var max := ChunkSize(maxop);
      ghost var w := Reach(off, size, n, max);
      ReachFits(off, size, n, max);
      WriteBegins(d, f.inum, off);
      var i := 0;
      while i < n
        invariant 0 <= i <= w && f.off == off + i < WORD
        invariant Wrote(d, State(), f.inum, off, src[..i])
        invariant Inv(State()) && GrownBytes(d, State(), f.inum, off, i)
        invariant i == n || i == q * max
        invariant Fit(logs, maxop) && ChangesIn(d, State(), All(logs))
        decreases n - i
      {
        var n1 := if n - i > max then max else n - i;
        ghost var e := State();
        ChunkStart(d, e, f.inum, off, src[..i]);
        ghost var fits := off <= size && off + i + n1 <= LIMIT;
        if fits { ReachStep(off, size, n, max, q, n1); } else { ReachStop(off, size, n, max, q, n1); }
        r, panicked := WriteChunk(f.inum, src[i..i + n1], f.off, maxop);
        if fits { ChunkSpace(d, e, State(), f.inum, off, i, n1, w, !panicked); }
        if panicked {
          return;
        }
        AllNext(d, e, State(), logs, logged, maxop);
        logs := logs + [logged];
        WroteNext(d, e, State(), f.inum, off, src[..i], if r == -1 then [] else src[i..i + n1]);
        if r > 0 {
          f.off := f.off + r;
        }
        if r < 0 {
          assert src[..i] + [] == src[..i];
          GrownStays(d, e, State(), f.inum, off, i);
          break;
        }
        assert src[..i] + src[i..i + n1] == src[..i + n1];
        i := i + r;
        q := q + 1;
      }
      EnoughSpace(d, State(), f.inum, off, i);
      ReachAll(off, size, n, max);
      r := if i == n then n else -1;
    }

    /** One round of `readi`: `m` bytes at `k` from one block; nothing is allocated. */
    method CopyOut(n: nat, k: nat, m: nat) returns (piece: seq<nat>)
      requires Inv(State()) && n < |inodes| && k + m <= inodes[n].size
      requires m > 0 && k % BSIZE + m <= BSIZE
      modifies `used, `blocks, `inodes, `logged
      ensures State() == old(State()) && |Contents(State(), n)| == inodes[n].size
      ensures piece == Contents(State(), n)[k..k + m]
    {
      SliceOfBlock(State(), n, k, m);
      hide Ptr, Bmap, Contents, Shape;
      var at := MapBlock(n, k / BSIZE);
      piece := blocks[at.value].bytes[k % BSIZE..k % BSIZE + m];
    }

    /** The loop of `readi`. */
    method CopyOutAll(n: nat, off: nat, count: nat) returns (dst: seq<nat>)
      requires Inv(State()) && n < |inodes| && off + count <= inodes[n].size
      modifies `used, `blocks, `inodes, `logged
      ensures State() == old(State()) && |Contents(State(), n)| == inodes[n].size
      ensures dst == Contents(State(), n)[off..off + count]
    {
      hide Inv, Contents;
      ghost var d := State();
      ContentsSize(d, n);
      ghost var c := Contents(d, n);
      dst := [];
      var tot := 0;
      while tot < count
        invariant tot <= count && State() == d && dst == c[off..off + tot]
      {
        var o := (off + tot) % BSIZE;
        var m := if count - tot < BSIZE - o then count - tot else BSIZE - o;
        assert c[off..off + tot] + c[off + tot..off + tot + m] == c[off..off + tot + m];
        var piece := CopyOut(n, off + tot, m);
        dst := dst + piece;
        tot := tot + m;
      }
    }

    /** `readi`: the requested slice clipped to the size, or -1; the disk does not change. */
    method Readi(n: nat, off: nat, count: nat) returns (r: int, dst: seq<nat>)
      requires Inv(State()) && n < |inodes| && off < WORD && count < WORD
      modifies `used, `blocks, `inodes, `logged
      ensures State() == old(State())
      ensures r == -1 <==> off > inodes[n].size || off + count >= WORD
      ensures r != -1 ==>
                && r == (if off + count > inodes[n].size then inodes[n].size - off else count)
                && dst == Contents(State(), n)[off..off + r]
    {
      if off > inodes[n].size || (off + count) % WORD < off {
        return -1, [];
      }
      var cnt := if off + count > inodes[n].size then inodes[n].size - off else count;
      dst := CopyOutAll(n, off, cnt);
      r := cnt;
    }

    /** `itrunc`: the file's blocks are freed once each, and the "freeing free block" panic of
    `FreeBlock` does not happen. */
    method Itrunc(n: nat)
      requires Inv(State()) && n < |inodes|
      modifies `used, `inodes, `logged
      ensures State() == Truncated(old(State()), n)
      ensures Inv(State()) && n < |inodes| && Contents(State(), n) == []
      ensures |inodes| == |old(inodes)| && forall m: nat | m < |inodes| && m != n ::
                Contents(State(), m) == Contents(old(State()), m)
      ensures old(logged) <= logged && ChangesIn(old(State()), State(), logged)
    {
      ghost var d := State();
      TruncateOk(d, n);
      TruncateLogs(d, n);
      FreedNone(d, n);
      hide Freed, FreeBit, Shape, Owned, NoHoles, Word, Truncated, Contents;
      FreeDirects(n, d);
      if inodes[n].addrs[NDIRECT] != 0 {
        FreeIndirect(n, d);
        var addrs := inodes[n].addrs[NDIRECT := 0];
        FreedInodes(d, State(), n, MAXFILE + 1, inodes[n := inodes[n].(addrs := addrs)]);
        inodes := inodes[n := inodes[n].(addrs := addrs)];
      } else {
        FreedRest(d, State(), n);
      }
      FreedAll(d, State(), n);
      inodes := inodes[n := inodes[n].(size := 0)];
      logged := logged + {IBlock(sb, n)};
    }

    /** The first loop of `itrunc`. */
    method FreeDirects(n: nat, ghost d: Disk)
      requires Inv(d) && n < |inodes| && State() == d && Freed(d, d, n, 0)
      modifies `used, `inodes, `logged
      ensures Freed(d, State(), n, NDIRECT) && |inodes| == |d.inodes| && inodes == d.inodes[n := inodes[n]]
      ensures |inodes[n].addrs| == NDIRECT + 1 == |d.inodes[n].addrs|
      ensures inodes[n].addrs[NDIRECT] == d.inodes[n].addrs[NDIRECT]
      ensures forall j | 0 <= j < NDIRECT :: inodes[n].addrs[j] == 0
    {
      assert |d.inodes[n].addrs| == NDIRECT + 1;
      hide Freed, Shape, Owned, NoHoles;
      var i := 0;
      while i < NDIRECT
        invariant i <= NDIRECT && Freed(d, State(), n, i)
        invariant |inodes| == |d.inodes| && inodes == d.inodes[n := inodes[n]]
        invariant |inodes[n].addrs| == NDIRECT + 1 == |d.inodes[n].addrs|
        invariant forall j | 0 <= j < NDIRECT + 1 ::
                    inodes[n].addrs[j] == if j < i then 0 else d.inodes[n].addrs[j]
      {
        FreeDirect(n, i, d);
        i := i + 1;
      }
    }

    /** One round of the first loop of `itrunc`. */
    method FreeDirect(n: nat, i: nat, ghost d: Disk)
      requires Inv(d) && n < |d.inodes| && i < NDIRECT && Freed(d, State(), n, i)
      requires |inodes| == |d.inodes| && |inodes[n].addrs| == NDIRECT + 1
      requires inodes[n].addrs[i] == d.inodes[n].addrs[i]
      modifies `used, `inodes, `logged
      ensures Freed(d, State(), n, i + 1)
      ensures inodes == old(inodes)[n := old(inodes[n]).(addrs := old(inodes[n].addrs)[i := 0])]
    {
      FreedNext(d, State(), n, i);
      if inodes[n].addrs[i] != 0 {
        assert Ptr(d, n, i) == inodes[n].addrs[i];
        hide Freed, FreeBit, Shape, Owned, NoHoles, Ptr;
        var ok := FreeBlock(inodes[n].addrs[i]);
        assert ok;
        var addrs := inodes[n].addrs[i := 0];
        FreedInodes(d, State(), n, i + 1, inodes[n := inodes[n].(addrs := addrs)]);
        inodes := inodes[n := inodes[n].(addrs := addrs)];
      } else {
        assert inodes[n].addrs[i := 0] == inodes[n].addrs;
      }
    }

    /** One round of the second loop of `itrunc`. */
    method FreeWord(n: nat, ind: nat, j: nat, ghost d: Disk)
      requires Inv(d) && n < |d.inodes| && j < NINDIRECT && Freed(d, State(), n, NDIRECT + j)
      requires ind == Ptr(d, n, MAXFILE) && 0 < ind < |blocks| && blocks == d.blocks
      requires |blocks[ind].bytes| == BSIZE
      modifies `used, `logged
      ensures Freed(d, State(), n, NDIRECT + j + 1)
    {
      FreedNext(d, State(), n, NDIRECT + j);
      WordPtr(d, n, j);
      hide Freed, FreeBit, Word, Shape, Owned, NoHoles, Ptr;
      var a := Word(blocks[ind], j);
      if a != 0 {
        var ok := FreeBlock(a);
        assert ok;
      }
    }

    /** The second half of `itrunc`: the blocks named by the indirect block, then that block. */
    method FreeIndirect(n: nat, ghost d: Disk)
      requires Inv(d) && n < |d.inodes| && Freed(d, State(), n, NDIRECT)
      requires n < |inodes| && |inodes[n].addrs| == NDIRECT + 1
      requires inodes[n].addrs[NDIRECT] == Ptr(d, n, MAXFILE) != 0
      modifies `used, `logged
      ensures Freed(d, State(), n, MAXFILE + 1)
    {
      var ind := inodes[n].addrs[NDIRECT];
      assert Taken(d, ind) && blocks == d.blocks;
      assert |blocks[ind].bytes| == BSIZE;
      hide Freed, FreeBit, Word, Shape, Owned, NoHoles, Ptr;
      var j := 0;
      while j < NINDIRECT
        invariant j <= NINDIRECT && Freed(d, State(), n, NDIRECT + j)
      {
        FreeWord(n, ind, j, d);
        j := j + 1;
      }
      FreedNext(d, State(), n, MAXFILE);
      var ok := FreeBlock(ind);
      assert ok;
    }
  }

  lemma WordPtr(d: Disk, n: nat, j: nat)
    requires Shape(d) && n < |d.inodes| && j < NINDIRECT && 0 < Ptr(d, n, MAXFILE) < |d.blocks|
    ensures Ptr(d, n, NDIRECT + j) == Word(d.blocks[Ptr(d, n, MAXFILE)], j)
  {
  }

  /** `bfree` on a block in use. */
  function FreeBit(d: Disk, b: nat): Disk
    requires b < |d.used|
  {
    d.(used := d.used[b := false], logged := d.logged + {BBlock(d.sb, b)})
  }

  /** `itrunc` in progress: exactly the blocks at the first `k` positions have been freed. */
  ghost predicate Freed(d: Disk, e: Disk, n: nat, k: nat)
    requires Shape(d) && n < |d.inodes| && k <= MAXFILE + 1
  {
    && e.sb == d.sb && e.blocks == d.blocks && |e.used| == |d.used|
    && (forall b: nat | b < |d.used| :: e.used[b] == (d.used[b] && b !in HeldUpTo(d, n, k)))
    && e.logged == d.logged + (set b | b in HeldUpTo(d, n, k) :: BBlock(d.sb, b))
  }

  lemma FreedNone(d: Disk, n: nat)
    requires Shape(d) && n < |d.inodes|
    ensures Freed(d, d, n, 0)
  {
    assert HeldUpTo(d, n, 0) == {};
  }

  lemma FreedInodes(d: Disk, e: Disk, n: nat, k: nat, inodes: seq<Inode>)
    requires Shape(d) && n < |d.inodes| && k <= MAXFILE + 1 && Freed(d, e, n, k)
    ensures Freed(d, e.(inodes := inodes), n, k)
  {
  }

  lemma FreedNext(d: Disk, e: Disk, n: nat, k: nat)
    requires Shape(d) && Owned(d) && n < |d.inodes| && k <= MAXFILE && Freed(d, e, n, k)
    ensures var b := Ptr(d, n, k);
            if b == 0 then Freed(d, e, n, k + 1)
            else b < |e.used| && e.used[b] && Freed(d, FreeBit(e, b), n, k + 1)
  {
    var b := Ptr(d, n, k);
    if b == 0 {
      assert HeldUpTo(d, n, k + 1) == HeldUpTo(d, n, k);
    } else {
      StillUsed(d, n, k);
    }
    hide Ptr;
  }

  lemma FreedRest(d: Disk, e: Disk, n: nat)
    requires Shape(d) && n < |d.inodes| && Freed(d, e, n, NDIRECT) && Ptr(d, n, MAXFILE) == 0
    ensures Freed(d, e, n, MAXFILE + 1)
  {
    assert HeldUpTo(d, n, NDIRECT) == HeldUpTo(d, n, MAXFILE + 1);
  }

  lemma FreedAll(d: Disk, e: Disk, n: nat)
    requires Shape(d) && n < |d.inodes| && Freed(d, e, n, MAXFILE + 1)
    requires |e.inodes| == |d.inodes| && e.inodes == d.inodes[n := e.inodes[n]]
    requires |e.inodes[n].addrs| == NDIRECT + 1
    requires forall j | 0 <= j < NDIRECT + 1 :: e.inodes[n].addrs[j] == 0
    ensures e.(inodes := e.inodes[n := e.inodes[n].(size := 0)],
               logged := e.logged + {IBlock(d.sb, n)}) == Truncated(d, n)
  {
    assert e.used == Truncated(d, n).used;
    assert e.inodes[n].addrs == seq(NDIRECT + 1, _ => 0);
  }

  lemma WroteNone(d: Disk, n: nat, off: nat)
    requires Inv(d) && n < |d.inodes|
    ensures Wrote(d, d, n, off, [])
  {
  }

  lemma ChunkPositive(maxop: nat)
    requires maxop >= 6
    ensures ChunkSize(maxop) > 0
  {
  }

  lemma ContentsSize(d: Disk, n: nat)
    requires Inv(d) && n < |d.inodes|
    ensures Shape(d)
    ensures d.inodes[n].size <= MAXFILE * BSIZE && |Contents(d, n)| == d.inodes[n].size
  {
  }

  /** A piece of one block of a file, found without allocating anything. */
  lemma SliceOfBlock(d: Disk, n: nat, k: nat, m: nat)
    requires Inv(d) && n < |d.inodes| && k + m <= d.inodes[n].size
    requires k % BSIZE + m <= BSIZE && m > 0
    ensures k / BSIZE < MAXFILE && Bmap(d, n, k / BSIZE) == Some(d)
    ensures 0 < Ptr(d, n, k / BSIZE) < |d.blocks|
    ensures |d.blocks[Ptr(d, n, k / BSIZE)].bytes| == BSIZE
    ensures |Contents(d, n)| == d.inodes[n].size
    ensures d.blocks[Ptr(d, n, k / BSIZE)].bytes[k % BSIZE..k % BSIZE + m]
         == Contents(d, n)[k..k + m]
  {
    assert k / BSIZE < Blocks(d.inodes[n].size) && Ptr(d, n, k / BSIZE) != 0;
    assert Taken(d, Ptr(d, n, k / BSIZE));
    BmapThere(d, n, k / BSIZE);
    hide Ptr;
    var a, b := d.blocks[Ptr(d, n, k / BSIZE)].bytes[k % BSIZE..k % BSIZE + m],
                Contents(d, n)[k..k + m];
    forall i: nat | i < m ensures a[i] == b[i] {
      assert (k + i) / BSIZE == k / BSIZE && (k + i) % BSIZE == k % BSIZE + i;
    }
  }

  lemma WriteBegins(d: Disk, n: nat, off: nat)
    requires Inv(d) && n < |d.inodes|
    ensures GrownBytes(d, d, n, off, 0) && d.inodes[n].size <= LIMIT
  {
    GrownNone(d, n, 0);
  }

  /** What the file's size is when the next chunk starts. */
  lemma ChunkStart(d: Disk, e: Disk, n: nat, off: nat, w: seq<nat>)
    requires Wrote(d, e, n, off, w)
    ensures n < |d.inodes| == |e.inodes| && Shape(e)
    ensures off + |w| <= e.inodes[n].size <==> off <= d.inodes[n].size
  {
    ContentsSize(d, n);
    ContentsSize(e, n);
    hide Contents;
    if w != [] { SpliceRead(Contents(d, n), off, w); }
  }

  /** The blocks of a chunk that fits come out of those for the whole write. */
  lemma ChunkSpace(d: Disk, e: Disk, f: Disk, n: nat, off: nat, i: nat, k: nat, w: nat, done: bool)
    requires Shape(d) && Shape(e) && k > 0 && i + k <= w && off + w <= LIMIT && GrownBytes(d, e, n, off, i)
    requires n < |e.inodes| && (done <==> Free(e.used) >= NeedBytes(e, n, off + i, k))
    requires done ==> Shape(f) && GrownBytes(e, f, n, off + i, k)
    ensures n < |d.inodes|
    ensures !done ==> Free(d.used) < NeedBytes(d, n, off, w)
    ensures done ==> GrownBytes(d, f, n, off, i + k)
  {
    GrownChunk(d, e, if done then f else e, n, off, i, k);
    NeedBytesMore(d, n, off, i + k, w);
    EnoughSpace(d, e, n, off, i);
  }

  /** A chunk that is refused takes no block. */
  lemma GrownStays(d: Disk, e: Disk, f: Disk, n: nat, off: nat, i: nat)
    requires Shape(d) && Shape(e) && Shape(f) && (i == 0 || off + i <= LIMIT)
    requires GrownBytes(d, e, n, off, i) && GrownBytes(e, f, n, off + i, 0)
    ensures GrownBytes(d, f, n, off, i)
  {
    assert Missing(e, n, 0, 0) == 0;
    hide Free, Ptr, Shape, Missing;
  }

  lemma EnoughSpace(d: Disk, e: Disk, n: nat, off: nat, len: nat)
    requires Shape(d) && Shape(e) && (len == 0 || off + len <= LIMIT) && GrownBytes(d, e, n, off, len)
    ensures n < |d.inodes| && Free(e.used) == Free(d.used) - NeedBytes(d, n, off, len)
  {
    hide Free, Ptr, Shape;
  }

  lemma GrownStarts(d: Disk, n: nat, off: nat)
    requires Shape(d) && n < |d.inodes| && off <= MAXFILE * BSIZE
    ensures Grown(d, d, n, First(off), Past(off, 0))
  {
    GrownNone(d, n, First(off));
  }

  /** Which blocks are logged takes no block. */
  lemma SpaceIrrelevant(d: Disk, l: set<nat>, n: nat, off: nat, len: nat)
    requires Shape(d) && n < |d.inodes|
    ensures Shape(d.(logged := l))
    ensures len == 0 || off + len <= MAXFILE * BSIZE ==>
      NeedBytes(d.(logged := l), n, off, len) == NeedBytes(d, n, off, len)
  {
    var e := d.(logged := l);
    assert forall j: nat | j <= MAXFILE :: Ptr(e, n, j) == Ptr(d, n, j);
    if len > 0 && off + len <= MAXFILE * BSIZE {
      SameNeed(d, e, n, First(off), Past(off, len));
    }
  }

  lemma SpaceStays(d: Disk, e: Disk, n: nat, off: nat, len: nat)
    requires Shape(d) && Shape(e) && n < |d.inodes| && n < |e.inodes|
    ensures e == d.(logged := e.logged) ==> Grown(d, e, n, 0, 0)
    ensures (len == 0 || off + len <= MAXFILE * BSIZE) && GrownBytes(d.(logged := {}), e, n, off, len)
      ==> GrownBytes(d, e, n, off, len)
  {
    var c := d.(logged := {});
    assert Shape(c);
    assert forall j: nat | j <= MAXFILE :: Ptr(c, n, j) == Ptr(d, n, j);
    if e == d.(logged := e.logged) {
      GrownNone(d, n, 0);
      assert forall j: nat | j <= MAXFILE :: Ptr(e, n, j) == Ptr(d, n, j);
      GrownSame(d, d, e, n, 0, 0);
    }
    if len > 0 && off + len <= MAXFILE * BSIZE {
      SameNeed(d, c, n, First(off), Past(off, len));
    } else {
      SameNeed(d, c, n, 0, 0);
    }
    hide Ptr, Shape, Need, Free;
  }

  /** Setting the size and logging the inode takes no block. */
  lemma GrownSized(d: Disk, e: Disk, n: nat, off: nat, len: nat)
    requires Shape(d) && Shape(e) && off + len <= MAXFILE * BSIZE && GrownBytes(d, e, n, off, len)
    ensures n < |e.inodes|
    ensures var f := e.(inodes := e.inodes[n := e.inodes[n].(size := off + len)],
                        logged := e.logged + {IBlock(e.sb, n)});
            Shape(f) && GrownBytes(d, f, n, off, len)
  {
    var f := e.(inodes := e.inodes[n := e.inodes[n].(size := off + len)],
                logged := e.logged + {IBlock(e.sb, n)});
    assert Shape(f);
    assert forall j: nat | j <= MAXFILE :: Ptr(f, n, j) == Ptr(e, n, j);
    hide Ptr, Shape;
    if len == 0 {
      GrownSame(d, e, f, n, 0, 0);
    } else {
      GrownSame(d, e, f, n, First(off), Past(off, len));
    }
  }

  lemma GrownEnough(d: Disk, e: Disk, n: nat, off: nat, len: nat)
    requires Shape(d) && Shape(e) && off + len <= MAXFILE * BSIZE && Grown(d, e, n, First(off), Past(off, len))
    ensures n < |d.inodes| && GrownBytes(d, e, n, off, len) && Free(d.used) >= NeedBytes(d, n, off, len)
  {
    if len == 0 { hide Ptr, Free, Shape; }
  }

  /** The block a round of `writei` works on is the first one not done yet. */
  lemma NextBlock(off: nat, tot: nat, m: nat, len: nat)
    requires tot < len && off + len <= MAXFILE * BSIZE && (tot == 0 || (off + tot) % BSIZE == 0)
    requires 0 < m <= len - tot && (off + tot) % BSIZE + m <= BSIZE
    ensures (off + tot) / BSIZE == Past(off, tot) && Past(off, tot + m) == Past(off, tot) + 1
    ensures First(off) <= Past(off, tot) < Past(off, len) <= MAXFILE
  {
  }

  /** A round of `writei` takes the blocks it needs, or there are too few for the whole write. */
  lemma CopySpends(d: Disk, e: Disk, n: nat, lo: nat, bn: nat, hi: nat, o: nat, piece: seq<nat>)
    requires Shape(d) && Shape(e) && Owned(e) && lo <= bn < hi <= MAXFILE && Grown(d, e, n, lo, bn)
    requires o + |piece| <= BSIZE
    ensures n < |e.inodes| && n < |d.inodes|
    ensures Bmap(e, n, bn).None? ==> Free(d.used) < Need(d, n, lo, hi)
    ensures Bmap(e, n, bn).Some? ==>
      var f := Bmap(e, n, bn).value;
      && Shape(f) && n < |f.inodes| && Ptr(f, n, bn) < |f.blocks|
      && var g := PutBytes(f, Ptr(f, n, bn), o, piece);
      && Shape(g) && Grown(d, g, n, lo, bn + 1)
  {
    BmapGrows(e, n, bn);
    if Bmap(e, n, bn).None? {
      TooFew(d, e, n, lo, bn, hi);
    } else {
      BmapOk(e, n, bn);
      var f := Bmap(e, n, bn).value;
      PutBytesOk(f, n, bn, o, piece);
      var g := PutBytes(f, Ptr(f, n, bn), o, piece);
      assert g.used == f.used && |g.inodes| == |f.inodes|;
      hide Ptr, Shape, Owned, Bmap, Need, Free, PutBytes;
      GrownSame(e, f, g, n, bn, bn + 1);
      GrownThen(d, e, g, n, lo, bn, bn + 1);
    }
  }

  lemma WriteStarts(d: Disk, n: nat, off: nat)
    requires Inv(d) && n < |d.inodes| && off <= MAXFILE * BSIZE
    ensures Written(d, d, n, off, []) && InLog(d, n, off, 0, d.logged, {}, {})
  {
    WrittenNone(d, n, off);
  }

  /** All that a round of `writei` adds. */
  lemma RoundDone(d: Disk, e: Disk, n: nat, off: nat, src: seq<nat>, piece: seq<nat>, end: nat,
                  data: set<nat>, maps: set<nat>) returns (data': set<nat>, maps': set<nat>)
    requires Inv(d) && Shape(e) && Owned(e) && Written(d, e, n, off, src) && LoggedTo(d, e, n, end)
    requires n < |d.inodes| && n < |e.inodes| && InLog(e, n, off, |src|, d.logged, data, maps)
    requires off <= d.inodes[n].size
    requires var o := (off + |src|) % BSIZE; 0 < |piece| && o + |piece| <= BSIZE && (src == [] || o == 0)
    requires off + |src| + |piece| <= end <= MAXFILE * BSIZE && (src == [] ==> e == d)
    requires (off + |src|) / BSIZE < MAXFILE && Bmap(e, n, (off + |src|) / BSIZE).Some?
    ensures var bn := (off + |src|) / BSIZE;
            var f := Bmap(e, n, bn).value;
            && Shape(f) && n < |f.inodes| && Ptr(f, n, bn) < |f.blocks|
            && var g := PutBytes(f, Ptr(f, n, bn), (off + |src|) % BSIZE, piece);
            && Shape(g) && Owned(g) && n < |g.inodes| && Written(d, g, n, off, src + piece)
            && LoggedTo(d, g, n, end) && InLog(g, n, off, |src| + |piece|, d.logged, data', maps')
  {
    hide Owned, Written, InLog, PutBytes, Bmap, Ptr, NoHoles, LoggedTo;
    FirstBlockThere(d, n, off);
    WrittenNext(d, e, n, off, src, piece);
    LoggedNext(d, e, n, off, src, piece, end);
    data', maps' := InLogNext(e, n, off, |src|, piece, d.logged, data, maps);
  }

  lemma WrittenInodes(d: Disk, e: Disk, n: nat, off: nat, src: seq<nat>)
    requires Shape(d) && Shape(e) && Written(d, e, n, off, src)
    ensures |e.inodes| == |d.inodes| && e.sb == d.sb
    ensures n < |d.inodes| && e.inodes[n].size == d.inodes[n].size
  {
  }

  /** A write that starts inside a block starts inside a block the file already has. */
  lemma FirstBlockThere(d: Disk, n: nat, off: nat)
    requires Inv(d) && n < |d.inodes| && off <= d.inodes[n].size
    ensures off % BSIZE != 0 ==> off / BSIZE <= MAXFILE && Ptr(d, n, off / BSIZE) != 0
  {
    if off % BSIZE != 0 {
      assert off / BSIZE < Blocks(d.inodes[n].size);
    }
  }

  lemma IndirectReady(d: Disk, n: nat)
    requires Shape(d) && Owned(d) && n < |d.inodes| && AllocPtr(d, n, MAXFILE).Some?
    ensures var e := AllocPtr(d, n, MAXFILE).value;
            Shape(e) && Owned(e) && n < |e.inodes| && 0 < Ptr(e, n, MAXFILE) < |e.blocks|
  {
    if Ptr(d, n, MAXFILE) == 0 {
      AllocPtrOk(d, n, MAXFILE);
    } else {
      assert Taken(d, Ptr(d, n, MAXFILE));
    }
  }
}
