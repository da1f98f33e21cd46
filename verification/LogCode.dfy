/** The code of `log.c`, on a cache that reads through to the disk. Every `bwrite` is appended to
the ghost field `trace`, so that the contracts say which disk writes happen and in which order. */
module LogCode {
  import opened Disk
  import opened Log

  /** What `bread` returns: the cached copy, else the disk block. */
  function Read(d: Image, cache: Image, b: nat): Block
    requires b in d
  {
    if b in cache then cache[b] else d[b]
  }

  function View(d: Image, cache: Image): (v: Image) {
    map b | b in d :: Read(d, cache, b)
  }

  /** `log_write` records a block once: repeated writes are absorbed. */
  function Absorb(lh: seq<nat>, b: nat): seq<nat> {
    if b in lh then lh else lh + [b]
  }

  predicate Admits(p: Params, n: nat, outstanding: nat, committing: bool) {
    !committing && n + (outstanding + 1) * p.maxop <= p.logsize
  }

  /** The test before the "too big a transaction" panic. */
  predicate Fits(p: Params, n: nat) {
    n < p.logsize && n < p.size - 1
  }

  class Journal {
    const p: Params
    var disk: Image
    var cache: Image       // cached blocks
    var dirty: set<nat>    // cached blocks marked B_DIRTY
    var n: nat             // log.lh.n
    var block: seq<nat>    // log.lh.block
    var outstanding: nat
    var committing: bool
    ghost var trace: seq<Write>

    /** Clean cached blocks agree with the disk; only home blocks are ever dirty. */
    ghost predicate Valid()
      reads this
    {
      && WellFormed(p, disk)
      && |block| == p.logsize && n <= p.logsize
      && dirty <= cache.Keys <= disk.Keys
      && (forall b | b in cache && b !in dirty :: cache[b] == disk[b])
      && (forall b | b in dirty :: p.Home(b))
    }

    ghost function Logged(): seq<nat>
      requires Valid()
      reads this
    {
      block[..n]
    }

    /** A freshly booted journal: memory is empty, the disk is whatever the last crash left. */
    constructor (p: Params, disk: Image)
      requires WellFormed(p, disk)
      ensures Valid() && this.p == p && this.disk == disk && this.trace == []
      ensures cache == map[] && dirty == {} && n == 0 && outstanding == 0 && !committing
    {
      this.p, this.disk, this.trace := p, disk, [];
      cache, dirty, n, outstanding, committing := map[], {}, 0, 0, false;
      block := seq(p.logsize, _ => 0);
    }

    method Bread(b: nat) returns (data: Block)
      requires Valid() && b in disk
      modifies `cache
      ensures Valid() && data == Read(disk, old(cache), b) && cache == old(cache)[b := data]
    {
      data := if b in cache then cache[b] else disk[b];
      cache := cache[b := data];
    }

    /** Set B_DIRTY and call `iderw`, which writes the block and clears the flag. */
    method Bwrite(b: nat, data: Block)
      requires Valid() && b in disk
      requires b == p.start ==> IsHeader(data) && Loggable(p, disk, Decode(data))
      modifies `disk, `cache, `dirty, `trace
      ensures Valid()
      ensures disk == old(disk)[b := data] && trace == old(trace) + [Write(b, data)]
      ensures cache == old(cache)[b := data] && dirty == old(dirty) - {b}
    {
      disk, trace := disk[b := data], trace + [Write(b, data)];
      cache, dirty := cache[b := data], dirty - {b};
    }

    /** Read both blocks, `memmove` one over the other and write it: the body of both copy loops. */
    method CopyBlock(from: nat, to: nat)
      requires Valid() && from in disk && to in disk && to != p.start
      modifies `disk, `cache, `dirty, `trace
      ensures Valid() && dirty == old(dirty) - {to}
      ensures var data := old(Read(disk, cache, from));
              && disk == old(disk)[to := data] && trace == old(trace) + [Write(to, data)]
              && (forall b | b in disk ::
                    Read(disk, cache, b) == if b == to then data else old(Read(disk, cache, b)))
    {
      var data := Bread(from);
      var over := Bread(to);
      Bwrite(to, data);
    }

    method WriteLog()
      requires Valid() && Loggable(p, disk, Logged())
      modifies `disk, `cache, `dirty, `trace
      ensures Valid() && dirty == old(dirty)
      ensures disk == Apply(old(disk), LogWrites(p, Logged(), old(View(disk, cache))))
      ensures trace == old(trace) + LogWrites(p, Logged(), old(View(disk, cache)))
    {
      ghost var view := View(disk, cache);
      ghost var ws := LogWrites(p, Logged(), view);
      ProgressEnds(disk, trace, ws);
      var tail := 0;
      while tail < n
        invariant tail <= n && Valid() && dirty == old(dirty) && disk.Keys == old(disk).Keys
        invariant (disk, trace) == Progress(old(disk), old(trace), ws, tail)
        invariant forall b | b in disk && p.Home(b) :: Read(disk, cache, b) == view[b]
      {
        assert block[tail] == Logged()[tail];
        ProgressStep(old(disk), old(trace), ws, tail);
        assert ws[tail] == Write(p.start + tail + 1, Read(disk, cache, block[tail]));
        hide LogWrites, Apply, Loggable, View;
        CopyBlock(block[tail], p.start + tail + 1);
        tail := tail + 1;
      }
    }

    /** Copy the in-memory header over the first words of the header block. */
    method WriteHead()
      requires Valid() && Loggable(p, disk, Logged())
      modifies `disk, `cache, `dirty, `trace
      ensures Valid() && dirty == old(dirty)
      ensures var w := Write(p.start, Encode(old(disk)[p.start], Logged()));
              disk == old(disk)[w.at := w.data] && trace == old(trace) + [w]
    {
      var buf := Bread(p.start);
      var hb := buf.words[0 := n];
      var i := 0;
      while i < n
        invariant i <= n && hb == [n] + block[..i] + buf.words[1 + i..]
      {
        hb := hb[1 + i := block[i]];
        i := i + 1;
      }
      Bwrite(p.start, Block(hb));
    }

    /** `install_trans` begun on disk `d` with trace `t` and pinned blocks `q`, after `tail` rounds. */
    ghost predicate Installing(d: Image, t: seq<Write>, q: set<nat>, tail: nat)
      reads this
    {
      && Valid() && tail <= n && Loggable(p, d, Logged()) && disk.Keys == d.Keys
      && (forall b | p.start <= b < p.start + p.size :: disk[b] == d[b])
      && dirty == q - Elems(block[..tail])
      && (disk, trace) == Progress(d, t, Installs(p, Logged(), d), tail)
    }

    /** Copy one log slot to the home block it is for. */
    method InstallBlock(tail: nat, ghost d: Image, ghost t: seq<Write>, ghost q: set<nat>)
      requires Installing(d, t, q, tail) && tail < n
      modifies `disk, `cache, `dirty, `trace
      ensures Installing(d, t, q, tail + 1)
    {
      assert block[tail] == Logged()[tail];
      ProgressStep(d, t, Installs(p, Logged(), d), tail);
      ElemsNext(block, tail);
      hide Progress, Elems, Decode;
      assert Read(disk, cache, p.start + tail + 1) == d[p.start + tail + 1];
      CopyBlock(p.start + tail + 1, block[tail]);
    }

    method InstallTrans()
      requires Valid() && Loggable(p, disk, Logged())
      modifies `disk, `cache, `dirty, `trace
      ensures Valid() && dirty == old(dirty) - Elems(Logged())
      ensures disk == Apply(old(disk), Installs(p, Logged(), old(disk)))
      ensures trace == old(trace) + Installs(p, Logged(), old(disk))
    {
      ProgressEnds(disk, trace, Installs(p, Logged(), disk));
      hide Progress, Loggable, Apply, Decode;
      var tail := 0;
      while tail < n
        invariant tail <= n && Installing(old(disk), old(trace), old(dirty), tail)
      {
        InstallBlock(tail, old(disk), old(trace), old(dirty));
        tail := tail + 1;
      }
    }

    method ReadHead()
      requires Valid() && dirty == {}
      modifies `n, `block, `cache
      ensures Valid() && Logged() == Decode(disk[p.start])
    {
      var buf := Bread(p.start);
      n := buf.words[0];
      var i := 0;
      while i < n
        invariant i <= n <= p.logsize && |block| == p.logsize && block[..i] == buf.words[1..1 + i]
        invariant n == buf.words[0] && cache.Keys <= disk.Keys
        invariant forall b | b in cache :: cache[b] == disk[b]
      {
        block := block[i := buf.words[1 + i]];
        assert block[..i + 1] == block[..i] + [block[i]];
        assert buf.words[1..2 + i] == buf.words[1..1 + i] + [buf.words[1 + i]];
        i := i + 1;
      }
    }

    /** The common tail of `recover_from_log` and `commit`: install, set `lh.n` to 0, write it. */
    method InstallAndClear()
      requires Valid() && Logged() == Decode(disk[p.start])
      modifies `disk, `cache, `dirty, `trace, `n
      ensures Valid() && n == 0 && dirty == old(dirty) - Elems(old(Logged()))
      ensures disk == Recover(p, old(disk)) && trace == old(trace) + RecoverWrites(p, old(disk))
    {
      ghost var d, lh := disk, Logged();
      InstallPrefix(p, d, |lh|);
      assert RecoverWrites(p, d)[..|lh|] == Installs(p, lh, d);
      assert RecoverWrites(p, d) == Installs(p, lh, d) + [Write(p.start, Encode(d[p.start], []))];
      RecoverSplit(p, d);
      hide RecoverWrites, Installs, Apply, Recover, Encode;
      InstallTrans();
      n := 0;
      WriteHead();
    }

    /** The disk ends up recovered, by exactly the writes of `RecoverWrites`. */
    method RecoverFromLog()
      requires Valid() && dirty == {}
      modifies `disk, `cache, `dirty, `trace, `n, `block
      ensures Valid() && n == 0 && dirty == {}
      ensures disk == Recover(p, old(disk)) && trace == old(trace) + RecoverWrites(p, old(disk))
    {
      ReadHead();
      InstallAndClear();
    }

    /** The log and then the header that names it: the transaction is committed. */
    method WriteCommit()
      requires Valid() && Loggable(p, disk, Logged())
      modifies `disk, `cache, `dirty, `trace
      ensures Valid() && dirty == old(dirty)
      ensures disk == Apply(old(disk), old(CommitPoint(p, disk, Logged(), View(disk, cache))))
      ensures trace == old(trace) + old(CommitPoint(p, disk, Logged(), View(disk, cache)))
    {
      ghost var lh, view, d := Logged(), View(disk, cache), disk;
      CommitPointSteps(p, d, lh, view);
      assert CommitPoint(p, d, lh, view)
          == LogWrites(p, lh, view) + [Write(p.start, Encode(d[p.start], lh))];
      hide CommitPoint, LogWrites, Apply, Encode;
      WriteLog();
      WriteHead();
    }

    /** The transaction reaches its home blocks and leaves the log empty; the disk writes are the
    ones `CommitCrashAtomic` cuts at every point. */
    method Commit()
      requires Valid() && Loggable(p, disk, Logged())
      modifies `disk, `cache, `dirty, `trace, `n
      ensures Valid() && n == 0 && dirty == old(dirty) - Elems(old(Logged()))
      ensures disk == Apply(old(disk), old(CommitWrites(p, disk, Logged(), View(disk, cache))))
      ensures trace == old(trace) + old(CommitWrites(p, disk, Logged(), View(disk, cache)))
    {
      if n > 0 {
        ghost var lh, view, d := Logged(), View(disk, cache), disk;
        ghost var cp := CommitPoint(p, d, lh, view);
        CommitIsRecovery(p, d, lh, view);
        ghost var rest := RecoverWrites(p, Apply(d, cp));
        ApplyConcat(d, cp, rest);
        assert trace + cp + rest == trace + (cp + rest);
        hide CommitWrites, CommitPoint, RecoverWrites, Apply, Encode, Decode;
        WriteCommit();
        InstallAndClear();
      }
    }

    /** One pass of the loop in `begin_op`: admit the operation, or go back to sleep. */
    method BeginOp() returns (admitted: bool)
      modifies `outstanding
      ensures admitted == Admits(p, n, old(outstanding), committing)
      ensures outstanding == if admitted then old(outstanding) + 1 else old(outstanding)
    {
      if committing {
        admitted := false;
      } else if n + (outstanding + 1) * p.maxop > p.logsize {
        admitted := false;
      } else {
        outstanding := outstanding + 1;
        admitted := true;
      }
    }

    /** The tests of `log_write`, made before it takes the lock; `ok` is false on a panic. */
    method LogTest() returns (ok: bool)
      ensures ok == (Fits(p, n) && outstanding >= 1)
    {
      if n >= p.logsize || n >= p.size - 1 {
        return false;
      }
      return outstanding >= 1;
    }

    /** The locked part of `log_write`, with the caller's new contents of block `b`: the block is
    recorded once and pinned. By now the header may be fuller than the test found it. */
    method LogAppend(b: nat, data: Block)
      requires Valid() && b in disk && p.Home(b) && (b in Logged() || n < p.logsize)
      modifies `cache, `dirty, `n, `block
      ensures Valid() && Logged() == Absorb(old(Logged()), b)
      ensures dirty == old(dirty) + {b} && cache == old(cache)[b := data]
    {
      cache := cache[b := data];
      dirty := dirty + {b};
      ghost var lh := block[..n];
      var i := 0;
      while i < n && block[i] != b
        invariant i <= n && b !in block[..i]
      {
        i := i + 1;
      }
      assert i == n ==> b !in lh;
      block := block[i := b];
      if i == n {
        n := n + 1;
        assert block[..n] == lh + [b];
      } else {
        assert b in lh && block[..n] == lh;
      }
    }

    /** `log_write` with nobody in between; `ok` is false on a panic. */
    method LogWrite(b: nat, data: Block) returns (ok: bool)
      requires Valid() && b in disk && p.Home(b)
      modifies `cache, `dirty, `n, `block
      ensures Valid() && ok == (Fits(p, old(n)) && outstanding >= 1)
      ensures !ok ==> n == old(n) && block == old(block) && cache == old(cache) && dirty == old(dirty)
      ensures ok ==> Logged() == Absorb(old(Logged()), b)
      ensures ok ==> dirty == old(dirty) + {b} && cache == old(cache)[b := data]
    {
      ok := LogTest();
      if ok {
        LogAppend(b, data);
      }
    }

    /** The last operation out commits on behalf of all; `ok` is false on a panic. */
    method EndOp() returns (ok: bool)
      requires Valid() && Loggable(p, disk, Logged()) && Distinct(Logged())
      requires Decode(disk[p.start]) == [] && outstanding >= 1
      modifies `disk, `cache, `dirty, `trace, `n, `outstanding, `committing
      ensures Valid() && ok == !old(committing) && outstanding == old(outstanding) - 1
      ensures committing == old(committing)
      ensures ok && outstanding == 0 ==>
                && n == 0 && dirty == old(dirty) - Elems(old(Logged()))
                && disk == Apply(old(disk), old(CommitWrites(p, disk, Logged(), View(disk, cache))))
                && trace == old(trace) + old(CommitWrites(p, disk, Logged(), View(disk, cache)))
      ensures !ok || outstanding > 0 ==>
                n == old(n) && disk == old(disk) && dirty == old(dirty) && trace == old(trace)
    {
      outstanding := outstanding - 1;
      if committing {
        return false;
      }
      if outstanding == 0 {
        committing := true;
        Commit();
        committing := false;
      }
      ok := true;
    }
  }
}
