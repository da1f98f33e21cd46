/** What `pipewrite` and `piperead` do to the buffer and the counters while they hold the lock. */
module PipeCode {
  import opened Common
  import opened Pipe
  import L = PipeLocks
  import R = PipeRuns

  /** The ring after putting in the bytes of `s`, first to last, as the machine's steps do. */
  function Puts(r: Ring, s: string): (t: Ring)
    requires |r.data| == PIPESIZE
    ensures |t.data| == PIPESIZE
    decreases |s|
  {
    if s == "" then r else Puts(r, s[..|s| - 1]).Put(s[|s| - 1])
  }

  /** The ring after taking out `n` bytes. */
  function Skips(r: Ring, n: nat): (t: Ring)
    ensures t.data == r.data
    decreases n
  {
    if n == 0 then r else Skips(r, n - 1).Skip()
  }

  // ---------- turns of the machine ----------

  /** `p` takes `n` steps in a row, all of them while it holds the lock. */
  function Acts(sh: R.Shared, p: nat, killed: bool, c: R.Pc, n: nat): Option<R.Move>
    requires |sh.ring.data| == PIPESIZE
    decreases n
  {
    if n == 0 then R.Stay(sh, c) else
    match Acts(sh, p, killed, c, n - 1)
    case None => None
    case Some(m) => if |m.sh.ring.data| == PIPESIZE then R.Act(m.sh, p, killed, m.pc) else None
  }

  lemma WriteAct(sh: R.Shared, p: nat, killed: bool, buf: string, i: nat, from: nat)
    requires Carries(sh.ring, sh.acc, sh.del) && i < |buf| && |sh.acc| < |sh.del| + PIPESIZE
    ensures var ring := sh.ring.Put(buf[i]);
      && Carries(ring, sh.acc + [buf[i]], sh.del)
      && R.Act(sh, p, killed, R.WTest(buf, i, from))
         == R.Stay(sh.(ring := ring, acc := sh.acc + [buf[i]]), R.WTest(buf, i + 1, from))
  {
    FullIff(sh.ring, sh.acc, sh.del);
    PutCarries(sh.ring, sh.acc, sh.del, buf[i]);
  }

  lemma ReadAct(sh: R.Shared, p: nat, killed: bool, n: nat, got: string)
    requires Carries(sh.ring, sh.acc, sh.del) && |got| < n && |sh.del| < |sh.acc|
    ensures var x := sh.acc[|sh.del|];
      && Carries(sh.ring.Skip(), sh.acc, sh.del + [x])
      && R.Act(sh, p, killed, R.RCopy(n, got))
         == R.Stay(sh.(ring := sh.ring.Skip(), del := sh.del + [x]), R.RCopy(n, got + [x]))
  {
    EmptyIff(sh.ring, sh.acc, sh.del);
    SkipCarries(sh.ring, sh.acc, sh.del);
  }

  lemma ActsNext(sh: R.Shared, p: nat, killed: bool, c: R.Pc, n: nat, m: R.Move)
    requires |sh.ring.data| == |m.sh.ring.data| == PIPESIZE && Acts(sh, p, killed, c, n) == Some(m)
    ensures Acts(sh, p, killed, c, n + 1) == R.Act(m.sh, p, killed, m.pc)
  {
  }

  /** The shared state once the bytes `s` are in, and once they are out. */
  function Filled(sh: R.Shared, s: string): R.Shared
    requires |sh.ring.data| == PIPESIZE
  {
    sh.(ring := Puts(sh.ring, s), acc := sh.acc + s)
  }

  function Drained(sh: R.Shared, s: string): R.Shared {
    sh.(ring := Skips(sh.ring, |s|), del := sh.del + s)
  }

  lemma FilledNext(sh: R.Shared, s: string, c: char)
    requires |sh.ring.data| == PIPESIZE
    ensures Filled(sh, s).acc == sh.acc + s && Filled(sh, s).del == sh.del
    ensures |Filled(sh, s).ring.data| == PIPESIZE && sh.acc + (s + [c]) == sh.acc + s + [c]
    ensures Filled(sh, s + [c]) == Filled(sh, s).(ring := Filled(sh, s).ring.Put(c), acc := Filled(sh, s).acc + [c])
  {
    assert (s + [c])[..|s|] == s;
    assert sh.acc + (s + [c]) == sh.acc + s + [c];
  }

  lemma DrainedNext(sh: R.Shared, s: string, c: char)
    ensures Drained(sh, s).acc == sh.acc && Drained(sh, s).del == sh.del + s
    ensures |Drained(sh, s).ring.data| == |sh.ring.data| && sh.del + (s + [c]) == sh.del + s + [c]
    ensures Drained(sh, s + [c]) == Drained(sh, s).(ring := Drained(sh, s).ring.Skip(), del := Drained(sh, s).del + [c])
  {
    assert sh.del + (s + [c]) == sh.del + s + [c];
  }

  /** `PutSome` does what the machine's writer does between taking the lock and finding the pipe full
  or its buffer empty. */
  lemma {:induction false} WriteTurn(sh: R.Shared, p: nat, killed: bool, buf: string, i: nat, s: string, from: nat)
    requires Carries(sh.ring, sh.acc, sh.del) && i + |s| <= |buf| && buf[i..i + |s|] == s
    requires |sh.acc| + |s| <= |sh.del| + PIPESIZE
    ensures Carries(Filled(sh, s).ring, sh.acc + s, sh.del)
    ensures Acts(sh, p, killed, R.WTest(buf, i, from), |s|) == R.Stay(Filled(sh, s), R.WTest(buf, i + |s|, from))
    decreases |s|
  {
    if s == "" {
      assert sh.acc + s == sh.acc;
    } else {
      var t, c := s[..|s| - 1], s[|s| - 1];
      assert s == t + [c] && buf[i..i + |t|] == t && buf[i + |t|] == c;
      FilledNext(sh, t, c);
      hide Carries, R.Act, Acts, Puts, Filled;
      WriteTurn(sh, p, killed, buf, i, t, from);
      var sh1 := Filled(sh, t);
      WriteAct(sh1, p, killed, buf, i + |t|, from);
      ActsNext(sh, p, killed, R.WTest(buf, i, from), |t|, R.Move(sh1, R.WTest(buf, i + |t|, from), R.NoChan));
    }
  }

  /** `GetSome` does what the machine's reader does while it copies. */
  lemma {:induction false} ReadTurn(sh: R.Shared, p: nat, killed: bool, n: nat, s: string)
    requires Carries(sh.ring, sh.acc, sh.del) && |s| <= n
    requires |sh.del| + |s| <= |sh.acc| && sh.acc[|sh.del|..|sh.del| + |s|] == s
    ensures Carries(Drained(sh, s).ring, sh.acc, sh.del + s)
    ensures Acts(sh, p, killed, R.RCopy(n, ""), |s|) == R.Stay(Drained(sh, s), R.RCopy(n, s))
    decreases |s|
  {
    if s == "" {
      assert sh.del + s == sh.del;
    } else {
      var t, c := s[..|s| - 1], s[|s| - 1];
      assert s == t + [c] && sh.acc[|sh.del|..|sh.del| + |t|] == t && sh.acc[|sh.del| + |t|] == c;
      DrainedNext(sh, t, c);
      hide Carries, R.Act, Acts, Skips, Drained;
      ReadTurn(sh, p, killed, n, t);
      var sh1 := Drained(sh, t);
      ReadAct(sh1, p, killed, n, t);
      ActsNext(sh, p, killed, R.RCopy(n, ""), |t|, R.Move(sh1, R.RCopy(n, t), R.NoChan));
    }
  }

  // ---------- the process table ----------

  datatype Entry = Entry(pid: nat, status: L.Status, killed: bool)

  function Statuses(es: seq<Entry>): seq<L.Status> {
    seq(|es|, i requires 0 <= i < |es| => es[i].status)
  }

  function WokenEntry(e: Entry, ch: R.Chan): Entry {
    if e.status == L.Sleeping(ch) then e.(status := L.Runnable) else e
  }

  /** The table when the slots below `i` have been looked at. */
  function WokenUpTo(es: seq<Entry>, ch: R.Chan, i: nat): seq<Entry> {
    seq(|es|, j requires 0 <= j < |es| => if j < i then WokenEntry(es[j], ch) else es[j])
  }

  /** `p` takes `k` steps in a row in the machine with both locks. */
  function RunSteps(s: L.System, p: nat, k: nat): Option<L.System>
    requires |s.sh.ring.data| == PIPESIZE
    decreases k
  {
    if k == 0 then Some(s) else
    match RunSteps(s, p, k - 1)
    case None => None
    case Some(t) => if |t.sh.ring.data| == PIPESIZE && p < |t.table| then L.RunStep(t, p) else None
  }

  lemma ScanRuns(s: L.System, p: nat, k: nat, t: L.System, c: R.Pc, ch: R.Chan)
    requires |s.sh.ring.data| == PIPESIZE && RunSteps(s, p, k) == Some(t)
    requires |t.sh.ring.data| == PIPESIZE && p < |t.table| && L.PlaceOf(t, p) == L.Scan(c, ch, k)
    ensures var u := L.Scanned(t, p, c, ch, k);
      && RunSteps(s, p, k + 1) == Some(u) && u.sh == t.sh && |u.table| == |t.table|
      && L.PlaceOf(u, p) == if k < |t.table| then L.Scan(c, ch, k + 1) else L.Plain(c)
  {
  }

  lemma TableNext(es: seq<Entry>, ch: R.Chan, k: nat)
    requires k < |es|
    ensures var t := Statuses(WokenUpTo(es, ch, k));
      |t| == |es| && Statuses(WokenUpTo(es, ch, k + 1)) == if t[k] == L.Sleeping(ch) then t[k := L.Runnable] else t
  {
  }

  /** The loop of `wakeup1` is the scan of the machine, slot by slot. */
  lemma {:induction false} ScanIsLoop(s: L.System, p: nat, c: R.Pc, ch: R.Chan, es: seq<Entry>, k: nat)
    returns (t: L.System)
    requires |s.sh.ring.data| == PIPESIZE && p < |s.table| && Statuses(es) == s.table && k <= |es|
    requires L.PlaceOf(s, p) == L.Scan(c, ch, 0)
    ensures RunSteps(s, p, k) == Some(t) && t.sh == s.sh && |t.table| == |es|
    ensures t.table == Statuses(WokenUpTo(es, ch, k)) && L.PlaceOf(t, p) == L.Scan(c, ch, k)
    decreases k
  {
    if k == 0 {
      t := s;
      assert WokenUpTo(es, ch, 0) == es;
    } else {
      var u := ScanIsLoop(s, p, c, ch, es, k - 1);
      ScanRuns(s, p, k - 1, u, c, ch);
      t := L.Scanned(u, p, c, ch, k - 1);
      TableNext(es, ch, k - 1);
      hide RunSteps, L.PlaceOf, Statuses, WokenUpTo;
    }
  }

  class ProcTable {
    const procs: array<Entry>

    constructor (pids: seq<nat>)
      ensures procs.Length == |pids| && fresh(procs)
      ensures forall i | 0 <= i < |pids| :: procs[i] == Entry(pids[i], L.Runnable, false)
    {
      procs := new Entry[|pids|](i requires 0 <= i < |pids| => Entry(pids[i], L.Runnable, false));
    }

    /** `wakeup1`: every sleeper on `chan`, and nobody else, becomes runnable. */
    method Wakeup1(chan: R.Chan)
      modifies procs
      ensures procs[..] == WokenUpTo(old(procs[..]), chan, procs.Length)
    {
      var i := 0;
      while i < procs.Length
        invariant 0 <= i <= procs.Length && procs[..] == WokenUpTo(old(procs[..]), chan, i)
      {
        if procs[i].status == L.Sleeping(chan) {
          procs[i] := procs[i].(status := L.Runnable);
        }
        i := i + 1;
      }
    }

    /** The assignments of `sleep` under the table's lock: one step of the machine. */
    method MarkSleeping(p: nat, chan: R.Chan, ghost s: L.System, ghost c: R.Pc)
      requires |s.sh.ring.data| == PIPESIZE && Statuses(procs[..]) == s.table && p < procs.Length
      requires L.PlaceOf(s, p) == L.Released(c) && chan == L.ChanOf(c)
      modifies procs
      ensures L.RunStep(s, p).Some? && Statuses(procs[..]) == L.RunStep(s, p).value.table
      ensures forall i | 0 <= i < procs.Length && i != p :: procs[i] == old(procs[i])
    {
      procs[p] := procs[p].(status := L.Sleeping(chan));
      assert Statuses(procs[..]) == s.table[p := L.Sleeping(chan)];
    }

    /** `kill`: the first process with that number is marked, and made runnable if it sleeps; -1 when
    there is none. */
    method Kill(pid: nat) returns (r: int, ghost k: nat)
      modifies procs
      ensures k <= procs.Length && forall i | 0 <= i < k :: old(procs[i].pid) != pid
      ensures r == if k < procs.Length then 0 else -1
      ensures k < procs.Length ==>
        && old(procs[k].pid) == pid && procs[k] == Entry(pid, L.Runnable, true)
        && Statuses(procs[..]) == old(Statuses(procs[..]))[k := L.Runnable]
      ensures forall i | 0 <= i < procs.Length && i != k :: procs[i] == old(procs[i])
    {
      var p := 0;
      while p < procs.Length
        invariant 0 <= p <= procs.Length && procs[..] == old(procs[..])
        invariant forall i | 0 <= i < p :: procs[i].pid != pid
      {
        if procs[p].pid == pid {
          k := p;
          procs[p] := procs[p].(killed := true);
          if procs[p].status.Sleeping? {
            procs[p] := procs[p].(status := L.Runnable);
          }
          assert Statuses(procs[..]) == old(Statuses(procs[..]))[k := L.Runnable];
          return 0, k;
        }
        p := p + 1;
      }
      r, k := -1, procs.Length;
    }
  }

  class PipeBuffer {
    const data: array<char>
    var nread: nat
    var nwrite: nat
    ghost var acc: string
    ghost var del: string

    ghost function Ring(): Ring
      reads this, data
    {
      Pipe.Ring(data[..], nread, nwrite)
    }

    ghost predicate Valid()
      reads this, data
    {
      data.Length == PIPESIZE && Carries(Ring(), acc, del)
    }

    constructor ()
      ensures Valid() && acc == del == "" && nread == nwrite == 0 && fresh(data)
    {
      data := new char[PIPESIZE];
      nread, nwrite, acc, del := 0, 0, "", "";
    }

    method PutByte(c: char)
      requires Valid() && !Ring().Full()
      modifies this`nwrite, this`acc, data
      ensures Valid() && Ring() == old(Ring()).Put(c) && acc == old(acc) + [c]
    {
      PutCarries(Ring(), acc, del, c);
      data[nwrite % PIPESIZE] := c;
      nwrite := (nwrite + 1) % WORD;
      acc := acc + [c];
    }

    /** One turn at the lock of `pipewrite`: bytes go in, in order, until the pipe is full or all of
    them are in. */
    method PutSome(addr: string, i0: nat) returns (i: nat)
      requires Valid() && i0 <= |addr|
      modifies this`nwrite, this`acc, data
      ensures Valid() && i0 <= i <= |addr| && (i == |addr| || Ring().Full())
      ensures acc == old(acc) + addr[i0..i] && Ring() == Puts(old(Ring()), addr[i0..i])
      ensures i == |addr| || |acc| == |del| + PIPESIZE
    {
      i := i0;
      while i < |addr|
        invariant Valid() && i0 <= i <= |addr|
        invariant acc == old(acc) + addr[i0..i] && Ring() == Puts(old(Ring()), addr[i0..i])
      {
        FullIff(Ring(), acc, del);
        if nwrite == (nread + PIPESIZE) % WORD {
          return;
        }
        assert addr[i0..i + 1] == addr[i0..i] + [addr[i]];
        PutByte(addr[i]);
        i := i + 1;
      }
    }

    method GetByte() returns (c: char)
      requires Valid() && !Ring().Empty()
      modifies this`nread, this`del
      ensures Valid() && Ring() == old(Ring()).Skip() && c == old(Ring()).First() && del == old(del) + [c]
    {
      SkipCarries(Ring(), acc, del);
      c := data[nread % PIPESIZE];
      nread := (nread + 1) % WORD;
      del := del + [c];
    }

    /** The copying loop of `piperead`: as many bytes as are there and wanted, oldest first. */
    method GetSome(n: nat) returns (r: string)
      requires Valid()
      modifies this`nread, this`del
      ensures Valid() && del == old(del) + r
      ensures |r| == if |acc| - |old(del)| < n then |acc| - |old(del)| else n
      ensures r == acc[|old(del)|..|old(del)| + |r|] && Ring() == Skips(old(Ring()), |r|)
    {
      r := "";
      while |r| < n
        invariant Valid() && del == old(del) + r && |r| <= n && Ring() == Skips(old(Ring()), |r|)
      {
        EmptyIff(Ring(), acc, del);
        if nread == nwrite {
          break;
        }
        var c := GetByte();
        r := r + [c];
      }
      assert del <= acc;
    }
  }
}
