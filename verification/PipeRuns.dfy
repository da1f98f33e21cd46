/** Readers, writers and closers of one pipe, interleaved at every point where the code can lose the
processor: taking the lock, each turn of a loop, each wakeup, going to sleep, and letting go. */
module PipeRuns {
  import opened Common
  import opened Pipe

  /** Where a process stands. `i` counts the bytes of `buf` already in the pipe, `from` those that
  were in when the lock was last taken; `got` is what a read has copied out. */
  datatype Pc =
    | Idle
    | WAcquire(buf: string, i: nat)
    | WTest(buf: string, i: nat, from: nat)
    | WWake(buf: string, i: nat)
    | WSleep(buf: string, i: nat)
    | WAsleep(buf: string, i: nat)
    | WDone(buf: string)
    | RAcquire(n: nat)
    | RTest(n: nat)
    | RSleep(n: nat)
    | RAsleep(n: nat)
    | RCopy(n: nat, got: string)
    | RDone(got: string)
    | CAcquire(w: bool)
    | CWake(w: bool)
    | Release

  predicate InWrite(c: Pc) {
    c.WAcquire? || c.WTest? || c.WWake? || c.WSleep? || c.WAsleep? || c.WDone?
  }

  predicate InRead(c: Pc) {
    c.RAcquire? || c.RTest? || c.RSleep? || c.RAsleep? || c.RCopy? || c.RDone?
  }

  /** The process holds the pipe's lock. */
  predicate Holds(c: Pc) {
    !(c.Idle? || c.WAcquire? || c.WAsleep? || c.RAcquire? || c.RAsleep? || c.CAcquire?)
  }

  /** What the lock protects. `acc` and `del` are all the bytes accepted and delivered so far; `wref`
  and `rref` say whether any descriptor still refers to the end in question. */
  datatype Shared = Shared(
    ring: Ring, acc: string, del: string,
    readopen: bool, writeopen: bool, rref: bool, wref: bool, lock: Option<nat>)

  datatype State = State(sh: Shared, pcs: map<nat, Pc>, killed: set<nat>)

  function At(pcs: map<nat, Pc>, p: nat): Pc {
    if p in pcs then pcs[p] else Idle
  }

  function Boot(data: string): State {
    State(Shared(Ring(data, 0, 0), "", "", true, true, true, true, None), map[], {})
  }

  // ---------- steps ----------

  /** The channels `&p->nread`, where readers sleep, and `&p->nwrite`, where writers do. */
  datatype Chan = NoChan | NRead | NWrite

  /** A sleeper on `ch` becomes runnable and will take the lock again. */
  function Woken(c: Pc, ch: Chan): Pc {
    if c.RAsleep? && ch.NRead? then RAcquire(c.n)
    else if c.WAsleep? && ch.NWrite? then WAcquire(c.buf, c.i)
    else c
  }

  function Wakeup(pcs: map<nat, Pc>, ch: Chan): map<nat, Pc> {
    map p | p in pcs :: Woken(pcs[p], ch)
  }

  /** One step of one process: the shared state and its own place after it, and whom it woke. */
  datatype Move = Move(sh: Shared, pc: Pc, wake: Chan)

  function Stay(sh: Shared, c: Pc): Option<Move> {
    Some(Move(sh, c, NoChan))
  }

  function Take(sh: Shared, p: nat, c: Pc): Option<Move> {
    if sh.lock.None? then Stay(sh.(lock := Some(p)), c) else None
  }

  function ActWrite(sh: Shared, p: nat, killed: bool, c: Pc): Option<Move>
    requires |sh.ring.data| == PIPESIZE && InWrite(c)
  {
    match c
    case WAcquire(buf, i) => Take(sh, p, WTest(buf, i, i))
    case WTest(buf, i, from) =>
      if i >= |buf| then Stay(sh, WDone(buf))
      else if sh.ring.Full() then
        if !sh.readopen || killed then Stay(sh, Release) else Stay(sh, WWake(buf, i))
      else Stay(sh.(ring := sh.ring.Put(buf[i]), acc := sh.acc + [buf[i]]), WTest(buf, i + 1, from))
    case WWake(buf, i) => Some(Move(sh, WSleep(buf, i), NRead))
    case WSleep(buf, i) => Stay(sh.(lock := None), WAsleep(buf, i))
    case WAsleep(_, _) => None
    case WDone(_) => Some(Move(sh, Release, NRead))
  }

  function ActRead(sh: Shared, p: nat, killed: bool, c: Pc): Option<Move>
    requires |sh.ring.data| == PIPESIZE && InRead(c)
  {
    match c
    case RAcquire(n) => Take(sh, p, RTest(n))
    case RTest(n) =>
      if sh.ring.Empty() && sh.writeopen then
        if killed then Stay(sh, Release) else Stay(sh, RSleep(n))
      else Stay(sh, RCopy(n, ""))
    case RSleep(n) => Stay(sh.(lock := None), RAsleep(n))
    case RAsleep(_) => None
    case RCopy(n, got) =>
      if |got| >= n || sh.ring.Empty() then Stay(sh, RDone(got))
      else
        var x := sh.ring.First();
        Stay(sh.(ring := sh.ring.Skip(), del := sh.del + [x]), RCopy(n, got + [x]))
    case RDone(_) => Some(Move(sh, Release, NWrite))
  }

  function ActClose(sh: Shared, p: nat, c: Pc): Option<Move> {
    match c
    case CAcquire(w) =>
      Take(if w then sh.(writeopen := false) else sh.(readopen := false), p, CWake(w))
    case CWake(w) => Some(Move(sh, Release, if w then NRead else NWrite))
    case Release => Stay(sh.(lock := None), Idle)
    case _ => None
  }

  /** A sleeping or idle process, or one that finds the lock taken, does not move. */
  function Act(sh: Shared, p: nat, killed: bool, c: Pc): Option<Move>
    requires |sh.ring.data| == PIPESIZE
  {
    if InWrite(c) then ActWrite(sh, p, killed, c)
    else if InRead(c) then ActRead(sh, p, killed, c)
    else ActClose(sh, p, c)
  }

  datatype Event =
    | Write(p: nat, buf: string)
    | Read(p: nat, n: nat)
    | Close(p: nat, w: bool)
    | Run(p: nat)
    | Kill(p: nat)

  /** A call starts: it needs a descriptor for its end, and the last descriptor of an end is closed
  only when no call is using it. */
  function Start(s: State, e: Event): Option<Move>
    requires e.Write? || e.Read? || e.Close?
  {
    if !At(s.pcs, e.p).Idle? then None else
    match e
    case Write(_, buf) => if s.sh.wref then Stay(s.sh, WAcquire(buf, 0)) else None
    case Read(_, n) => if s.sh.rref then Stay(s.sh, RAcquire(n)) else None
    case Close(_, w) =>
      if w then
        if s.sh.wref && forall q | q in s.pcs :: !InWrite(s.pcs[q]) then
          Stay(s.sh.(wref := false), CAcquire(w))
        else None
      else if s.sh.rref && forall q | q in s.pcs :: !InRead(s.pcs[q]) then
        Stay(s.sh.(rref := false), CAcquire(w))
      else None
  }

  function Moved(s: State, p: nat, m: Option<Move>): Option<State> {
    match m
    case None => None
    case Some(m) => Some(State(m.sh, Wakeup(s.pcs, m.wake)[p := m.pc], s.killed))
  }

  function Step(s: State, e: Event): Option<State>
    requires |s.sh.ring.data| == PIPESIZE
  {
    match e
    case Run(p) => Moved(s, p, Act(s.sh, p, p in s.killed, At(s.pcs, p)))
    case Kill(p) =>
      Some(State(s.sh, s.pcs[p := Woken(Woken(At(s.pcs, p), NRead), NWrite)], s.killed + {p}))
    case _ => Moved(s, e.p, Start(s, e))
  }

  // ---------- what every step keeps ----------

  predicate Ends(s: string, t: string) {
    |t| <= |s| && s[|s| - |t|..] == t
  }

  /** What a process in the middle of a call knows. */
  predicate Knows(sh: Shared, c: Pc) {
    match c
    case WAcquire(buf, i) => i <= |buf|
    case WTest(buf, i, from) => from <= i <= |buf| && Ends(sh.acc, buf[from..i])
    case WWake(buf, i) => i < |buf| && sh.ring.Full() && sh.readopen
    case WSleep(buf, i) => i < |buf| && sh.ring.Full() && sh.readopen
    case WAsleep(buf, i) => i < |buf|
    case RSleep(n) => sh.ring.Empty() && sh.writeopen
    case RCopy(n, got) => |got| <= n && Ends(sh.del, got)
    case RDone(got) => Ends(sh.del, got)
    case _ => true
  }

  predicate Local(sh: Shared, p: nat, c: Pc) {
    && (Holds(c) ==> sh.lock == Some(p))
    && (InWrite(c) ==> sh.wref) && (InRead(c) ==> sh.rref)
    && (c.CAcquire? ==> !(if c.w then sh.wref else sh.rref))
    && Knows(sh, c)
  }

  predicate Sound(sh: Shared) {
    && Carries(sh.ring, sh.acc, sh.del)
    && (sh.wref ==> sh.writeopen) && (sh.rref ==> sh.readopen)
  }

  predicate Inv(s: State) {
    && Sound(s.sh)
    && (s.sh.lock.Some? ==> s.sh.lock.value in s.pcs && Holds(s.pcs[s.sh.lock.value]))
    && (forall p | p in s.pcs :: Local(s.sh, p, s.pcs[p]))
  }

  lemma BootInv(data: string)
    requires |data| == PIPESIZE
    ensures Inv(Boot(data))
  {
  }

  /** A move of `p` that keeps the shared state sound and its own knowledge true. */
  predicate Fine(sh: Shared, p: nat, m: Move) {
    && Sound(m.sh) && Local(m.sh, p, m.pc) && (sh.lock.None? || sh.lock == Some(p))
    && m.sh.lock == (if Holds(m.pc) then Some(p) else None)
    && m.sh.wref == sh.wref && m.sh.rref == sh.rref
  }

  lemma PutFine(sh: Shared, p: nat, killed: bool, c: Pc)
    requires Sound(sh) && Local(sh, p, c) && c.WTest? && c.i < |c.buf| && !sh.ring.Full()
    ensures Fine(sh, p, ActWrite(sh, p, killed, c).value)
  {
    PutCarries(sh.ring, sh.acc, sh.del, c.buf[c.i]);
    assert c.buf[c.from..c.i + 1] == c.buf[c.from..c.i] + [c.buf[c.i]];
    hide Carries, Ring.Full, Ring.Put;
  }

  lemma WriteFine(sh: Shared, p: nat, killed: bool, c: Pc)
    requires Sound(sh) && Local(sh, p, c) && InWrite(c) && ActWrite(sh, p, killed, c).Some?
    ensures Fine(sh, p, ActWrite(sh, p, killed, c).value)
  {
    if c.WTest? && c.i < |c.buf| && !sh.ring.Full() {
      PutFine(sh, p, killed, c);
    } else {
      assert c.WAcquire? ==> Ends(sh.acc, c.buf[c.i..c.i]);
      hide Carries, Ring.Full, Ends;
    }
  }

  lemma SkipFine(sh: Shared, p: nat, killed: bool, c: Pc)
    requires Sound(sh) && Local(sh, p, c) && c.RCopy? && |c.got| < c.n && !sh.ring.Empty()
    ensures Fine(sh, p, ActRead(sh, p, killed, c).value)
  {
    SkipCarries(sh.ring, sh.acc, sh.del);
    hide Carries, Ring.Empty, Ring.First, Ring.Skip;
  }

  lemma ReadFine(sh: Shared, p: nat, killed: bool, c: Pc)
    requires Sound(sh) && Local(sh, p, c) && InRead(c) && ActRead(sh, p, killed, c).Some?
    ensures Fine(sh, p, ActRead(sh, p, killed, c).value)
  {
    if c.RCopy? && |c.got| < c.n && !sh.ring.Empty() {
      SkipFine(sh, p, killed, c);
    } else {
      assert Ends(sh.del, "");
      hide Carries, Ring.Empty, Ends;
    }
  }

  lemma CloseFine(sh: Shared, p: nat, c: Pc)
    requires Sound(sh) && Local(sh, p, c) && ActClose(sh, p, c).Some?
    ensures Fine(sh, p, ActClose(sh, p, c).value)
  {
    hide Carries;
  }

  lemma ActFine(sh: Shared, p: nat, killed: bool, c: Pc)
    requires Sound(sh) && Local(sh, p, c) && Act(sh, p, killed, c).Some?
    ensures Fine(sh, p, Act(sh, p, killed, c).value)
  {
    if InWrite(c) {
      WriteFine(sh, p, killed, c);
    } else if InRead(c) {
      ReadFine(sh, p, killed, c);
    } else {
      CloseFine(sh, p, c);
    }
  }

  /** Whoever does not hold the lock is not affected by what the holder does. */
  lemma OtherLocal(sh: Shared, sh2: Shared, p: nat, q: nat, c: Pc, ch: Chan)
    requires Local(sh, q, c) && q != p && (sh.lock.None? || sh.lock == Some(p))
    requires sh2.wref == sh.wref && sh2.rref == sh.rref
    ensures Local(sh2, q, Woken(c, ch))
  {
  }

  lemma RunInv(s: State, p: nat)
    requires Inv(s) && Step(s, Run(p)).Some?
    ensures Inv(Step(s, Run(p)).value)
  {
    var t, k := Step(s, Run(p)).value, p in s.killed;
    var m := Act(s.sh, p, k, s.pcs[p]).value;
    assert Local(s.sh, p, s.pcs[p]);
    hide Local, Sound, Act, Holds;
    ActFine(s.sh, p, k, s.pcs[p]);
    forall q | q in t.pcs ensures Local(t.sh, q, t.pcs[q]) {
      if q != p {
        OtherLocal(s.sh, t.sh, p, q, s.pcs[q], m.wake);
      }
    }
  }

  lemma KillInv(s: State, p: nat)
    requires Inv(s)
    ensures Inv(Step(s, Kill(p)).value)
  {
    var t := Step(s, Kill(p)).value;
    hide Sound, Ends;
    forall q | q in t.pcs ensures Local(t.sh, q, t.pcs[q]) {
      if q in s.pcs {
        assert Local(s.sh, q, s.pcs[q]);
      }
    }
  }

  lemma StartInv(s: State, e: Event)
    requires Inv(s) && (e.Write? || e.Read? || e.Close?) && Step(s, e).Some?
    ensures Inv(Step(s, e).value)
  {
    var t := Step(s, e).value;
    hide Carries, Ends;
    forall q | q in t.pcs ensures Local(t.sh, q, t.pcs[q]) {
      if q in s.pcs {
        assert Local(s.sh, q, s.pcs[q]);
      }
    }
  }

  lemma StepInv(s: State, e: Event)
    requires Inv(s) && Step(s, e).Some?
    ensures Inv(Step(s, e).value)
  {
    match e
    case Run(p) => RunInv(s, p);
    case Kill(p) => KillInv(s, p);
    case _ => StartInv(s, e);
  }
}
