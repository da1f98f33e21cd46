/** The crash-safe redo log of `log.c`: the in-memory header, the disk writes of a commit and of
recovery, and what recovery makes of a disk on which only some of those writes arrived. */
module Log {
  import opened Disk

  /** `log.start`, `log.size`, LOGSIZE and MAXOPBLOCKS. */
  datatype Params = Params(start: nat, size: nat, logsize: nat, maxop: nat) {
    /** `initlog` refuses a header that does not leave room in its block. */
    predicate Valid() {
      size >= 1 && logsize + 1 < WORDS
    }

    predicate Home(b: nat) {
      !(start <= b < start + size)
    }

    function Slot(i: nat): nat {
      start + 1 + i
    }
  }

  // ---------- the header block ----------

  predicate IsHeader(h: Block) {
    |h.words| == WORDS && h.words[0] < WORDS
  }

  function Encode(was: Block, lh: seq<nat>): (h: Block)
    requires |lh| < WORDS == |was.words|
    ensures IsHeader(h) && Decode(h) == lh
  {
    Block([|lh|] + lh + was.words[1 + |lh|..])
  }

  function Decode(h: Block): seq<nat>
    requires IsHeader(h)
  {
    h.words[1..1 + h.words[0]]
  }

  predicate Distinct(s: seq<nat>) {
    forall i, j | 0 <= i < j < |s| :: s[i] != s[j]
  }

  /** Block numbers the log may hold: distinct home blocks of the disk, few enough for the area. */
  predicate Loggable(p: Params, d: Image, lh: seq<nat>) {
    && |lh| <= p.logsize && |lh| <= p.size - 1
    && Covers(d, lh) && (forall i | 0 <= i < |lh| :: p.Home(lh[i]))
  }

  predicate WellFormed(p: Params, d: Image) {
    && p.Valid()
    && (forall b | p.start <= b < p.start + p.size :: b in d)
    && IsHeader(d[p.start])
    && Loggable(p, d, Decode(d[p.start]))
  }

  // ---------- the writes of a commit and of a recovery ----------

  function LogWrites(p: Params, lh: seq<nat>, view: Image): (ws: seq<Write>)
    requires Covers(view, lh)
    ensures |ws| == |lh|
  {
    seq(|lh|, i requires 0 <= i < |lh| => Write(p.Slot(i), view[lh[i]]))
  }

  function Installs(p: Params, lh: seq<nat>, d: Image): (ws: seq<Write>)
    requires |lh| <= p.size - 1
    requires forall b | p.start <= b < p.start + p.size :: b in d
    ensures |ws| == |lh|
  {
    seq(|lh|, i requires 0 <= i < |lh| => Write(lh[i], d[p.Slot(i)]))
  }

  /** `recover_from_log`: install whatever the header names, then clear the header. */
  function RecoverWrites(p: Params, d: Image): seq<Write>
    requires WellFormed(p, d)
  {
    Installs(p, Decode(d[p.start]), d) + [Write(p.start, Encode(d[p.start], []))]
  }

  function Recover(p: Params, d: Image): Image
    requires WellFormed(p, d)
  {
    Apply(d, RecoverWrites(p, d))
  }

  /** The writes up to and including the header write that commits. */
  function CommitPoint(p: Params, d: Image, lh: seq<nat>, view: Image): seq<Write>
    requires WellFormed(p, d) && |lh| < WORDS
    requires Covers(view, lh)
  {
    LogWrites(p, lh, view) + [Write(p.start, Encode(d[p.start], lh))]
  }

  /** `commit`: log, header, home blocks, cleared header; nothing at all for an empty log. */
  function CommitWrites(p: Params, d: Image, lh: seq<nat>, view: Image): seq<Write>
    requires WellFormed(p, d) && |lh| < WORDS
    requires Covers(view, lh)
  {
    if lh == [] then [] else
    CommitPoint(p, d, lh, view)
    + seq(|lh|, i requires 0 <= i < |lh| => Write(lh[i], view[lh[i]]))
    + [Write(p.start, Encode(Encode(d[p.start], lh), []))]
  }

  // ---------- recovery ----------

  lemma InstallPrefix(p: Params, d: Image, k: nat)
    requires WellFormed(p, d) && k <= |Decode(d[p.start])|
    ensures var d' := Apply(d, RecoverWrites(p, d)[..k]);
            && d'.Keys == d.Keys
            && (forall b | p.start <= b < p.start + p.size :: d'[b] == d[b])
            && (forall b | b in d && b !in Elems(Decode(d[p.start])) :: d'[b] == d[b])
  {
    var ws := RecoverWrites(p, d)[..k];
    ApplyFrame(d, ws);
    forall b | b in Targets(ws) ensures b in Elems(Decode(d[p.start])) {
      var i :| 0 <= i < |ws| && ws[i].at == b;
      assert b == Decode(d[p.start])[i];
    }
  }

  lemma RecoverSplit(p: Params, d: Image)
    requires WellFormed(p, d)
    ensures var ins := Installs(p, Decode(d[p.start]), d);
            Recover(p, d) == Apply(d, ins)[p.start := Encode(d[p.start], [])]
  {
    var ins := Installs(p, Decode(d[p.start]), d);
    ApplyConcat(d, ins, [Write(p.start, Encode(d[p.start], []))]);
    ApplyOne(Apply(d, ins), Write(p.start, Encode(d[p.start], [])));
  }

  /** A recovered disk has an empty log, keeps unlogged blocks, and recovering it again is a no-op. */
  lemma RecoverResult(p: Params, d: Image)
    requires WellFormed(p, d)
    ensures var r := Recover(p, d);
            && r.Keys == d.Keys && r[p.start] == Encode(d[p.start], [])
            && WellFormed(p, r) && Decode(r[p.start]) == []
            && (forall b | b in d && b != p.start && b !in Elems(Decode(d[p.start])) :: r[b] == d[b])
            && Recover(p, r) == r
  {
    var lh := Decode(d[p.start]);
    RecoverSplit(p, d);
    InstallPrefix(p, d, |lh|);
    assert RecoverWrites(p, d)[..|lh|] == Installs(p, lh, d);
    var r := Recover(p, d);
    RecoverSplit(p, r);
    assert Installs(p, [], r) == [];
    assert Encode(r[p.start], []) == r[p.start];
    assert r[p.start := r[p.start]] == r;
  }

  /** A crash anywhere inside recovery leaves a disk that recovers to the same disk. */
  lemma RecoverAfterPartial(p: Params, d: Image, k: nat)
    requires WellFormed(p, d) && k <= |RecoverWrites(p, d)|
    ensures var d' := Apply(d, RecoverWrites(p, d)[..k]);
            WellFormed(p, d') && Recover(p, d') == Recover(p, d)
  {
    var ws := RecoverWrites(p, d);
    var lh := Decode(d[p.start]);
    RecoverResult(p, d);
    if k == |ws| {
      assert ws[..k] == ws;
    } else {
      InstallPrefix(p, d, k);
      var d' := Apply(d, ws[..k]);
      assert RecoverWrites(p, d') == ws;
      forall b | b in Targets(ws) ensures b in d {
        var i :| 0 <= i < |ws| && ws[i].at == b;
        if i < |lh| { assert b == lh[i]; }
      }
      ApplyPrefixAgain(d, ws, k);
    }
  }

  /** The disk after recoveries that crashed after `cuts[0]`, `cuts[1]`, ... disk writes. */
  ghost function CrashedRecoveries(p: Params, d: Image, cuts: seq<nat>): (r: Image)
    requires WellFormed(p, d)
    ensures WellFormed(p, r)
    decreases |cuts|
  {
    if cuts == [] then d else
    var ws := RecoverWrites(p, d);
    var k := if cuts[0] <= |ws| then cuts[0] else |ws|;
    RecoverAfterPartial(p, d, k);
    CrashedRecoveries(p, Apply(d, ws[..k]), cuts[1..])
  }

  /** Any number of crashes inside recovery, then one complete run: the disk of a single
  uninterrupted recovery, with an empty header. */
  lemma {:induction false} RecoverySurvivesCrashes(p: Params, d: Image, cuts: seq<nat>)
    requires WellFormed(p, d)
    ensures Recover(p, CrashedRecoveries(p, d, cuts)) == Recover(p, d)
    ensures var r := Recover(p, d); p.start in r && IsHeader(r[p.start]) && Decode(r[p.start]) == []
    decreases |cuts|
  {
    RecoverResult(p, d);
    if cuts != [] {
      var ws := RecoverWrites(p, d);
      var k := if cuts[0] <= |ws| then cuts[0] else |ws|;
      RecoverAfterPartial(p, d, k);
      RecoverySurvivesCrashes(p, Apply(d, ws[..k]), cuts[1..]);
    }
  }

  // ---------- crash atomicity of one commit ----------

  lemma LogPrefix(p: Params, d: Image, lh: seq<nat>, view: Image, k: nat)
    requires WellFormed(p, d) && Loggable(p, d, lh)
    requires Covers(view, lh)
    requires k <= |lh|
    ensures var d' := Apply(d, LogWrites(p, lh, view)[..k]);
            && d'.Keys == d.Keys && d'[p.start] == d[p.start]
            && (forall b | b in d && p.Home(b) :: d'[b] == d[b])
            && (forall i | 0 <= i < k :: d'[p.Slot(i)] == view[lh[i]])
  {
    var ws := LogWrites(p, lh, view)[..k];
    ApplyFrame(d, ws);
    forall b | b in Targets(ws) ensures p.start < b < p.start + p.size {
      var i :| 0 <= i < |ws| && ws[i].at == b;
    }
    forall i | 0 <= i < k ensures Apply(d, ws)[p.Slot(i)] == view[lh[i]] {
      ApplyDistinct(d, ws, i);
    }
  }

  lemma CommitPointSteps(p: Params, d: Image, lh: seq<nat>, view: Image)
    requires WellFormed(p, d) && Loggable(p, d, lh)
    requires Covers(view, lh)
    ensures var d0 := Apply(d, LogWrites(p, lh, view));
            && d0.Keys == d.Keys && d0[p.start] == d[p.start]
            && (forall b | b in d && p.Home(b) :: d0[b] == d[b])
            && Apply(d, CommitPoint(p, d, lh, view)) == d0[p.start := Encode(d[p.start], lh)]
  {
    var lw := LogWrites(p, lh, view);
    var h := Write(p.start, Encode(d[p.start], lh));
    LogPrefix(p, d, lh, view, |lh|);
    assert lw[..|lh|] == lw;
    ApplyConcat(d, lw, [h]);
    ApplyOne(Apply(d, lw), h);
  }

  /** After the header write, what is left of `commit` is exactly a recovery. */
  lemma CommitIsRecovery(p: Params, d: Image, lh: seq<nat>, view: Image)
    requires WellFormed(p, d) && Loggable(p, d, lh) && lh != []
    requires Covers(view, lh)
    ensures var d1 := Apply(d, CommitPoint(p, d, lh, view));
            && WellFormed(p, d1) && d1.Keys == d.Keys && Decode(d1[p.start]) == lh
            && (forall b | b in d && p.Home(b) :: d1[b] == d[b])
            && CommitWrites(p, d, lh, view) == CommitPoint(p, d, lh, view) + RecoverWrites(p, d1)
            && Installs(p, lh, d1)
               == seq(|lh|, i requires 0 <= i < |lh| => Write(lh[i], view[lh[i]]))
  {
    var lw := LogWrites(p, lh, view);
    CommitPointSteps(p, d, lh, view);
    LogPrefix(p, d, lh, view, |lh|);
    assert lw[..|lh|] == lw;
    var d1 := Apply(d, CommitPoint(p, d, lh, view));
    assert Decode(d1[p.start]) == lh;
    assert Installs(p, lh, d1)
        == seq(|lh|, i requires 0 <= i < |lh| => Write(lh[i], view[lh[i]]));
  }

  /** Recovery right after the commit point installs every logged block and nothing else. */
  lemma RecoverInstalls(p: Params, d: Image, lh: seq<nat>, view: Image)
    requires WellFormed(p, d) && Loggable(p, d, lh) && lh != [] && Distinct(lh)
    requires Covers(view, lh)
    requires var d1 := Apply(d, CommitPoint(p, d, lh, view)); WellFormed(p, d1)
    ensures var r := Recover(p, Apply(d, CommitPoint(p, d, lh, view)));
            && r.Keys == d.Keys
            && (forall b | b in d && p.Home(b) :: r[b] == if b in Elems(lh) then view[b] else d[b])
  {
    var d1 := Apply(d, CommitPoint(p, d, lh, view));
    CommitIsRecovery(p, d, lh, view);
    RecoverSplit(p, d1);
    RecoverResult(p, d1);
    var ins := Installs(p, lh, d1);
    forall b | b in Elems(lh) ensures Recover(p, d1)[b] == view[b] {
      var i :| 0 <= i < |lh| && lh[i] == b;
      ApplyDistinct(d1, ins, i);
    }
  }

  /** Crash atomicity: whatever prefix of the commit's writes reached the disk, recovery shows
  every home block at its old contents (header not yet written) or every logged block at its new
  contents and all others unchanged (header written), never a mix. */
  lemma CommitCrashAtomic(p: Params, d: Image, lh: seq<nat>, view: Image, k: nat)
    requires WellFormed(p, d) && Decode(d[p.start]) == []
    requires Loggable(p, d, lh) && Distinct(lh)
    requires Covers(view, lh)
    requires k <= |CommitWrites(p, d, lh, view)|
    ensures var d' := Apply(d, CommitWrites(p, d, lh, view)[..k]);
            && WellFormed(p, d') && Recover(p, d').Keys == d.Keys
            && (forall b | b in d && p.Home(b) ::
                  Recover(p, d')[b] == if k > |lh| && b in Elems(lh) then view[b] else d[b])
  {
    var ws := CommitWrites(p, d, lh, view);
    var d' := Apply(d, ws[..k]);
    if k <= |lh| {
      var lw := LogWrites(p, lh, view);
      assert ws[..k] == lw[..k];
      LogPrefix(p, d, lh, view, k);
      RecoverResult(p, d');
    } else {
      var cp := CommitPoint(p, d, lh, view);
      var d1 := Apply(d, cp);
      CommitIsRecovery(p, d, lh, view);
      var j := k - |cp|;
      assert ws[..k] == cp + RecoverWrites(p, d1)[..j];
      ApplyConcat(d, cp, RecoverWrites(p, d1)[..j]);
      RecoverAfterPartial(p, d1, j);
      RecoverInstalls(p, d, lh, view);
    }
  }

  /** A commit that runs to its end leaves an empty log and all logged blocks at home. */
  lemma CommitComplete(p: Params, d: Image, lh: seq<nat>, view: Image)
    requires WellFormed(p, d) && Decode(d[p.start]) == []
    requires Loggable(p, d, lh) && Distinct(lh)
    requires Covers(view, lh)
    ensures var d' := Apply(d, CommitWrites(p, d, lh, view));
            && WellFormed(p, d') && d'.Keys == d.Keys && Decode(d'[p.start]) == []
            && (forall b | b in d && p.Home(b) :: d'[b] == if b in Elems(lh) then view[b] else d[b])
  {
    if lh != [] {
      var cp := CommitPoint(p, d, lh, view);
      var d1 := Apply(d, cp);
      CommitIsRecovery(p, d, lh, view);
      ApplyConcat(d, cp, RecoverWrites(p, d1));
      RecoverResult(p, d1);
      RecoverInstalls(p, d, lh, view);
    }
  }
}
