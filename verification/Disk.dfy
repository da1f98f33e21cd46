/** Disk blocks and synchronous block writes (`buf.h`, `ide.c`).

A block is seen as an array of 32-bit words, the view `log.c` takes of the log header. One
`bwrite` is one atomic disk step, so a crash leaves the effect of a prefix of the writes. */
module Disk {
  import opened Common

  const WORDS: nat := BSIZE / 4

  datatype Block = Block(words: seq<nat>)

  type Image = map<nat, Block>

  datatype Write = Write(at: nat, data: Block)

  /** The disk after `ws`, first write first. */
  function Apply(d: Image, ws: seq<Write>): (r: Image)
    decreases |ws|
  {
    if ws == [] then d else Apply(d[ws[0].at := ws[0].data], ws[1..])
  }

  function Targets(ws: seq<Write>): set<nat> {
    set i | 0 <= i < |ws| :: ws[i].at
  }

  function Elems(s: seq<nat>): set<nat> {
    set i | 0 <= i < |s| :: s[i]
  }

  lemma ElemsNext(s: seq<nat>, k: nat)
    requires k < |s|
    ensures Elems(s[..k + 1]) == Elems(s[..k]) + {s[k]}
  {
    var a, b := s[..k], s[..k + 1];
    forall x | x in Elems(b) ensures x in Elems(a) + {s[k]} {
      var i :| 0 <= i < k + 1 && b[i] == x;
      if i < k { assert a[i] == x; }
    }
    forall x | x in Elems(a) ensures x in Elems(b) {
      var i :| 0 <= i < k && a[i] == x;
      assert b[i] == x;
    }
    assert b[k] == s[k];
  }

  /** Every block of `s` is a block of `d`. */
  predicate Covers(d: Image, s: seq<nat>) {
    forall i | 0 <= i < |s| :: s[i] in d
  }

  lemma {:induction false} ApplyConcat(d: Image, a: seq<Write>, b: seq<Write>)
    ensures Apply(d, a + b) == Apply(Apply(d, a), b)
    decreases |a|
  {
    if a == [] {
      assert a + b == b;
    } else {
      assert (a + b)[1..] == a[1..] + b;
      ApplyConcat(d[a[0].at := a[0].data], a[1..], b);
    }
  }

  lemma ApplyOne(d: Image, w: Write)
    ensures Apply(d, [w]) == d[w.at := w.data]
  {
    assert [w][1..] == [];
  }

  /** The disk and the trace after the first `k` of the writes `ws`. */
  ghost function Progress(d: Image, t: seq<Write>, ws: seq<Write>, k: nat): (Image, seq<Write>)
    requires k <= |ws|
  {
    (Apply(d, ws[..k]), t + ws[..k])
  }

  lemma ProgressStep(d: Image, t: seq<Write>, ws: seq<Write>, k: nat)
    requires k < |ws|
    ensures var (d', t') := Progress(d, t, ws, k);
            Progress(d, t, ws, k + 1) == (d'[ws[k].at := ws[k].data], t' + [ws[k]])
  {
    assert ws[..k + 1] == ws[..k] + [ws[k]];
    assert t + (ws[..k] + [ws[k]]) == t + ws[..k] + [ws[k]];
    ApplyConcat(d, ws[..k], [ws[k]]);
    ApplyOne(Apply(d, ws[..k]), ws[k]);
  }

  lemma ProgressEnds(d: Image, t: seq<Write>, ws: seq<Write>)
    ensures Progress(d, t, ws, 0) == (d, t)
    ensures Progress(d, t, ws, |ws|) == (Apply(d, ws), t + ws)
  {
    assert ws[..|ws|] == ws && t + [] == t;
  }

  /** Blocks that are not written keep their contents. */
  lemma {:induction false} ApplyFrame(d: Image, ws: seq<Write>)
    ensures Apply(d, ws).Keys == d.Keys + Targets(ws)
    ensures forall b | b in d && b !in Targets(ws) :: Apply(d, ws)[b] == d[b]
    decreases |ws|
  {
    if ws != [] {
      var d' := d[ws[0].at := ws[0].data];
      TargetsCons(ws);
      ApplyFrame(d', ws[1..]);
    }
  }

  lemma TargetsCons(ws: seq<Write>)
    requires ws != []
    ensures Targets(ws) == {ws[0].at} + Targets(ws[1..])
  {
    forall b | b in Targets(ws) ensures b in {ws[0].at} + Targets(ws[1..]) {
      var i :| 0 <= i < |ws| && ws[i].at == b;
      if i > 0 { assert ws[1..][i - 1].at == b; }
    }
    forall b | b in Targets(ws[1..]) ensures b in Targets(ws) {
      var i :| 0 <= i < |ws[1..]| && ws[1..][i].at == b;
      assert ws[i + 1].at == b;
    }
  }

  /** Two disks that differ only on blocks about to be overwritten end up equal. */
  lemma {:induction false} ApplyAgree(d: Image, e: Image, ws: seq<Write>)
    requires d.Keys == e.Keys
    requires forall b | b in d && b !in Targets(ws) :: d[b] == e[b]
    ensures Apply(d, ws) == Apply(e, ws)
    decreases |ws|
  {
    if ws == [] {
      assert d == e;
    } else {
      TargetsCons(ws);
      ApplyAgree(d[ws[0].at := ws[0].data], e[ws[0].at := ws[0].data], ws[1..]);
    }
  }

  /** Writing a prefix first changes nothing once the whole list is written again. */
  lemma ApplyPrefixAgain(d: Image, ws: seq<Write>, k: nat)
    requires k <= |ws|
    requires Targets(ws) <= d.Keys
    ensures Apply(Apply(d, ws[..k]), ws) == Apply(d, ws)
  {
    var e := Apply(d, ws[..k]);
    ApplyFrame(d, ws[..k]);
    forall b | b in Targets(ws[..k]) ensures b in Targets(ws) {
      var i :| 0 <= i < k && ws[..k][i].at == b;
      assert ws[i].at == b;
    }
    ApplyAgree(e, d, ws);
  }

  /** With distinct targets every write is visible at the end. */
  lemma {:induction false} ApplyDistinct(d: Image, ws: seq<Write>, i: nat)
    requires forall j, k | 0 <= j < k < |ws| :: ws[j].at != ws[k].at
    requires i < |ws|
    ensures ws[i].at in Apply(d, ws) && Apply(d, ws)[ws[i].at] == ws[i].data
    decreases |ws|
  {
    var d' := d[ws[0].at := ws[0].data];
    if i == 0 {
      ApplyFrame(d', ws[1..]);
    } else {
      ApplyDistinct(d', ws[1..], i - 1);
    }
  }
}
