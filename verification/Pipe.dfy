/** The ring of `pipe.c`: 512 bytes and two 32-bit counters that only ever go up, and wrap. */
module Pipe {
  import opened Common

  const PIPESIZE: nat := 512

  datatype Ring = Ring(data: string, nread: nat, nwrite: nat) {
    predicate Empty() { nread == nwrite }

    predicate Full() { nwrite == (nread + PIPESIZE) % WORD }

    function Put(c: char): Ring
      requires |data| == PIPESIZE
    {
      Ring(data[nwrite % PIPESIZE := c], nread, (nwrite + 1) % WORD)
    }

    function First(): char
      requires |data| == PIPESIZE
    {
      data[nread % PIPESIZE]
    }

    function Skip(): Ring { this.(nread := (nread + 1) % WORD) }
  }

  /** Of the bytes `acc` ever accepted the ring has delivered `del`, a prefix, and holds the rest, at
  most PIPESIZE of them. */
  predicate Carries(r: Ring, acc: string, del: string) {
    && |r.data| == PIPESIZE
    && del <= acc && |acc| <= |del| + PIPESIZE
    && r.nread == |del| % WORD && r.nwrite == |acc| % WORD
    && (forall k: nat | |del| <= k < |acc| :: r.data[k % PIPESIZE] == acc[k])
  }

  /** The position of a byte survives the wrap of its counter, because PIPESIZE divides 2^32. */
  lemma WrapKeepsPlace(x: nat)
    ensures x % WORD % PIPESIZE == x % PIPESIZE
  {
    var q := x / WORD;
    assert WORD == PIPESIZE * 0x80_0000;
    assert x == q * WORD + x % WORD;
    assert x == PIPESIZE * (q * 0x80_0000) + x % WORD;
    ModAdd(x % WORD, q * 0x80_0000);
  }

  lemma {:induction false} ModAdd(x: nat, m: nat)
    ensures (PIPESIZE * m + x) % PIPESIZE == x % PIPESIZE
    decreases m
  {
    if m > 0 {
      ModAdd(x, m - 1);
      assert PIPESIZE * m + x == PIPESIZE * (m - 1) + x + PIPESIZE;
    }
  }

  /** Counters a short way apart are equal exactly when the counts are. */
  lemma CountersTell(x: nat, y: nat)
    requires x <= y < x + WORD
    ensures x % WORD == y % WORD <==> x == y
  {
    assert x % WORD == y % WORD ==> (y - x) % WORD == 0 by {
      if x % WORD == y % WORD {
        assert y - x == (y / WORD - x / WORD) * WORD;
      }
    }
  }

  lemma {:induction false} AddWrap(x: nat, d: nat)
    requires d < WORD
    ensures (x % WORD + d) % WORD == (x + d) % WORD
  {
    var q := x / WORD;
    assert x + d == q * WORD + (x % WORD + d);
    if x % WORD + d < WORD {
      assert (x + d) / WORD == q;
    } else {
      assert (x + d) / WORD == q + 1;
    }
  }

  lemma EmptyIff(r: Ring, acc: string, del: string)
    requires Carries(r, acc, del)
    ensures r.Empty() <==> acc == del
  {
    CountersTell(|del|, |acc|);
  }

  lemma FullIff(r: Ring, acc: string, del: string)
    requires Carries(r, acc, del)
    ensures r.Full() <==> |acc| == |del| + PIPESIZE
  {
    AddWrap(|del|, PIPESIZE);
    CountersTell(|acc|, |del| + PIPESIZE);
  }

  lemma NeverBoth(r: Ring, acc: string, del: string)
    requires Carries(r, acc, del)
    ensures !(r.Empty() && r.Full())
  {
    EmptyIff(r, acc, del);
    FullIff(r, acc, del);
  }

  /** Positions less than PIPESIZE apart are different cells of the ring. */
  lemma CellsApart(x: nat, y: nat)
    requires x < y < x + PIPESIZE
    ensures x % PIPESIZE != y % PIPESIZE
  {
  }

  lemma PutCarries(r: Ring, acc: string, del: string, c: char)
    requires Carries(r, acc, del) && !r.Full()
    ensures Carries(r.Put(c), acc + [c], del)
  {
    FullIff(r, acc, del);
    WrapKeepsPlace(|acc|);
    AddWrap(|acc|, 1);
    forall k: nat | |del| <= k < |acc| ensures r.Put(c).data[k % PIPESIZE] == acc[k] {
      CellsApart(k, |acc|);
    }
  }

  lemma SkipCarries(r: Ring, acc: string, del: string)
    requires Carries(r, acc, del) && !r.Empty()
    ensures Carries(r.Skip(), acc, del + [r.First()])
  {
    EmptyIff(r, acc, del);
    WrapKeepsPlace(|del|);
    AddWrap(|del|, 1);
    assert r.data[|del| % PIPESIZE] == acc[|del|];
  }
}
