/** The pattern matcher of `grep.c` (chapter 9 of The Practice of Programming) and the language its
patterns stand for. C strings are sequences without their final zero. */
module Grep {
  // ---------- the language ----------

  /** `c` itself, any one character, any number of `c` (of anything when `c` is '.'), end of text. */
  datatype Item = Lit(c: char) | Any | Star(c: char) | End

  /** How a pattern reads: a '*' binds to the character before it, whatever that is, '.' stands for
  any character and '$' for the end when it is the whole rest of the pattern. */
  function Items(re: string): seq<Item> {
    if re == "" then []
    else if |re| >= 2 && re[1] == '*' then [Star(re[0])] + Items(re[2..])
    else if re == "$" then [End]
    else [if re[0] == '.' then Any else Lit(re[0])] + Items(re[1..])
  }

  predicate Repeats(c: char, w: string) {
    forall i | 0 <= i < |w| :: c == '.' || w[i] == c
  }

  predicate Fits(it: Item, w: string) {
    match it
    case Lit(c) => w == [c]
    case Any => |w| == 1
    case Star(c) => Repeats(c, w)
    case End => w == ""
  }

  function Concat(ps: seq<string>): string {
    if ps == [] then "" else ps[0] + Concat(ps[1..])
  }

  /** `ps` cuts `w` into one piece for every item. */
  predicate Cuts(items: seq<Item>, ps: seq<string>, w: string) {
    |ps| == |items| && Concat(ps) == w && forall i | 0 <= i < |items| :: Fits(items[i], ps[i])
  }

  ghost predicate InLanguage(items: seq<Item>, w: string) {
    exists ps :: Cuts(items, ps, w)
  }

  predicate Anchored(items: seq<Item>) {
    items != [] && items[|items| - 1].End?
  }

  /** A prefix of `text` is in the language; all of it, when the pattern says so. */
  ghost predicate Begins(items: seq<Item>, text: string) {
    exists k | 0 <= k <= |text| :: InLanguage(items, text[..k]) && (Anchored(items) ==> k == |text|)
  }

  /** What `match` is for: a substring of the text, one at its start for a pattern that begins with
  '^', is in the language of the pattern. */
  ghost predicate Matches(re: string, text: string) {
    if re != "" && re[0] == '^' then Begins(Items(re[1..]), text)
    else exists j | 0 <= j <= |text| :: Begins(Items(re), text[j..])
  }

  // ---------- one item at a time ----------

  lemma EmptyBegins(text: string)
    ensures Begins([], text)
  {
    assert Cuts([], [], text[..0]);
  }

  lemma EndBegins(text: string)
    ensures Begins([End], text) <==> text == ""
  {
    if text == "" {
      assert Concat([""]) == "" + Concat([]);
      assert Cuts([End], [""], text[..0]);
    }
    if k :| 0 <= k <= |text| && InLanguage([End], text[..k]) && k == |text| {
      var ps :| Cuts([End], ps, text[..k]);
      assert Concat(ps) == ps[0] + Concat(ps[1..]) && ps[1..] == [] && Fits([End][0], ps[0]);
    }
  }

  lemma CutsFirst(it: Item, items: seq<Item>, ps: seq<string>, w: string)
    requires Cuts([it] + items, ps, w)
    ensures |ps| >= 1 && |ps[0]| <= |w| && ps[0] == w[..|ps[0]|]
    ensures Fits(it, ps[0]) && Cuts(items, ps[1..], w[|ps[0]|..])
  {
    assert Fits(([it] + items)[0], ps[0]);
    forall i | 0 <= i < |items| ensures Fits(items[i], ps[1..][i]) {
      assert Fits(([it] + items)[i + 1], ps[i + 1]);
    }
  }

  lemma CutsCons(it: Item, items: seq<Item>, p: string, ps: seq<string>, w: string)
    requires Fits(it, p) && Cuts(items, ps, w)
    ensures Cuts([it] + items, [p] + ps, p + w)
  {
    assert ([p] + ps)[1..] == ps;
  }

  /** `text` splits after `k` characters into a piece for `it` and a text that begins with `items`. */
  ghost predicate SplitsAt(it: Item, items: seq<Item>, text: string, k: int) {
    0 <= k <= |text| && Fits(it, text[..k]) && Begins(items, text[k..])
  }

  lemma BeginsSplits(it: Item, items: seq<Item>, text: string) returns (m: nat)
    requires !it.End? && Begins([it] + items, text)
    ensures SplitsAt(it, items, text, m)
  {
    assert Anchored([it] + items) == Anchored(items);
    var k: nat :| k <= |text| && InLanguage([it] + items, text[..k]) && (Anchored([it] + items) ==> k == |text|);
    var ps :| Cuts([it] + items, ps, text[..k]);
    hide Anchored, Concat, Fits;
    CutsFirst(it, items, ps, text[..k]);
    m := |ps[0]|;
    assert text[..k][..m] == text[..m] && text[..k][m..] == text[m..][..k - m];
    assert InLanguage(items, text[m..][..k - m]);
  }

  lemma SplitsBegins(it: Item, items: seq<Item>, text: string, m: nat)
    requires !it.End? && SplitsAt(it, items, text, m)
    ensures Begins([it] + items, text)
  {
    assert Anchored([it] + items) == Anchored(items);
    var rest := text[m..];
    var k: nat :| k <= |rest| && InLanguage(items, rest[..k]) && (Anchored(items) ==> k == |rest|);
    var ps :| Cuts(items, ps, rest[..k]);
    hide Anchored, Concat, Fits;
    CutsCons(it, items, text[..m], ps, rest[..k]);
    assert text[..m] + rest[..k] == text[..m + k];
    assert InLanguage([it] + items, text[..m + k]);
  }

  /** A text begins with a pattern exactly when some prefix fits its first item and the rest of the
  text begins with the rest of the pattern. */
  lemma ConsBegins(it: Item, items: seq<Item>, text: string)
    requires !it.End?
    ensures Begins([it] + items, text) <==> exists k :: SplitsAt(it, items, text, k)
  {
    if Begins([it] + items, text) {
      var m := BeginsSplits(it, items, text);
    }
    if k :| SplitsAt(it, items, text, k) {
      SplitsBegins(it, items, text, k);
    }
  }

  lemma OneBegins(it: Item, items: seq<Item>, text: string)
    requires it.Lit? || it.Any?
    ensures Begins([it] + items, text) <==>
      text != "" && (it.Any? || it.c == text[0]) && Begins(items, text[1..])
  {
    ConsBegins(it, items, text);
    if k :| SplitsAt(it, items, text, k) {
      assert k == 1 && text[..1] == [text[0]];
    }
    if text != "" && (it.Any? || it.c == text[0]) && Begins(items, text[1..]) {
      assert text[..1] == [text[0]];
      assert SplitsAt(it, items, text, 1);
    }
  }

  // ---------- the matcher ----------

  /** `matchhere`: the text begins with the pattern. */
  method MatchHere(re: string, text: string) returns (b: bool)
    ensures b <==> Begins(Items(re), text)
    decreases |re|
  {
    if re == "" {
      EmptyBegins(text);
      return true;
    }
    if |re| >= 2 && re[1] == '*' {
      b := MatchStar(re[0], re[2..], text);
      return;
    }
    if re == "$" {
      EndBegins(text);
      return text == "";
    }
    OneBegins(if re[0] == '.' then Any else Lit(re[0]), Items(re[1..]), text);
    if text != "" && (re[0] == '.' || re[0] == text[0]) {
      b := MatchHere(re[1..], text[1..]);
      return;
    }
    return false;
  }

  /** `matchstar`: the text begins with any number of `c` and then the pattern. The shortest run is
  tried first. */
  method MatchStar(c: char, re: string, text: string) returns (b: bool)
    ensures b <==> Begins([Star(c)] + Items(re), text)
    decreases |re| + 1, 0
  {
    ConsBegins(Star(c), Items(re), text);
    var i := 0;
    while true
      invariant 0 <= i <= |text| && Repeats(c, text[..i])
      invariant forall k | 0 <= k < i :: !Begins(Items(re), text[k..])
      decreases |text| - i
    {
      b := MatchHere(re, text[i..]);
      if b {
        assert SplitsAt(Star(c), Items(re), text, i);
        return;
      }
      if i == |text| || !(text[i] == c || c == '.') {
        assert forall k | i < k <= |text| :: text[..k][i] == text[i];
        return;
      }
      i := i + 1;
    }
  }

  /** `match`: the text, looked at from every position and its end too, matches the pattern. */
  method Match(re: string, text: string) returns (b: bool)
    ensures b <==> Matches(re, text)
  {
    if re != "" && re[0] == '^' {
      b := MatchHere(re[1..], text);
      return;
    }
    var i := 0;
    while true
      invariant 0 <= i <= |text|
      invariant forall j | 0 <= j < i :: !Begins(Items(re), text[j..])
      decreases |text| - i
    {
      b := MatchHere(re, text[i..]);
      if b || i == |text| {
        return;
      }
      i := i + 1;
    }
  }
}
