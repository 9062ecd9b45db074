/**
 The regular expression matcher of grep.c (chapter 9 of The Practice of Programming), proved
 against what its patterns mean: a text matches when some stretch of it can be cut into
 pieces, one for each item of the pattern.

 Strings are sequences of characters without the terminating NUL.
 */
module Grep {

  // What a pattern means.

  datatype Item = One(c: char) | Star(c: char)

  /** The items of a pattern, and whether it ends in `$`. */
  datatype Pattern = Pattern(items: seq<Item>, toEnd: bool)

  function Read(re: string): Pattern
    decreases |re|
  {
    if re == "" then Pattern([], false)
    else if |re| >= 2 && re[1] == '*' then
      var r := Read(re[2..]);
      Pattern([Star(re[0])] + r.items, r.toEnd)
    else if re == "$" then Pattern([], true)
    else
      var r := Read(re[1..]);
      Pattern([One(re[0])] + r.items, r.toEnd)
  }

  predicate Fits(c: char, x: char) { c == '.' || c == x }

  predicate PieceFits(item: Item, piece: string) {
    match item
    case One(c) => |piece| == 1 && Fits(c, piece[0])
    case Star(c) => forall i :: 0 <= i < |piece| ==> Fits(c, piece[i])
  }

  function Concat(pieces: seq<string>): string {
    if pieces == [] then "" else pieces[0] + Concat(pieces[1..])
  }

  /** `w` can be cut into pieces that fit the items one by one. */
  ghost predicate InLanguage(items: seq<Item>, w: string) {
    exists pieces :: CutsInto(items, w, pieces)
  }

  ghost predicate CutsInto(items: seq<Item>, w: string, pieces: seq<string>) {
    && |pieces| == |items| && Concat(pieces) == w
    && forall i :: 0 <= i < |items| ==> PieceFits(items[i], pieces[i])
  }

  /** Some prefix of `text`, or all of it if the pattern ends in `$`, is in the language. */
  ghost predicate PrefixIn(p: Pattern, text: string) {
    exists n :: 0 <= n <= |text| && InLanguage(p.items, text[..n]) && (p.toEnd ==> n == |text|)
  }

  ghost predicate MatchesHere(re: string, text: string) { PrefixIn(Read(re), text) }

  /** What grep promises: a match at the start for `^`, and anywhere otherwise. */
  ghost predicate Matches(re: string, text: string) {
    if re != "" && re[0] == '^' then MatchesHere(re[1..], text)
    else exists k :: 0 <= k <= |text| && MatchesHere(re, text[k..])
  }

  // How the meaning unfolds.

  lemma NoItems(w: string)
    ensures InLanguage([], w) <==> w == ""
  {
    assert w == "" ==> CutsInto([], w, []);
  }

  /** The first piece is a prefix; the rest is in the language of the rest. */
  lemma FirstPiece(item: Item, items: seq<Item>, w: string)
    ensures InLanguage([item] + items, w)
            <==> exists k :: 0 <= k <= |w| && PieceFits(item, w[..k]) && InLanguage(items, w[k..])
  {
    var all := [item] + items;
    if InLanguage(all, w) {
      var pieces :| CutsInto(all, w, pieces);
      var k := |pieces[0]|;
      assert w[..k] == pieces[0] && w[k..] == Concat(pieces[1..]);
      assert PieceFits(all[0], pieces[0]);
      assert forall i :: 0 <= i < |items| ==> items[i] == all[i + 1];
      assert CutsInto(items, w[k..], pieces[1..]);
    }
    if exists k :: 0 <= k <= |w| && PieceFits(item, w[..k]) && InLanguage(items, w[k..]) {
      var k :| 0 <= k <= |w| && PieceFits(item, w[..k]) && InLanguage(items, w[k..]);
      var rest :| CutsInto(items, w[k..], rest);
      var pieces := [w[..k]] + rest;
      assert pieces[1..] == rest && w == w[..k] + w[k..];
      assert CutsInto(all, w, pieces);
    }
  }

  lemma EmptyPattern(text: string)
    ensures MatchesHere("", text)
  {
    NoItems("");
    assert text[..0] == "";
  }

  lemma EndPattern(text: string)
    ensures MatchesHere("$", text) <==> text == ""
  {
    NoItems(text);
    assert text[..|text|] == text;
  }

  /** An ordinary character first. */
  /** A pattern whose first item is `item`: a prefix fits it and the rest goes on from there. */
  lemma ItemThen(item: Item, rest: Pattern, text: string)
    ensures PrefixIn(Pattern([item] + rest.items, rest.toEnd), text)
            <==> exists k :: 0 <= k <= |text| && PieceFits(item, text[..k]) && PrefixIn(rest, text[k..])
  {
    hide InLanguage, PieceFits;
    if PrefixIn(Pattern([item] + rest.items, rest.toEnd), text) {
      var n :| 0 <= n <= |text| && InLanguage([item] + rest.items, text[..n]) && (rest.toEnd ==> n == |text|);
      ItemFirst(item, rest, text, n);
    }
    if k :| 0 <= k <= |text| && PieceFits(item, text[..k]) && PrefixIn(rest, text[k..]) {
      ItemNext(item, rest, text, k);
    }
  }

  lemma ItemFirst(item: Item, rest: Pattern, text: string, n: int)
    requires 0 <= n <= |text| && InLanguage([item] + rest.items, text[..n]) && (rest.toEnd ==> n == |text|)
    ensures exists k :: 0 <= k <= |text| && PieceFits(item, text[..k]) && PrefixIn(rest, text[k..])
  {
    hide InLanguage, PieceFits;
    FirstPiece(item, rest.items, text[..n]);
    var k :| 0 <= k <= n && PieceFits(item, text[..n][..k]) && InLanguage(rest.items, text[..n][k..]);
    assert text[..n][..k] == text[..k] && text[..n][k..] == text[k..][..n - k];
    assert PrefixIn(rest, text[k..]);
  }

  lemma ItemNext(item: Item, rest: Pattern, text: string, k: int)
    requires 0 <= k <= |text| && PieceFits(item, text[..k]) && PrefixIn(rest, text[k..])
    ensures PrefixIn(Pattern([item] + rest.items, rest.toEnd), text)
  {
    hide InLanguage, PieceFits;
    var m :| 0 <= m <= |text[k..]| && InLanguage(rest.items, text[k..][..m]) && (rest.toEnd ==> m == |text[k..]|);
    var w := text[..k + m];
    assert w[..k] == text[..k] && w[k..] == text[k..][..m];
    FirstPiece(item, rest.items, w);
    assert InLanguage([item] + rest.items, text[..k + m]);
  }

  lemma OnePattern(re: string, text: string)
    requires re != "" && !(|re| >= 2 && re[1] == '*') && re != "$"
    ensures MatchesHere(re, text) <==> text != "" && Fits(re[0], text[0]) && MatchesHere(re[1..], text[1..])
  {
    hide PrefixIn;
    ItemThen(One(re[0]), Read(re[1..]), text);
    assert text != "" ==> text[..1] == [text[0]];
  }

  /** `text[..k]` can be taken by a starred `c`. */
  predicate Run(c: char, text: string, k: nat)
    requires k <= |text|
  {
    forall i :: 0 <= i < k ==> Fits(c, text[i])
  }

  /** `c*` followed by `re`: some run of `c`, then the rest. */
  ghost predicate StarThen(c: char, re: string, text: string) {
    exists k: nat :: k <= |text| && Run(c, text, k) && MatchesHere(re, text[k..])
  }

  lemma StarPattern(re: string, text: string)
    requires |re| >= 2 && re[1] == '*'
    ensures MatchesHere(re, text) <==> StarThen(re[0], re[2..], text)
  {
    hide PrefixIn;
    ItemThen(Star(re[0]), Read(re[2..]), text);
    forall k: nat | k <= |text| ensures PieceFits(Star(re[0]), text[..k]) <==> Run(re[0], text, k) {
      assert forall i :: 0 <= i < k ==> text[..k][i] == text[i];
    }
  }

  // The code.

  method Match(re: string, text: string) returns (found: bool)
    ensures found <==> Matches(re, text)
  {
    hide MatchesHere;
    if re != "" && re[0] == '^' {
      found := MatchHere(re[1..], text);
      return;
    }
    var k := 0;
    while true
      invariant 0 <= k <= |text|
      invariant forall j :: 0 <= j < k ==> !MatchesHere(re, text[j..])
      decreases |text| - k
    {
      found := MatchHere(re, text[k..]);
      if found {
        return;
      }
      if k == |text| {
        return;
      }
      k := k + 1;
    }
  }

  method MatchHere(re: string, text: string) returns (found: bool)
    ensures found <==> MatchesHere(re, text)
    decreases |re|, 0
  {
    hide MatchesHere;
    if re == "" {
      EmptyPattern(text);
      return true;
    }
    if |re| >= 2 && re[1] == '*' {
      StarPattern(re, text);
      found := MatchStar(re[0], re[2..], text);
      return;
    }
    if re[0] == '$' && |re| == 1 {
      assert re == "$";
      EndPattern(text);
      return text == "";
    }
    OnePattern(re, text);
    if text != "" && (re[0] == '.' || re[0] == text[0]) {
      found := MatchHere(re[1..], text[1..]);
      return;
    }
    return false;
  }

  method MatchStar(c: char, re: string, text: string) returns (found: bool)
    ensures found <==> StarThen(c, re, text)
    decreases |re|, 1
  {
    hide MatchesHere;
    var k := 0;
    while true
      invariant 0 <= k <= |text| && Run(c, text, k)
      invariant forall j :: 0 <= j < k ==> !MatchesHere(re, text[j..])
      decreases |text| - k
    {
      found := MatchHere(re, text[k..]);
      if found {
        return;
      }
      if k == |text| || !(text[k] == c || c == '.') {
        assert forall j: nat :: k < j <= |text| ==> !Run(c, text, j);
        return;
      }
      k := k + 1;
    }
  }
}
