/**
 The doubly linked ring of bio.c: `next` and `prev` indexed by buffer, with HEAD standing for
 bcache.head, and the order of buffers they spell, most recently released first.
 */
module BufferRing {

  const NBUF := 30
  const HEAD := NBUF

  /** Entry `j` of the ring; HEAD lies at both ends. */
  function Nth(order: seq<int>, j: int): int {
    if 0 <= j < |order| then order[j] else HEAD
  }

  /** Each buffer once. */
  ghost predicate Distinct(order: seq<int>) {
    && (forall i :: 0 <= i < |order| ==> 0 <= order[i] < NBUF)
    && (forall i, j :: 0 <= i < j < |order| ==> order[i] != order[j])
  }

  ghost predicate Joined(next: seq<int>, prev: seq<int>, order: seq<int>, j: int)
    requires |next| == |prev| == NBUF + 1 && Distinct(order)
  {
    next[Nth(order, j)] == Nth(order, j + 1) && prev[Nth(order, j + 1)] == Nth(order, j)
  }

  ghost predicate Ring(next: seq<int>, prev: seq<int>, order: seq<int>) {
    && |next| == |prev| == NBUF + 1 && Distinct(order)
    && forall j :: -1 <= j < |order| ==> Joined(next, prev, order, j)
  }

  /** The order after entry `i` has moved to the front. */
  function ToFront(order: seq<int>, i: nat): (r: seq<int>)
    requires i < |order|
    ensures |r| == |order|
    ensures forall j :: 0 <= j < |r| ==> r[j] == if j == 0 then order[i] else if j <= i then order[j - 1] else order[j]
  {
    [order[i]] + order[..i] + order[i + 1..]
  }

  lemma ToFrontDistinct(order: seq<int>, i: nat)
    requires Distinct(order) && i < |order|
    ensures Distinct(ToFront(order, i))
  {
    var r := ToFront(order, i);
    forall a, b | 0 <= a < b < |r| ensures r[a] != r[b] {
      var a', b' := if a == 0 then i else if a <= i then a - 1 else a, if b <= i then b - 1 else b;
      assert r[a] == order[a'] && r[b] == order[b'] && a' != b';
    }
  }

  /** brelse's six stores: unlink `b`, then link it in after HEAD. */
  ghost predicate Relinked(next: seq<int>, prev: seq<int>, b: int, next': seq<int>, prev': seq<int>)
    requires |next| == |prev| == NBUF + 1 && 0 <= b < NBUF
    requires forall k :: 0 <= k <= NBUF ==> 0 <= next[k] <= NBUF && 0 <= prev[k] <= NBUF
  {
    var prev1 := prev[next[b] := prev[b]];
    var next1 := next[prev1[b] := next[b]];
    var next2 := next1[b := next1[HEAD]];
    var prev2 := prev1[b := HEAD];
    0 <= next2[HEAD] <= NBUF && prev' == prev2[next2[HEAD] := b] && next' == next2[HEAD := b]
  }

  lemma RelinkedRing(next: seq<int>, prev: seq<int>, order: seq<int>, i: nat, next': seq<int>, prev': seq<int>)
    requires Ring(next, prev, order) && |order| == NBUF && i < |order|
    requires forall k :: 0 <= k <= NBUF ==> 0 <= next[k] <= NBUF && 0 <= prev[k] <= NBUF
    requires Relinked(next, prev, order[i], next', prev')
    ensures Ring(next', prev', ToFront(order, i))
  {
    hide ToFront, Joined;
    ToFrontDistinct(order, i);
    var r := ToFront(order, i);
    forall j | -1 <= j < |r| ensures Joined(next', prev', r, j) {
      RelinkedAt(next, prev, order, i, next', prev', j);
    }
  }

  lemma RelinkedAt(next: seq<int>, prev: seq<int>, order: seq<int>, i: nat, next': seq<int>, prev': seq<int>, j: int)
    requires Ring(next, prev, order) && |order| == NBUF && i < |order| && -1 <= j < |order|
    requires forall k :: 0 <= k <= NBUF ==> 0 <= next[k] <= NBUF && 0 <= prev[k] <= NBUF
    requires Relinked(next, prev, order[i], next', prev')
    ensures |next'| == |prev'| == NBUF + 1 && Distinct(ToFront(order, i)) && Joined(next', prev', ToFront(order, i), j)
  {
    hide ToFront;
    ToFrontDistinct(order, i);
    assert Joined(next, prev, order, i - 1) && Joined(next, prev, order, i);
    assert Joined(next, prev, order, -1);
    assert Joined(next, prev, order, j);
    if j > 0 {
      assert Joined(next, prev, order, j - 1);
    }
  }

  /** Every buffer is in the ring. */
  ghost predicate Covers(order: seq<int>) {
    forall b :: 0 <= b < NBUF ==> b in order
  }

  lemma Position(order: seq<int>, b: int) returns (j: int)
    requires Covers(order) && 0 <= b < NBUF
    ensures 0 <= j < |order| && order[j] == b
  {
    assert b in order;
    j :| 0 <= j < |order| && order[j] == b;
  }

  lemma ToFrontCovers(order: seq<int>, i: nat)
    requires Covers(order) && i < |order|
    ensures Covers(ToFront(order, i))
  {
    var r := ToFront(order, i);
    forall b | 0 <= b < NBUF ensures b in r {
      var j := Position(order, b);
      assert r[if j == i then 0 else if j < i then j + 1 else j] == b;
    }
  }

  /** binit's four stores: link `b` in after HEAD. */
  lemma PushedRing(next: seq<int>, prev: seq<int>, order: seq<int>, b: int, next': seq<int>, prev': seq<int>)
    requires Ring(next, prev, order) && 0 <= b < NBUF && b !in order
    requires next' == next[b := Nth(order, 0)][HEAD := b]
    requires prev' == prev[b := HEAD][Nth(order, 0) := b]
    ensures Ring(next', prev', [b] + order)
  {
    var r := [b] + order;
    forall j | -1 <= j <= |order| ensures Nth(r, j + 1) == Nth(order, j) || j == -1 {
    }
    assert Distinct(r);
    assert Joined(next, prev, order, -1);
    forall j | -1 <= j < |r| ensures Joined(next', prev', r, j) {
      if j >= 1 {
        assert Joined(next, prev, order, j - 1);
        assert Nth(r, j) == Nth(order, j - 1) && Nth(r, j + 1) == Nth(order, j);
      }
    }
  }

  /** The releases that filled the ring: later ones stand nearer the front. */
  ghost predicate Aged(order: seq<int>, stamp: seq<int>, clock: int) {
    && Distinct(order) && |stamp| == NBUF
    && (forall i :: 0 <= i < |order| ==> stamp[order[i]] < clock)
    && (forall i, j :: 0 <= i < j < |order| ==> stamp[order[i]] > stamp[order[j]])
  }

  lemma ToFrontAged(order: seq<int>, stamp: seq<int>, clock: int, i: nat)
    requires Aged(order, stamp, clock) && i < |order|
    ensures Aged(ToFront(order, i), stamp[order[i] := clock], clock + 1)
  {
    ToFrontDistinct(order, i);
    var r, stamp' := ToFront(order, i), stamp[order[i] := clock];
    hide ToFront;
    forall a, b | 0 <= a < b < |r| ensures stamp'[r[a]] > stamp'[r[b]] {
      ToFrontPair(order, stamp, clock, i, a, b);
    }
  }

  lemma ToFrontPair(order: seq<int>, stamp: seq<int>, clock: int, i: nat, a: int, b: int)
    requires Aged(order, stamp, clock) && i < |order| && 0 <= a < b < |order|
    ensures var r, stamp' := ToFront(order, i), stamp[order[i] := clock];
            0 <= r[a] < |stamp'| && 0 <= r[b] < |stamp'| && stamp'[r[a]] > stamp'[r[b]]
  {
    var b' := if b <= i then b - 1 else b;
    assert ToFront(order, i)[b] == order[b'] && order[b'] != order[i];
    if a > 0 {
      var a' := if a <= i then a - 1 else a;
      assert ToFront(order, i)[a] == order[a'] && order[a'] != order[i] && a' < b';
    }
  }
}
