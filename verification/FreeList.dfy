/**
 The free list of the user-level allocator, as a value.

 Addresses count header-sized units, as the C pointer arithmetic on `Header*` does.
 A free list is the sequence of its blocks from `base` upwards; the ring in memory
 goes through them in this order and then back to `base`.
 */
module FreeList {

  datatype Block = Block(a: int, n: nat)

  ghost predicate InBlock(b: Block, x: int) { b.a <= x < b.a + b.n }

  /** Unit `x` belongs to some block of `bs`. */
  ghost predicate InFree(bs: seq<Block>, x: int) {
    exists i :: 0 <= i < |bs| && InBlock(bs[i], x)
  }

  /** Blocks lie in address order and no two of them touch. */
  ghost predicate Spread(bs: seq<Block>) {
    forall i, j :: 0 <= i < j < |bs| ==> bs[i].a + bs[i].n < bs[j].a
  }

  /** `base` first, with no units of its own; every other block has at least one. */
  ghost predicate Rooted(bs: seq<Block>, base: int) {
    && 0 < |bs|
    && bs[0] == Block(base, 0)
    && forall i :: 1 <= i < |bs| ==> 1 <= bs[i].n
  }

  ghost predicate IsFreeList(bs: seq<Block>, base: int) {
    Rooted(bs, base) && Spread(bs)
  }

  /** `b` fits into the gap that follows block `t`. */
  ghost predicate FitsAfter(bs: seq<Block>, t: int, b: Block) {
    && 0 <= t < |bs|
    && 1 <= b.n
    && bs[t].a + bs[t].n <= b.a
    && bs[t].a < b.a
    && (t + 1 < |bs| ==> b.a + b.n <= bs[t + 1].a)
  }

  ghost predicate JoinsLeft(bs: seq<Block>, t: int, b: Block)
    requires 0 <= t < |bs|
  {
    bs[t].a + bs[t].n == b.a
  }

  ghost predicate JoinsRight(bs: seq<Block>, t: int, b: Block)
    requires 0 <= t < |bs|
  {
    t + 1 < |bs| && b.a + b.n == bs[t + 1].a
  }

  /** The block that `b` becomes once it has swallowed the neighbours it touches. */
  ghost function Merged(bs: seq<Block>, t: int, b: Block): Block
    requires FitsAfter(bs, t, b)
  {
    var left := if JoinsLeft(bs, t, b) then bs[t].n else 0;
    var right := if JoinsRight(bs, t, b) then bs[t + 1].n else 0;
    Block(b.a - left, left + b.n + right)
  }

  /** The free list with `b` put back after block `t`, coalesced on both sides. */
  ghost function Insert(bs: seq<Block>, t: int, b: Block): seq<Block>
    requires FitsAfter(bs, t, b)
  {
    bs[..if JoinsLeft(bs, t, b) then t else t + 1]
    + [Merged(bs, t, b)]
    + bs[if JoinsRight(bs, t, b) then t + 2 else t + 1..]
  }

  /** The same list said element by element: block `i` of `r` and where it comes from. */
  ghost predicate Inserted(bs: seq<Block>, t: int, b: Block, r: seq<Block>)
    requires FitsAfter(bs, t, b)
  {
    var k := if JoinsLeft(bs, t, b) then t else t + 1;
    var d := (if JoinsLeft(bs, t, b) then 1 else 0) + (if JoinsRight(bs, t, b) then 1 else 0) - 1;
    && |r| == |bs| - d
    && k < |r|
    && (forall i {:trigger r[i]} :: 0 <= i < k ==> r[i] == bs[i])
    && r[k] == Merged(bs, t, b)
    && (forall i {:trigger r[i]} :: k < i < |r| ==> r[i] == bs[i + d])
  }

  lemma InsertInserts(bs: seq<Block>, t: int, b: Block)
    requires FitsAfter(bs, t, b)
    ensures Inserted(bs, t, b, Insert(bs, t, b))
  {
  }

  lemma InsertHas(bs: seq<Block>, t: int, b: Block)
    requires FitsAfter(bs, t, b)
    ensures exists k :: 0 <= k < |Insert(bs, t, b)| && b.n <= Insert(bs, t, b)[k].n
  {
    InsertInserts(bs, t, b);
    assert b.n <= Merged(bs, t, b).n;
  }

  lemma InsertIsFreeList(bs: seq<Block>, base: int, t: int, b: Block, r: seq<Block>)
    requires IsFreeList(bs, base) && FitsAfter(bs, t, b) && Inserted(bs, t, b, r)
    ensures IsFreeList(r, base)
  {
    forall i, j | 0 <= i < j < |r| ensures r[i].a + r[i].n < r[j].a {
      InsertedSpread(bs, base, t, b, r, i, j);
    }
  }

  lemma InsertedSpread(bs: seq<Block>, base: int, t: int, b: Block, r: seq<Block>, i: int, j: int)
    requires IsFreeList(bs, base) && FitsAfter(bs, t, b) && Inserted(bs, t, b, r) && 0 <= i < j < |r|
    ensures r[i].a + r[i].n < r[j].a
  {
    if JoinsRight(bs, t, b) {
      assert forall k :: t + 1 < k < |bs| ==> bs[t + 1].a + bs[t + 1].n < bs[k].a;
    }
  }

  lemma InsertUnits(bs: seq<Block>, t: int, b: Block, r: seq<Block>, x: int)
    requires FitsAfter(bs, t, b) && Inserted(bs, t, b, r)
    ensures InFree(r, x) <==> InFree(bs, x) || InBlock(b, x)
  {
    var k := if JoinsLeft(bs, t, b) then t else t + 1;
    var d := |bs| - |r|;
    if InFree(r, x) {
      var i :| 0 <= i < |r| && InBlock(r[i], x);
      if i < k {
        assert InBlock(bs[i], x);
      } else if i > k {
        assert InBlock(bs[i + d], x);
      } else if !InBlock(b, x) {
        assert InBlock(bs[t], x) || InBlock(bs[t + 1], x);
      }
    }
    if InFree(bs, x) {
      var i :| 0 <= i < |bs| && InBlock(bs[i], x);
      if i < k {
        assert InBlock(r[i], x);
      } else if i - d > k {
        assert InBlock(r[i - d], x);
      } else {
        assert InBlock(r[k], x);
      }
    }
    if InBlock(b, x) {
      assert InBlock(r[k], x);
    }
  }

  /** The block handed out when `n` units are cut from the end of `b`. */
  ghost function Carved(b: Block, n: nat): Block
    requires n <= b.n
  {
    Block(b.a + b.n - n, n)
  }

  /** The free list once `n` units have been cut from the end of block `i`. */
  ghost function Carve(bs: seq<Block>, i: int, n: nat): seq<Block>
    requires 0 <= i < |bs| && n <= bs[i].n
  {
    if bs[i].n == n then bs[..i] + bs[i + 1..] else bs[i := Block(bs[i].a, bs[i].n - n)]
  }

  lemma CarveIsFreeList(bs: seq<Block>, base: int, i: int, n: nat)
    requires IsFreeList(bs, base) && 1 <= i < |bs| && n <= bs[i].n
    ensures IsFreeList(Carve(bs, i, n), base)
  {
  }

  /** Carving splits the units exactly: nothing is lost and nothing is in both parts. */
  lemma CarveUnits(bs: seq<Block>, i: int, n: nat, x: int)
    requires Spread(bs) && 0 <= i < |bs| && 1 <= n <= bs[i].n
    ensures InFree(bs, x) <==> InFree(Carve(bs, i, n), x) || InBlock(Carved(bs[i], n), x)
    ensures !(InFree(Carve(bs, i, n), x) && InBlock(Carved(bs[i], n), x))
  {
    hide Carve, Spread;
    var r := Carve(bs, i, n);
    if InFree(bs, x) {
      var k :| 0 <= k < |bs| && InBlock(bs[k], x);
      CarveFrom(bs, i, n, x, k);
    }
    if InFree(r, x) {
      var k :| 0 <= k < |r| && InBlock(r[k], x);
      CarveInto(bs, i, n, x, k);
    }
    if InBlock(Carved(bs[i], n), x) {
      assert InBlock(bs[i], x);
    }
  }

  lemma CarveFrom(bs: seq<Block>, i: int, n: nat, x: int, k: int)
    requires 0 <= i < |bs| && 1 <= n <= bs[i].n && 0 <= k < |bs| && InBlock(bs[k], x)
    ensures InFree(Carve(bs, i, n), x) || InBlock(Carved(bs[i], n), x)
  {
    var r := Carve(bs, i, n);
    if k < i {
      assert r[k] == bs[k];
    } else if k > i {
      var j := if bs[i].n == n then k - 1 else k;
      assert r[j] == bs[k];
    } else if bs[i].n != n {
      assert r[i] == Block(bs[i].a, bs[i].n - n);
    }
  }

  lemma CarveInto(bs: seq<Block>, i: int, n: nat, x: int, k: int)
    requires Spread(bs) && 0 <= i < |bs| && 1 <= n <= bs[i].n
    requires 0 <= k < |Carve(bs, i, n)| && InBlock(Carve(bs, i, n)[k], x)
    ensures InFree(bs, x) && !InBlock(Carved(bs[i], n), x)
  {
    var r := Carve(bs, i, n);
    var j := if k >= i && bs[i].n == n then k + 1 else k;
    assert j != i ==> r[k] == bs[j];
    assert j == i ==> r[k] == Block(bs[i].a, bs[i].n - n);
    assert InBlock(bs[j], x);
  }
}
