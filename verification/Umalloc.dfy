/**
 umalloc.c: the storage allocator of section 8.7 of The C Programming Language, 2nd ed.

 Headers live in `ptr` and `size`, indexed by unit address. The ghost fields say what
 those headers mean: the free list, the live allocations and the units that were ever
 obtained from sbrk.
 */
module Umalloc {
  import opened Counting
  import opened FreeList

  const UNIT := 8
  const MIN_UNITS := 4096

  /** malloc's request in units; the addition wraps as unsigned arithmetic does. */
  function Nunits(nbytes: nat): nat {
    ((nbytes + UNIT - 1) % WORD) / UNIT + 1
  }

  /** The payload is large enough exactly when the rounding does not wrap around. */
  lemma NunitsCovers(nbytes: nat)
    requires nbytes < WORD
    ensures nbytes <= (Nunits(nbytes) - 1) * UNIT <==> nbytes <= WORD - UNIT
    ensures nbytes <= WORD - UNIT ==> (Nunits(nbytes) - 1) * UNIT < nbytes + UNIT
  {
    if nbytes <= WORD - UNIT {
      assert (nbytes + UNIT - 1) % WORD == nbytes + UNIT - 1;
    } else {
      assert (nbytes + UNIT - 1) % WORD == nbytes + UNIT - 1 - WORD;
    }
  }

  /** morecore asks for at least 4096 units. */
  function MoreUnits(n: nat): nat {
    if n < MIN_UNITS then MIN_UNITS else n
  }

  /** sbrk's argument is a signed 32-bit number of bytes. */
  function AsInt(x: nat): int {
    if x % WORD < WORD / 2 then x % WORD else x % WORD - WORD
  }

  /** sbrk is asked for the bytes that morecore needs. */
  predicate SbrkFits(n: nat) {
    AsInt(MoreUnits(n) * UNIT) == MoreUnits(n) * UNIT
  }

  /** Otherwise the argument is negative or 0: for requests above 2^31 - 16 whose rounding does not wrap. */
  lemma SbrkFitsIff(nbytes: nat)
    requires nbytes < WORD
    ensures SbrkFits(Nunits(nbytes)) <==> nbytes <= WORD / 2 - 2 * UNIT || nbytes > WORD - UNIT
    ensures !SbrkFits(Nunits(nbytes)) ==> AsInt(MoreUnits(Nunits(nbytes)) * UNIT) <= 0
  {
    var r := nbytes + UNIT - 1;
    assert r % WORD == if nbytes <= WORD - UNIT then r else r - WORD;
    var n := Nunits(nbytes);
    assert n * UNIT <= WORD;
  }

  /** The address that follows block `i` on the ring. */
  ghost function Next(bs: seq<Block>, i: int): int
    requires 0 <= i < |bs|
  {
    if i + 1 < |bs| then bs[i + 1].a else bs[0].a
  }

  /** The header of block `i` holds its size and the address of the next block. */
  ghost predicate LinkedAt(ptr: map<int, int>, size: map<int, nat>, bs: seq<Block>, i: int)
    requires 0 <= i < |bs|
  {
    && bs[i].a in ptr && bs[i].a in size
    && size[bs[i].a] == bs[i].n
    && ptr[bs[i].a] == Next(bs, i)
  }

  /** The headers in memory form one ring through `bs`. */
  ghost predicate Linked(ptr: map<int, int>, size: map<int, nat>, bs: seq<Block>) {
    forall i :: 0 <= i < |bs| ==> LinkedAt(ptr, size, bs, i)
  }

  ghost predicate Apart(b: Block, c: Block) {
    b.a + b.n <= c.a || c.a + c.n <= b.a
  }

  ghost function Span(b: Block): iset<int> { iset x | InBlock(b, x) }

  ghost predicate InLive(live: map<int, nat>, x: int) {
    exists a :: a in live && InBlock(Block(a, live[a]), x)
  }

  /** The headers of live allocations are intact. */
  ghost predicate Intact(live: map<int, nat>, size: map<int, nat>, base: int, brk: int) {
    forall a :: a in live ==> a in size && size[a] == live[a] && 1 <= live[a] && base < a && a + live[a] <= brk
  }

  /** Live allocations overlap neither each other nor the free list. */
  ghost predicate Disjoint(live: map<int, nat>, bs: seq<Block>) {
    && (forall a, b :: a in live && b in live && a != b ==> Apart(Block(a, live[a]), Block(b, live[b])))
    && (forall a, i :: a in live && 0 <= i < |bs| ==> Apart(bs[i], Block(a, live[a])))
  }

  ghost predicate LiveOk(live: map<int, nat>, size: map<int, nat>, bs: seq<Block>, base: int, brk: int) {
    && Intact(live, size, base, brk)
    && Disjoint(live, bs)
    && (forall i :: 0 <= i < |bs| ==> bs[i].a + bs[i].n <= brk)
  }

  lemma LiveBlock(live: map<int, nat>, size: map<int, nat>, bs: seq<Block>, base: int, brk: int, a: int)
    requires LiveOk(live, size, bs, base, brk) && a in live
    ensures base < a && 1 <= live[a] && forall i :: 0 <= i < |bs| ==> Apart(bs[i], Block(a, live[a]))
  {
  }

  /** Every unit obtained is free or live, and no other unit is. */
  ghost predicate Accounted(got: iset<int>, bs: seq<Block>, live: map<int, nat>) {
    forall x :: x in got <==> InFree(bs, x) || InLive(live, x)
  }

  /** A block above `base` that is apart from every free block fits into exactly one gap. */
  lemma FindGap(bs: seq<Block>, base: int, b: Block) returns (t: int)
    requires IsFreeList(bs, base) && base < b.a && 1 <= b.n
    requires forall i :: 0 <= i < |bs| ==> Apart(bs[i], b)
    ensures FitsAfter(bs, t, b) && forall u :: FitsAfter(bs, u, b) ==> u == t
  {
    t := |bs| - 1;
    while b.a < bs[t].a
      invariant 0 <= t < |bs|
      invariant t + 1 < |bs| ==> b.a < bs[t + 1].a
    {
      t := t - 1;
    }
  }

  /** What `free` does to the headers when it puts `b` back after block `t`. */
  ghost predicate Spliced(ptr: map<int, int>, size: map<int, nat>, bs: seq<Block>, t: int, b: Block,
                          ptr': map<int, int>, size': map<int, nat>)
    requires 0 <= t < |bs|
  {
    var after := if JoinsRight(bs, t, b) then Next(bs, t + 1) else Next(bs, t);
    var n := if JoinsRight(bs, t, b) then b.n + bs[t + 1].n else b.n;
    if JoinsLeft(bs, t, b) then
      size' == size[b.a := n][bs[t].a := bs[t].n + n] && ptr' == ptr[b.a := after][bs[t].a := after]
    else
      size' == size[b.a := n] && ptr' == ptr[b.a := after][bs[t].a := b.a]
  }

  lemma SplicedBefore(ptr: map<int, int>, size: map<int, nat>, bs: seq<Block>, t: int, b: Block, r: seq<Block>,
                  ptr': map<int, int>, size': map<int, nat>, i: int)
    requires Spread(bs) && FitsAfter(bs, t, b) && Linked(ptr, size, bs)
    requires Spliced(ptr, size, bs, t, b, ptr', size') && Inserted(bs, t, b, r)
    requires 0 <= i < if JoinsLeft(bs, t, b) then t else t + 1
    ensures LinkedAt(ptr', size', r, i)
  {
    assert LinkedAt(ptr, size, bs, i);
    assert i < t ==> bs[i].a < bs[t].a;
    assert r[i] == bs[i];
    assert i < t ==> r[i + 1].a == bs[i + 1].a;
  }

  lemma SplicedMiddle(ptr: map<int, int>, size: map<int, nat>, bs: seq<Block>, t: int, b: Block, r: seq<Block>,
                  ptr': map<int, int>, size': map<int, nat>)
    requires Spread(bs) && FitsAfter(bs, t, b) && Linked(ptr, size, bs)
    requires Spliced(ptr, size, bs, t, b, ptr', size') && Inserted(bs, t, b, r)
    ensures LinkedAt(ptr', size', r, if JoinsLeft(bs, t, b) then t else t + 1)
  {
    var k := if JoinsLeft(bs, t, b) then t else t + 1;
    assert r[k] == Merged(bs, t, b);
    assert r[0].a == bs[0].a;
    if JoinsRight(bs, t, b) {
      assert k + 1 < |r| ==> r[k + 1] == bs[t + 2];
    } else {
      assert k + 1 < |r| ==> r[k + 1] == bs[t + 1];
    }
  }

  lemma SplicedAfter(ptr: map<int, int>, size: map<int, nat>, bs: seq<Block>, t: int, b: Block, r: seq<Block>,
                  ptr': map<int, int>, size': map<int, nat>, i: int)
    requires Spread(bs) && FitsAfter(bs, t, b) && Linked(ptr, size, bs)
    requires Spliced(ptr, size, bs, t, b, ptr', size') && Inserted(bs, t, b, r)
    requires (if JoinsLeft(bs, t, b) then t else t + 1) < i < |r|
    ensures LinkedAt(ptr', size', r, i)
  {
    var j := i + |bs| - |r|;
    assert r[i] == bs[j] && (i + 1 < |r| ==> r[i + 1] == bs[j + 1]);
    assert r[0].a == bs[0].a;
    assert LinkedAt(ptr, size, bs, j);
    assert bs[t].a < b.a < bs[j].a;
  }

  lemma SplicedLinked(ptr: map<int, int>, size: map<int, nat>, bs: seq<Block>, t: int, b: Block, r: seq<Block>,
                      ptr': map<int, int>, size': map<int, nat>)
    requires Spread(bs) && FitsAfter(bs, t, b) && Linked(ptr, size, bs)
    requires Spliced(ptr, size, bs, t, b, ptr', size') && Inserted(bs, t, b, r)
    ensures Linked(ptr', size', r)
  {
    forall i | 0 <= i < |r| ensures LinkedAt(ptr', size', r, i) {
      var k := if JoinsLeft(bs, t, b) then t else t + 1;
      if i < k {
        SplicedBefore(ptr, size, bs, t, b, r, ptr', size', i);
      } else if i == k {
        SplicedMiddle(ptr, size, bs, t, b, r, ptr', size');
      } else {
        SplicedAfter(ptr, size, bs, t, b, r, ptr', size', i);
      }
    }
  }

  lemma FreedDisjoint(live: map<int, nat>, bs: seq<Block>, t: int, b: Block, r: seq<Block>)
    requires Disjoint(live, bs) && (forall a :: a in live ==> 1 <= live[a])
    requires b.a in live && b.n == live[b.a] && FitsAfter(bs, t, b) && Inserted(bs, t, b, r)
    ensures Disjoint(live - {b.a}, r)
  {
    var live' := live - {b.a};
    forall a, i | a in live' && 0 <= i < |r| ensures Apart(r[i], Block(a, live'[a])) {
      var c := Block(a, live[a]);
      assert Apart(b, c) && Apart(bs[t], c) && (t + 1 < |bs| ==> Apart(bs[t + 1], c));
    }
  }

  /** Freeing an allocation keeps the others intact. */
  lemma FreedLive(live: map<int, nat>, ptr: map<int, int>, size: map<int, nat>, bs: seq<Block>, base: int, brk: int,
                  t: int, b: Block, r: seq<Block>, ptr': map<int, int>, size': map<int, nat>)
    requires LiveOk(live, size, bs, base, brk)
    requires b.a in live && b.n == live[b.a] && FitsAfter(bs, t, b)
    requires Spliced(ptr, size, bs, t, b, ptr', size') && Inserted(bs, t, b, r)
    ensures LiveOk(live - {b.a}, size', r, base, brk)
  {
    forall a | a in live && a != b.a ensures a in size' && size'[a] == live[a] {
      assert Apart(bs[t], Block(a, live[a]));
      assert JoinsLeft(bs, t, b) ==> Apart(b, Block(a, live[a])) && a != bs[t].a;
    }
    FreedDisjoint(live, bs, t, b, r);
  }

  /** Freeing moves the units of one allocation to the free list and no others. */
  lemma FreedAccounted(got: iset<int>, live: map<int, nat>, bs: seq<Block>, t: int, b: Block, r: seq<Block>)
    requires Accounted(got, bs, live)
    requires b.a in live && b.n == live[b.a] && FitsAfter(bs, t, b) && Inserted(bs, t, b, r)
    ensures Accounted(got, r, live - {b.a})
  {
    var live' := live - {b.a};
    forall x ensures x in got <==> InFree(r, x) || InLive(live', x) {
      InsertUnits(bs, t, b, r, x);
      if InLive(live, x) {
        var a :| a in live && InBlock(Block(a, live[a]), x);
        assert a != b.a ==> a in live' && InBlock(Block(a, live'[a]), x);
      }
      if InLive(live', x) {
        var a :| a in live' && InBlock(Block(a, live'[a]), x);
        assert InBlock(Block(a, live[a]), x);
      }
      assert InBlock(b, x) ==> InLive(live, x);
    }
  }

  /** The whole effect of `free` on a well-formed heap. */
  lemma Freed(ptr: map<int, int>, size: map<int, nat>, bs: seq<Block>, live: map<int, nat>, got: iset<int>, base: int,
              brk: int, t: int, b: Block, ptr': map<int, int>, size': map<int, nat>)
    requires IsFreeList(bs, base) && Linked(ptr, size, bs) && LiveOk(live, size, bs, base, brk)
    requires Accounted(got, bs, live)
    requires b.a in live && b.n == live[b.a] && FitsAfter(bs, t, b)
    requires Spliced(ptr, size, bs, t, b, ptr', size')
    ensures var r := Insert(bs, t, b);
            && IsFreeList(r, base) && Linked(ptr', size', r) && LiveOk(live - {b.a}, size', r, base, brk)
            && Accounted(got, r, live - {b.a})
            && (exists i :: 0 <= i < |r| && r[i].a == bs[t].a)
  {
    var r := Insert(bs, t, b);
    InsertInserts(bs, t, b);
    InsertIsFreeList(bs, base, t, b, r);
    SplicedLinked(ptr, size, bs, t, b, r, ptr', size');
    FreedLive(live, ptr, size, bs, base, brk, t, b, r, ptr', size');
    FreedAccounted(got, live, bs, t, b, r);
    assert r[t].a == bs[t].a;
  }

  /** What `malloc` does to the headers when it takes `n` units from block `j`. */
  ghost predicate Cut(ptr: map<int, int>, size: map<int, nat>, bs: seq<Block>, j: int, n: nat,
                      ptr': map<int, int>, size': map<int, nat>)
    requires 1 <= j < |bs| && n <= bs[j].n
  {
    if bs[j].n == n then
      size' == size && ptr' == ptr[bs[j - 1].a := Next(bs, j)]
    else
      size' == size[bs[j].a := bs[j].n - n][Carved(bs[j], n).a := n] && ptr' == ptr
  }

  lemma CutLinked(ptr: map<int, int>, size: map<int, nat>, bs: seq<Block>, j: int, n: nat,
                  ptr': map<int, int>, size': map<int, nat>)
    requires Spread(bs) && Linked(ptr, size, bs)
    requires 1 <= j < |bs| && 1 <= n <= bs[j].n && Cut(ptr, size, bs, j, n, ptr', size')
    ensures Linked(ptr', size', Carve(bs, j, n))
  {
    var r := Carve(bs, j, n);
    forall i | 0 <= i < |r| ensures LinkedAt(ptr', size', r, i) {
      if bs[j].n == n {
        assert LinkedAt(ptr, size, bs, if i < j then i else i + 1);
        assert i < j - 1 ==> bs[i].a < bs[j - 1].a;
      } else {
        assert LinkedAt(ptr, size, bs, i);
        assert i < j ==> bs[i].a < bs[j].a;
        assert i > j ==> bs[j].a + bs[j].n < bs[i].a;
      }
    }
  }

  lemma CutApart(bs: seq<Block>, j: int, n: nat, i: int, c: Block)
    requires Spread(bs) && 1 <= j < |bs| && 1 <= n <= bs[j].n && 0 <= i < |Carve(bs, j, n)|
    requires c == Carved(bs[j], n) || forall k :: 0 <= k < |bs| ==> Apart(bs[k], c)
    ensures Apart(Carve(bs, j, n)[i], c)
  {
    var k := if bs[j].n == n && j <= i then i + 1 else i;
    assert Carve(bs, j, n)[i] == if k == j then Block(bs[j].a, bs[j].n - n) else bs[k];
  }

  lemma CutDisjoint(live: map<int, nat>, bs: seq<Block>, j: int, n: nat)
    requires Spread(bs) && Disjoint(live, bs) && (forall a :: a in live ==> 1 <= live[a])
    requires 1 <= j < |bs| && 1 <= n <= bs[j].n
    ensures var c := Carved(bs[j], n); c.a !in live && Disjoint(live[c.a := n], Carve(bs, j, n))
  {
    var c, r := Carved(bs[j], n), Carve(bs, j, n);
    var live' := live[c.a := n];
    assert forall a :: a in live ==> Apart(bs[j], Block(a, live[a]));
    forall a, i | a in live' && 0 <= i < |r| ensures Apart(r[i], Block(a, live'[a])) {
      CutApart(bs, j, n, i, Block(a, live'[a]));
    }
  }

  lemma CutLive(live: map<int, nat>, ptr: map<int, int>, size: map<int, nat>, bs: seq<Block>, base: int, brk: int,
                j: int, n: nat, ptr': map<int, int>, size': map<int, nat>)
    requires IsFreeList(bs, base) && LiveOk(live, size, bs, base, brk)
    requires 1 <= j < |bs| && 1 <= n <= bs[j].n && Cut(ptr, size, bs, j, n, ptr', size')
    requires bs[j].a in size && size[bs[j].a] == bs[j].n
    ensures var c := Carved(bs[j], n); c.a !in live && LiveOk(live[c.a := n], size', Carve(bs, j, n), base, brk)
  {
    var c, r := Carved(bs[j], n), Carve(bs, j, n);
    CutDisjoint(live, bs, j, n);
    assert forall a :: a in live ==> Apart(bs[j], Block(a, live[a])) && a != bs[j].a;
    assert base < bs[j].a;
    forall i | 0 <= i < |r| ensures r[i].a + r[i].n <= brk {
      assert r[i] == bs[if bs[j].n == n && j <= i then i + 1 else i] || r[i] == Block(bs[j].a, bs[j].n - n);
    }
  }

  lemma CutAccounted(got: iset<int>, live: map<int, nat>, bs: seq<Block>, j: int, n: nat)
    requires Spread(bs) && Accounted(got, bs, live)
    requires 1 <= j < |bs| && 1 <= n <= bs[j].n && Carved(bs[j], n).a !in live
    ensures Accounted(got, Carve(bs, j, n), live[Carved(bs[j], n).a := n])
  {
    var c := Carved(bs[j], n);
    var live' := live[c.a := n];
    forall x ensures x in got <==> InFree(Carve(bs, j, n), x) || InLive(live', x) {
      CarveUnits(bs, j, n, x);
      if InLive(live, x) {
        var a :| a in live && InBlock(Block(a, live[a]), x);
        assert a in live' && InBlock(Block(a, live'[a]), x);
      }
      if InLive(live', x) {
        var a :| a in live' && InBlock(Block(a, live'[a]), x);
        assert a == c.a || InBlock(Block(a, live[a]), x);
      }
      assert InBlock(c, x) ==> c.a in live' && InBlock(Block(c.a, live'[c.a]), x);
    }
  }

  /** Position `e` steps after `f` on a ring of `len`. */
  ghost function Cyc(f: int, e: int, len: int): int {
    if f + e < len then f + e else f + e - len
  }

  /** None of the `d` blocks that follow block `f` on the ring has `n` units. */
  ghost predicate NoneFits(bs: seq<Block>, f: int, d: int, n: nat)
    requires 0 <= f < |bs| && d <= |bs|
  {
    forall e :: 1 <= e <= d ==> bs[Cyc(f, e, |bs|)].n < n
  }

  ghost predicate SomeFits(bs: seq<Block>, n: nat) {
    exists k :: 0 <= k < |bs| && n <= bs[k].n
  }

  /** `malloc` has passed `d` blocks since block `f` and looks at `p`, which follows `prevp`. */
  ghost predicate Searching(bs: seq<Block>, f: int, d: int, n: nat, prevp: int, p: int) {
    && 0 <= f < |bs| && 0 <= d < |bs|
    && NoneFits(bs, f, d, n)
    && prevp == bs[Cyc(f, d, |bs|)].a
    && p == bs[Cyc(f, d + 1, |bs|)].a
  }

  lemma StartSearch(bs: seq<Block>, f: int, n: nat)
    requires 0 <= f < |bs|
    ensures Searching(bs, f, 0, n, bs[f].a, Next(bs, f))
  {
  }

  /** A block that is too small is passed; back at block `f`, every block was too small. */
  lemma Advance(bs: seq<Block>, f: int, d: int, n: nat, prevp: int, p: int) returns (j: int)
    requires Spread(bs) && Searching(bs, f, d, n, prevp, p)
    ensures 0 <= j < |bs| && p == bs[j].a && (1 <= j ==> prevp == bs[j - 1].a) && j == Cyc(f, d + 1, |bs|)
    ensures bs[j].n < n ==>
              if p == bs[f].a then !SomeFits(bs, n)
              else d + 1 < |bs| && Searching(bs, f, d + 1, n, p, Next(bs, j))
  {
    j := Cyc(f, d + 1, |bs|);
    if bs[j].n < n {
      assert j < f ==> bs[j].a < bs[f].a;
      assert f < j ==> bs[f].a < bs[j].a;
      assert NoneFits(bs, f, d + 1, n);
      if p == bs[f].a {
        WholeRing(bs, f, n);
      }
    }
  }

  /**
   Next fit: the allocation is the tail of the first block that fits, going round from the one after `freep`; that
   block keeps its start and shrinks, or leaves the list, and the next search starts behind the one before it.
   */
  ghost predicate NextFit(bs: seq<Block>, freep: int, n: nat, ap: int, bs': seq<Block>, freep': int) {
    exists f, d :: NextFitAt(bs, f, d, freep, n, ap, bs', freep')
  }

  ghost predicate NextFitAt(bs: seq<Block>, f: int, d: int, freep: int, n: nat, ap: int, bs': seq<Block>, freep': int) {
    && 0 <= f < |bs| && freep == bs[f].a && 0 <= d < |bs| && NoneFits(bs, f, d, n)
    && var j := Cyc(f, d + 1, |bs|);
       && 1 <= j < |bs| && n <= bs[j].n && freep' == bs[j - 1].a && ap - 1 == bs[j].a + bs[j].n - n
       && bs' == if bs[j].n == n then bs[..j] + bs[j + 1..] else bs[j := Block(bs[j].a, bs[j].n - n)]
  }

  lemma TakesNextFit(bs: seq<Block>, f: int, d: int, n: nat, prevp: int, p: int, j: int, ap: int, bs': seq<Block>)
    requires Searching(bs, f, d, n, prevp, p) && j == Cyc(f, d + 1, |bs|) && 1 <= j < |bs| && n <= bs[j].n
    requires prevp == bs[j - 1].a && Block(ap - 1, n) == Carved(bs[j], n) && bs' == Carve(bs, j, n)
    ensures NextFit(bs, bs[f].a, n, ap, bs', prevp)
  {
    assert NextFitAt(bs, f, d, bs[f].a, n, ap, bs', prevp);
  }

  /** A request takes at least one unit, which neither an empty ring nor its base offers. */
  lemma NothingFits(base: int, nbytes: nat)
    ensures 1 <= Nunits(nbytes) && !SomeFits([], Nunits(nbytes)) && !SomeFits([Block(base, 0)], Nunits(nbytes))
  {
  }

  lemma FitsHere(bs: seq<Block>, j: int, n: nat)
    requires 1 <= j < |bs| && n <= bs[j].n
    ensures SomeFits(bs, n)
  {
  }

  lemma WholeRing(bs: seq<Block>, f: int, n: nat)
    requires 0 <= f < |bs| && NoneFits(bs, f, |bs|, n)
    ensures forall k :: 0 <= k < |bs| ==> bs[k].n < n
  {
    forall k | 0 <= k < |bs| ensures bs[k].n < n {
      var e := if k > f then k - f else k - f + |bs|;
      assert Cyc(f, e, |bs|) == k;
    }
  }

  /** The newly obtained region, seen as one more allocation about to be freed. */
  lemma Obtained(live: map<int, nat>, size: map<int, nat>, bs: seq<Block>, got: iset<int>, base: int, brk: int,
                 hp: int, nu: nat, ptr: map<int, int>)
    requires IsFreeList(bs, base) && Linked(ptr, size, bs) && LiveOk(live, size, bs, base, brk)
    requires Accounted(got, bs, live)
    requires base < brk <= hp && 1 <= nu
    ensures hp !in live
    ensures Linked(ptr, size[hp := nu], bs)
    ensures LiveOk(live[hp := nu], size[hp := nu], bs, base, hp + nu)
    ensures Accounted(got + Span(Block(hp, nu)), bs, live[hp := nu])
  {
    var live', size' := live[hp := nu], size[hp := nu];
    forall i | 0 <= i < |bs| ensures LinkedAt(ptr, size', bs, i) {
      assert LinkedAt(ptr, size, bs, i);
      assert i > 0 ==> bs[i].a < bs[i].a + bs[i].n <= brk;
    }
    forall x ensures x in got + Span(Block(hp, nu)) <==> InFree(bs, x) || InLive(live', x) {
      if InLive(live, x) {
        var a :| a in live && InBlock(Block(a, live[a]), x);
        assert a in live' && InBlock(Block(a, live'[a]), x);
      }
      if InLive(live', x) {
        var a :| a in live' && InBlock(Block(a, live'[a]), x);
        assert a == hp || InBlock(Block(a, live[a]), x);
      }
      assert hp <= x < hp + nu ==> hp in live' && InBlock(Block(hp, live'[hp]), x);
    }
  }

  // What programs keep in their allocations.

  ghost predicate PayloadOf(live: map<int, nat>, a: int, x: int) {
    a in live && a < x < a + live[a]
  }

  ghost predicate InPayload(live: map<int, nat>, x: int) {
    exists a :: PayloadOf(live, a, x)
  }

  ghost predicate SameAt(ptr: map<int, int>, size: map<int, nat>, ptr': map<int, int>, size': map<int, nat>, x: int) {
    && (x in ptr <==> x in ptr') && (x in ptr ==> ptr'[x] == ptr[x])
    && (x in size <==> x in size') && (x in size ==> size'[x] == size[x])
  }

  /** The payloads of the allocations `live` hold what they held. */
  ghost predicate Kept(live: map<int, nat>, ptr: map<int, int>, size: map<int, nat>, ptr': map<int, int>,
                       size': map<int, nat>) {
    forall x :: InPayload(live, x) ==> SameAt(ptr, size, ptr', size', x)
  }

  lemma KeptSame(live: map<int, nat>, ptr: map<int, int>, size: map<int, nat>)
    ensures Kept(live, ptr, size, ptr, size)
  {
  }

  lemma KeptTrans(live: map<int, nat>, ptr: map<int, int>, size: map<int, nat>, ptr1: map<int, int>, size1: map<int,
                  nat>,
                  ptr2: map<int, int>, size2: map<int, nat>)
    requires Kept(live, ptr, size, ptr1, size1) && Kept(live, ptr1, size1, ptr2, size2)
    ensures Kept(live, ptr, size, ptr2, size2)
  {
    hide InPayload;
    forall x | InPayload(live, x) ensures SameAt(ptr, size, ptr2, size2, x) {
      assert SameAt(ptr, size, ptr1, size1, x) && SameAt(ptr1, size1, ptr2, size2, x);
    }
  }

  /** `free` stores into no other allocation. */
  lemma SplicedKept(live: map<int, nat>, ptr: map<int, int>, size: map<int, nat>, bs: seq<Block>, base: int, brk: int,
                    t: int, b: Block, ptr': map<int, int>, size': map<int, nat>)
    requires IsFreeList(bs, base) && LiveOk(live, size, bs, base, brk) && b.a in live && b.n == live[b.a]
    requires FitsAfter(bs, t, b) && Spliced(ptr, size, bs, t, b, ptr', size')
    ensures Kept(live - {b.a}, ptr, size, ptr', size')
  {
    forall x | InPayload(live - {b.a}, x) ensures SameAt(ptr, size, ptr', size', x) {
      var a :| PayloadOf(live - {b.a}, a, x);
      assert Apart(Block(a, live[a]), b) && Apart(bs[t], Block(a, live[a]));
      assert x != b.a && x != bs[t].a;
    }
  }

  /** Nor does cutting a request from a free block. */
  lemma CutKept(live: map<int, nat>, ptr: map<int, int>, size: map<int, nat>, bs: seq<Block>, base: int, brk: int,
                j: int, n: nat, ptr': map<int, int>, size': map<int, nat>)
    requires IsFreeList(bs, base) && LiveOk(live, size, bs, base, brk)
    requires 1 <= j < |bs| && 1 <= n <= bs[j].n && Cut(ptr, size, bs, j, n, ptr', size')
    ensures Kept(live, ptr, size, ptr', size')
  {
    forall x | InPayload(live, x) ensures SameAt(ptr, size, ptr', size', x) {
      var a :| PayloadOf(live, a, x);
      assert Apart(bs[j], Block(a, live[a])) && Apart(bs[j - 1], Block(a, live[a]));
      assert !InBlock(bs[j], x) && x != bs[j - 1].a;
    }
  }

  /** A store below everything live, or above it, is in no payload. */
  lemma OutsideKept(live: map<int, nat>, ptr: map<int, int>, size: map<int, nat>, bs: seq<Block>, base: int, brk: int,
                    y: int, v: int, n: nat)
    requires LiveOk(live, size, bs, base, brk) && (y <= base || brk <= y)
    ensures Kept(live, ptr, size, ptr, size[y := n]) && Kept(live, ptr, size, ptr[y := v], size[y := n])
  {
    forall x | InPayload(live, x) ensures x != y {
      var a :| PayloadOf(live, a, x);
    }
  }

  /** The region that sbrk granted for a request of `n` units. */
  ghost predicate Gained(got: iset<int>, brk: int, n: nat, got': iset<int>) {
    exists hp :: brk <= hp && got' == got + Span(Block(hp, MoreUnits(n)))
  }

  class Heap {
    const base: int
    var ptr: map<int, int>
    var size: map<int, nat>
    var freep: int
    var brk: int
    ghost var blocks: seq<Block>
    ghost var live: map<int, nat>
    ghost var got: iset<int>      // the units the allocator has taken charge of
    ghost var granted: iset<int>  // the units sbrk has granted
    ghost var sbrks: nat

    ghost predicate Valid()
      reads this
    {
      && 0 < base < brk && got == granted
      && (freep == 0 ==> blocks == [] && live == map[] && got == iset{})
      && (freep != 0 ==> IsFreeList(blocks, base) && Linked(ptr, size, blocks)
                         && exists i :: 0 <= i < |blocks| && blocks[i].a == freep)
      && LiveOk(live, size, blocks, base, brk)
      && Accounted(got, blocks, live)
    }

    constructor (base: int, brk: int)
      requires 0 < base < brk
      ensures Valid() && freep == 0 && this.base == base && sbrks == 0
    {
      this.base := base;
      ptr, size, freep, this.brk := map[], map[], 0, brk;
      blocks, live, got, granted, sbrks := [], map[], iset{}, iset{}, 0;
    }

    /** What the ring in memory says about block `j`. */
    lemma At(j: int)
      requires Valid() && freep != 0 && 0 <= j < |blocks|
      ensures blocks[j].a in ptr && blocks[j].a in size
      ensures size[blocks[j].a] == blocks[j].n && ptr[blocks[j].a] == Next(blocks, j) && Spread(blocks)
      ensures j == 0 ==> blocks[j].n == 0
    {
      assert LinkedAt(ptr, size, blocks, j);
    }

    lemma FreepIndex() returns (f: int)
      requires Valid() && freep != 0
      ensures 0 <= f < |blocks| && blocks[f].a == freep
    {
      f :| 0 <= f < |blocks| && blocks[f].a == freep;
    }

    /** The ring walk of `free`: stops at the block after which `bp` belongs. */
    method FindPlace(bp: int) returns (p: int, ghost t: int)
      requires Valid() && bp in live
      ensures FitsAfter(blocks, t, Block(bp, live[bp])) && p == blocks[t].a
    {
      hide Accounted, LiveOk;
      LiveBlock(live, size, blocks, base, brk, bp);
      ghost var goal := FindGap(blocks, base, Block(bp, live[bp]));
      p := freep;
      t :| 0 <= t < |blocks| && blocks[t].a == p;
      assert LinkedAt(ptr, size, blocks, t);
      while !(bp > p && bp < ptr[p])
        invariant 0 <= t < |blocks| && p == blocks[t].a && LinkedAt(ptr, size, blocks, t)
        decreases if t <= goal then goal - t else |blocks| + goal - t
      {
        if p >= ptr[p] && (bp > p || bp < ptr[p]) {
          break;
        }
        p := ptr[p];
        t := if t + 1 < |blocks| then t + 1 else 0;
      }
      assert t == goal;
    }

    /** The header updates of `free`, joining `bp` with either neighbour it touches. */
    method Splice(bp: int, p: int, ghost t: int)
      requires Valid() && bp in live && FitsAfter(blocks, t, Block(bp, live[bp])) && p == blocks[t].a
      modifies this`ptr, this`size
      ensures Spliced(old(ptr), old(size), blocks, t, Block(bp, live[bp]), ptr, size)
    {
      ghost var size0 := size;
      assert LinkedAt(ptr, size, blocks, t);
      assert t + 1 < |blocks| ==> LinkedAt(ptr, size, blocks, t + 1);
      if bp + size[bp] == ptr[p] {
        var q := ptr[p];
        size := size[bp := size[bp] + size[q]];
        ptr := ptr[bp := ptr[q]];
      } else {
        assert size0[bp := live[bp]] == size0;
        ptr := ptr[bp := ptr[p]];
      }
      if p + size[p] == bp {
        size := size[p := size[p] + size[bp]];
        ptr := ptr[p := ptr[bp]];
      } else {
        ptr := ptr[p := bp];
      }
    }

    method Free(ap: int) returns (ghost t: int)
      requires Valid() && ap - 1 in live
      modifies this
      ensures Valid() && freep != 0
      ensures live == old(live) - {ap - 1}
      ensures got == old(got) && brk == old(brk) && sbrks == old(sbrks)
      ensures Kept(live, old(ptr), old(size), ptr, size)
      ensures FitsAfter(old(blocks), t, Block(ap - 1, old(live)[ap - 1])) && freep == old(blocks)[t].a
      ensures blocks == Insert(old(blocks), t, Block(ap - 1, old(live)[ap - 1]))
    {
      hide LiveOk, Accounted, Kept, Spliced, Linked, Insert;
      var bp := ap - 1;
      ghost var b := Block(bp, live[bp]);
      var p;
      p, t := FindPlace(bp);
      Splice(bp, p, t);
      freep := p;
      SplicedKept(live, old(ptr), old(size), blocks, base, brk, t, b, ptr, size);
      Freed(old(ptr), old(size), blocks, live, got, base, brk, t, b, ptr, size);
      blocks := Insert(blocks, t, b);
      live := live - {bp};
    }

    /** The kernel either refuses or grants units above everything obtained so far. */
    method Sbrk(units: nat) returns (r: int)
      requires AsInt(units * UNIT) == units * UNIT
      modifies this`brk, this`sbrks, this`granted
      ensures sbrks == old(sbrks) + 1
      ensures (r == -1 && brk == old(brk) && granted == old(granted))
              || (r >= old(brk) && brk == r + units && granted == old(granted) + Span(Block(r, units)))
    {
      sbrks := sbrks + 1;
      if * {
        r := -1;
      } else {
        var gap: int :| 0 <= gap;
        r := brk + gap;
        brk := r + units;
        granted := granted + Span(Block(r, units));
      }
    }

    /** Takes charge of the region [hp, hp + nu) just obtained from sbrk. */
    method Adopt(hp: int, nu: nat, ghost brk0: int)
      requires IsFreeList(blocks, base) && Linked(ptr, size, blocks) && LiveOk(live, size, blocks, base, brk0)
      requires Accounted(got, blocks, live) && exists i :: 0 <= i < |blocks| && blocks[i].a == freep
      requires 0 < base < brk0 <= hp && 1 <= nu && brk == hp + nu && freep != 0
      requires granted == got + Span(Block(hp, nu))
      modifies this`size, this`live, this`got
      ensures Valid()
      ensures hp !in old(live) && live == old(live)[hp := nu] && got == old(got) + Span(Block(hp, nu))
      ensures Kept(old(live), ptr, old(size), ptr, size)
    {
      OutsideKept(live, ptr, size, blocks, base, brk0, hp, 0, nu);
      Obtained(live, size, blocks, got, base, brk0, hp, nu, ptr);
      size := size[hp := nu];
      live, got := live[hp := nu], got + Span(Block(hp, nu));
    }

    method Morecore(nunits: nat) returns (p: int)
      requires Valid() && freep != 0 && 1 <= nunits && SbrkFits(nunits)
      modifies this
      ensures Valid() && freep != 0
      ensures live == old(live) && sbrks == old(sbrks) + 1 && Kept(live, old(ptr), old(size), ptr, size)
      ensures p == 0 ==> blocks == old(blocks) && got == old(got) && brk == old(brk)
      ensures p != 0 ==> p == freep && Gained(old(got), old(brk), nunits, got) && SomeFits(blocks, nunits)
    {
      hide LiveOk, Accounted, Spread, Linked, Kept;
      KeptSame(live, ptr, size);
      var nu := nunits;
      if nu < MIN_UNITS {
        nu := MIN_UNITS;
      }
      var hp := Sbrk(nu);
      if hp == -1 {
        return 0;
      }
      Adopt(hp, nu, old(brk));
      assert got == old(got) + Span(Block(hp, MoreUnits(nunits)));
      ghost var bs, b, size1 := blocks, Block(hp, nu), size;
      ghost var t := Free(hp + 1);
      assert old(live)[hp := nu] - {hp} == old(live);
      KeptTrans(old(live), old(ptr), old(size), old(ptr), size1, ptr, size);
      InsertHas(bs, t, b);
      p := freep;
    }

    /** Cuts `nunits` from the end of the block at `at`, which follows `prevp`. */
    method Take(prevp: int, at: int, nunits: nat, ghost j: int) returns (ap: int)
      requires Valid() && freep != 0 && 1 <= nunits
      requires 1 <= j < |blocks| && nunits <= blocks[j].n && at == blocks[j].a && prevp == blocks[j - 1].a
      modifies this
      ensures Valid() && freep == prevp
      ensures 1 < ap && ap - 1 !in old(live) && live == old(live)[ap - 1 := nunits]
      ensures Block(ap - 1, nunits) == Carved(old(blocks)[j], nunits) && blocks == Carve(old(blocks), j, nunits)
      ensures got == old(got) && sbrks == old(sbrks) && brk == old(brk)
      ensures Kept(old(live), old(ptr), old(size), ptr, size)
    {
      hide LiveOk, Accounted, Kept;
      var p := at;
      assert LinkedAt(ptr, size, blocks, j);
      assert LinkedAt(ptr, size, blocks, j - 1);
      if size[p] == nunits {
        ptr := ptr[prevp := ptr[p]];
      } else {
        size := size[p := size[p] - nunits];
        p := p + size[p];
        size := size[p := nunits];
      }
      freep := prevp;
      assert Cut(old(ptr), old(size), blocks, j, nunits, ptr, size);
      CutKept(live, old(ptr), old(size), blocks, base, brk, j, nunits, ptr, size);
      CarveIsFreeList(blocks, base, j, nunits);
      CutLinked(old(ptr), old(size), blocks, j, nunits, ptr, size);
      CutLive(live, old(ptr), old(size), blocks, base, brk, j, nunits, ptr, size);
      CutAccounted(got, live, blocks, j, nunits);
      blocks, live := Carve(blocks, j, nunits), live[p := nunits];
      assert blocks[j - 1].a == freep;
      ap := p + 1;
    }

    /** The one-element ring of the first call. */
    method Init()
      requires Valid() && freep == 0
      modifies this
      ensures Valid() && freep == base && blocks == [Block(base, 0)] && old(blocks) == [] && freep != 0
      ensures live == old(live) && got == old(got) && sbrks == old(sbrks) && brk == old(brk)
      ensures Kept(live, old(ptr), old(size), ptr, size)
    {
      ptr, size, freep := ptr[base := base], size[base := 0], base;
      blocks := [Block(base, 0)];
      assert blocks[0].a == freep;
    }

    /** morecore, with the ring ready to be searched from the start. */
    method Refill(nunits: nat) returns (p: int, ghost f: int)
      requires Valid() && freep != 0 && 1 <= nunits && SbrkFits(nunits)
      modifies this
      ensures Valid() && freep != 0
      ensures live == old(live) && sbrks == old(sbrks) + 1 && Kept(live, old(ptr), old(size), ptr, size)
      ensures p == 0 ==> blocks == old(blocks) && got == old(got) && brk == old(brk)
      ensures p != 0 ==> p == freep && Gained(old(got), old(brk), nunits, got) && SomeFits(blocks, nunits)
      ensures p != 0 ==> 0 <= f < |blocks| && p == blocks[f].a && p in ptr && Searching(blocks, f, 0, nunits, p, ptr[p])
    {
      hide *;
      p := Morecore(nunits);
      f := 0;
      if p != 0 {
        f := FreepIndex();
        At(f);
        StartSearch(blocks, f, nunits);
      }
    }

    method Malloc(nbytes: nat) returns (ap: int)
      requires Valid()
      requires nbytes < WORD && (SbrkFits(Nunits(nbytes)) || SomeFits(blocks, Nunits(nbytes)))
      modifies this
      ensures Valid()
      ensures ap != 0 ==> ap - 1 !in old(live) && live == old(live)[ap - 1 := Nunits(nbytes)]
      ensures ap == 0 ==> live == old(live) && got == old(got) && brk == old(brk)
      ensures Kept(old(live), old(ptr), old(size), ptr, size)
      ensures if SomeFits(old(blocks), Nunits(nbytes)) then ap != 0 && sbrks == old(sbrks) && got == old(got)
              else sbrks == old(sbrks) + 1 && (ap != 0 ==> Gained(old(got), old(brk), Nunits(nbytes), got))
      ensures SomeFits(old(blocks), Nunits(nbytes)) ==>
                NextFit(old(blocks), old(freep), Nunits(nbytes), ap, blocks, freep)
    {
      hide *;
      KeptSame(live, ptr, size);
      var nunits := Nunits(nbytes);
      NothingFits(base, nbytes);
      if freep == 0 {
        Init();
      }
      ghost var asked, d := false, 0;
      ghost var f := FreepIndex();
      At(f);
      StartSearch(blocks, f, nunits);
      var prevp, p := freep, ptr[freep];
      while true
        invariant Valid() && freep != 0
        invariant 0 <= f < |blocks| && freep == blocks[f].a && d < |blocks|
        invariant Searching(blocks, f, d, nunits, prevp, p)
        invariant !asked ==> sbrks == old(sbrks) && got == old(got) && brk == old(brk)
        invariant !asked ==> (SomeFits(old(blocks), nunits) <==> SomeFits(blocks, nunits))
        invariant !asked && SomeFits(blocks, nunits) ==> blocks == old(blocks) && freep == old(freep)
        invariant Kept(old(live), old(ptr), old(size), ptr, size)
        invariant asked ==> sbrks == old(sbrks) + 1 && Gained(old(got), old(brk), nunits, got)
        invariant asked ==> !SomeFits(old(blocks), nunits)
        invariant asked ==> SomeFits(blocks, nunits)
        invariant live == old(live)
        decreases if asked then 0 else 1, |blocks| - d
      {
        At(f);
        ghost var j := Advance(blocks, f, d, nunits, prevp, p);
        At(j);
        ghost var ptr1, size1, bs := ptr, size, blocks;
        if size[p] >= nunits {
          FitsHere(blocks, j, nunits);
          ap := Take(prevp, p, nunits, j);
          TakesNextFit(bs, f, d, nunits, prevp, p, j, ap, blocks);
          KeptTrans(old(live), old(ptr), old(size), ptr1, size1, ptr, size);
          return;
        }
        if p == freep {
          ghost var g;
          p, g := Refill(nunits);
          KeptTrans(old(live), old(ptr), old(size), ptr1, size1, ptr, size);
          if p == 0 {
            return 0;
          }
          asked, d, f := true, 0, g;
        } else {
          d := d + 1;
        }
        prevp, p := p, ptr[p];
      }
    }

    /** A program may write anything into the payload of its own allocations. */
    method Store(x: int, v: int, w: nat, ghost a: int)
      requires Valid() && a in live && a < x < a + live[a]
      modifies this`ptr, this`size
      ensures Valid() && ptr == old(ptr)[x := v] && size == old(size)[x := w]
    {
      hide Accounted;
      ptr, size := ptr[x := v], size[x := w];
      forall i | 0 <= i < |blocks| ensures LinkedAt(ptr, size, blocks, i) {
        assert LinkedAt(old(ptr), old(size), blocks, i);
        assert Apart(blocks[i], Block(a, live[a]));
      }
    }

    /** A whole run of requests; stores stay within allocations held, and only those are freed. */
    method Run(ops: seq<Request>) returns (held: set<int>)
      requires Valid() && live == map[]
      requires forall i :: 0 <= i < |ops| && ops[i].Alloc? ==> ops[i].nbytes < WORD && SbrkFits(Nunits(ops[i].nbytes))
      modifies this
      ensures Valid()
      ensures Holds(held, live)
      ensures granted - (iset x | InLive(live, x)) == iset x | InFree(blocks, x)
    {
      hide LiveOk, Accounted, Linked;
      held := {};
      for k := 0 to |ops|
        invariant Valid() && Holds(held, live)
      {
        match ops[k]
        case Alloc(nbytes) =>
          var ap := Malloc(nbytes);
          if ap != 0 {
            held := held + {ap};
          }
        case Put(q, j, v, w) =>
          if q in held {
            LiveSize(live, size, blocks, base, brk, q - 1);
            if q + j < q - 1 + size[q - 1] {
              Store(q + j, v, w, q - 1);
            }
          }
        case Release(ap) =>
          if ap in held {
            assert ap - 1 in live;
            ghost var _ := Free(ap);
            held := held - {ap};
          }
      }
      Separate(live, size, blocks, base, brk, got);
    }
  }

  /** `held` is the set of pointers that `malloc` returned and nobody has freed. */
  ghost predicate Holds(held: set<int>, live: map<int, nat>) {
    forall a :: a in live <==> a + 1 in held
  }

  /** malloc, a store of `(v, w)` into unit `j` of the allocation at `q`, or free. */
  datatype Request = Alloc(nbytes: nat) | Put(q: int, j: nat, v: int, w: nat) | Release(ap: int)

  lemma LiveSize(live: map<int, nat>, size: map<int, nat>, bs: seq<Block>, base: int, brk: int, a: int)
    requires LiveOk(live, size, bs, base, brk) && a in live
    ensures a in size && size[a] == live[a]
  {
  }

  lemma Separate(live: map<int, nat>, size: map<int, nat>, bs: seq<Block>, base: int, brk: int, got: iset<int>)
    requires LiveOk(live, size, bs, base, brk) && Accounted(got, bs, live)
    ensures got - (iset x | InLive(live, x)) == iset x | InFree(bs, x)
  {
    assert forall i, a :: 0 <= i < |bs| && a in live ==> Apart(bs[i], Block(a, live[a]));
  }
}
