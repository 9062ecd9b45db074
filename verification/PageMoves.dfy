/**
 How the operations of vm.c and kalloc.c move page frames: the free list, the mappings and owners
 before and after, and how such steps compose.
 */
module PageMoves {
  import opened PageTables

  /** Physical memory in pages (PHYSTOP), and the pages below KERNLINK and of the devices. */
  const PHYSTOP := 0xE000
  const EXTMEM := 0x100
  const DEVSPACE := 0xF_E000
  /** A directory, 56 tables for physical memory and 8 for the devices. */
  const KERNEL_FRAMES := 65

  function RoundUp(sz: nat): (n: nat)
    ensures forall a: nat {:trigger a * PGSIZE} :: a < n <==> a * PGSIZE < sz
  {
    (sz + PGSIZE - 1) / PGSIZE
  }

  function Clear(): (page: seq<Word>)
    ensures Cleared(page)
  {
    seq(NPT, _ => ZERO)
  }

  /** kfree's filler, with the link to the next free page on top. */
  function Junk(next: int): (page: seq<Word>)
    ensures |page| == NPT && page[0] == Word(next, 0)
  {
    seq(NPT, _ => Word(0x1010, 0x101))[0 := Word(next, 0)]
  }

  function OrPresent(perm: int): (flags: int)
    ensures Present(Word(0, flags)) && (Present(Word(0, perm)) ==> flags == perm)
  {
    if perm % 2 == 1 then perm else perm + 1
  }

  // The free list.

  function Link(free: seq<int>, k: int): int {
    if 0 <= k < |free| then free[k] else 0
  }

  ghost predicate OnList(ram: Ram, owner: seq<Owner>, free: seq<int>, k: int)
    requires 0 <= k < |free| && |ram| == |owner| && Shape(ram)
  {
    0 < free[k] < |owner| && owner[free[k]] == Free && ram[free[k]][0] == Word(Link(free, k + 1), 0)
  }

  /** The list starting at `head` holds each free frame once. */
  ghost predicate FreeOk(ram: Ram, owner: seq<Owner>, free: seq<int>, head: int) {
    && |ram| == |owner| && Shape(ram) && head == Link(free, 0)
    && (forall k :: 0 <= k < |free| ==> OnList(ram, owner, free, k))
    && (forall a, b :: 0 <= a < b < |free| ==> free[a] != free[b])
    && (forall f :: 0 <= f < |owner| && owner[f] == Free ==> f in free)
  }

  /** The list survives changes to frames that are not on it. */
  lemma FreeKept(ram: Ram, owner: seq<Owner>, ram': Ram, owner': seq<Owner>, free: seq<int>, head: int)
    requires FreeOk(ram, owner, free, head) && |ram'| == |ram| == |owner'| && Shape(ram')
    requires forall f :: 0 <= f < |owner| ==> (owner'[f] == Free <==> owner[f] == Free)
    requires forall f :: 0 <= f < |owner| && owner[f] == Free ==> ram'[f] == ram[f]
    ensures FreeOk(ram', owner', free, head)
  {
    forall k | 0 <= k < |free| ensures OnList(ram', owner', free, k) {
      assert OnList(ram, owner, free, k);
    }
  }

  lemma FreePop(ram: Ram, owner: seq<Owner>, free: seq<int>, head: int)
    requires FreeOk(ram, owner, free, head) && head != 0
    ensures 0 < head < |owner| && owner[head] == Free && |free| > 0
    ensures FreeOk(ram, owner[head := Other], free[1..], ram[head][0].addr)
  {
    assert OnList(ram, owner, free, 0);
    var free', owner' := free[1..], owner[head := Other];
    forall k | 0 <= k < |free'| ensures OnList(ram, owner', free', k) {
      assert OnList(ram, owner, free, k + 1);
      assert free'[k] == free[k + 1] && Link(free', k + 1) == Link(free, k + 2);
    }
    forall f | 0 <= f < |owner| && owner'[f] == Free ensures f in free' {
      assert f in free;
    }
  }

  lemma FreeNone(ram: Ram, owner: seq<Owner>, free: seq<int>)
    requires FreeOk(ram, owner, free, 0)
    ensures free == [] && forall f :: 0 <= f < |owner| ==> owner[f] != Free
  {
    forall k | 0 <= k < |free| ensures free[k] > 0 {
      assert OnList(ram, owner, free, k);
    }
  }

  lemma FreePush(ram: Ram, owner: seq<Owner>, free: seq<int>, head: int, f: int)
    requires FreeOk(ram, owner, free, head) && 0 < f < |owner| && owner[f] != Free
    ensures FreeOk(ram[f := Junk(head)], owner[f := Free], [f] + free, f)
  {
    hide Junk;
    var ram', owner', free' := ram[f := Junk(head)], owner[f := Free], [f] + free;
    forall k | 0 <= k < |free'| ensures OnList(ram', owner', free', k) {
      if k > 0 {
        assert OnList(ram, owner, free, k - 1);
        assert free'[k] == free[k - 1] && Link(free', k + 1) == Link(free, k);
      }
    }
    forall a, b | 0 <= a < b < |free'| ensures free'[a] != free'[b] {
      assert OnList(ram, owner, free, b - 1);
    }
    forall g | 0 <= g < |owner| && owner'[g] == Free ensures g in free' {
      if g == f {
        assert free'[0] == f;
      } else {
        assert g in free;
      }
    }
  }

  /** The list is as long as there are free frames. */
  lemma FreeSize(ram: Ram, owner: seq<Owner>, free: seq<int>, head: int)
    requires FreeOk(ram, owner, free, head)
    ensures |free| == |set f | 0 <= f < |owner| && owner[f] == Free|
  {
    var fs := set f | 0 <= f < |owner| && owner[f] == Free;
    forall k | 0 <= k < |free| ensures free[k] in fs {
      assert OnList(ram, owner, free, k);
    }
    assert forall f :: f in free ==> f in fs;
    ListSize(free, fs);
  }

  lemma {:induction false} ListSize(free: seq<int>, fs: set<int>)
    requires (forall a, b :: 0 <= a < b < |free| ==> free[a] != free[b]) && (forall f :: f in free <==> f in fs)
    ensures |free| == |fs|
    decreases |free|
  {
    if free == [] {
      forall f ensures f !in fs {
        assert f in free <==> f in fs;
      }
    } else {
      var n := |free| - 1;
      forall f ensures f in free[..n] <==> f in fs - {free[n]} {
        if f in free[..n] {
          var k :| 0 <= k < n && free[..n][k] == f;
          assert free[k] == f;
        }
      }
      ListSize(free[..n], fs - {free[n]});
      assert free[n] in fs;
    }
  }

  // Counting page tables.

  /** How many of the entries lo..hi of a directory have no table. */
  ghost function Lacks(dir: seq<Word>, lo: int, hi: int): nat
    requires |dir| == NPT && 0 <= lo && hi <= NPT
    decreases hi - lo
  {
    if lo >= hi then 0 else Lacks(dir, lo, hi - 1) + if Present(dir[hi - 1]) then 0 else 1
  }

  lemma {:induction false} LacksNone(dir: seq<Word>, lo: int, hi: int)
    requires |dir| == NPT && 0 <= lo && hi <= NPT && forall k :: lo <= k < hi ==> Present(dir[k])
    ensures Lacks(dir, lo, hi) == 0
    decreases hi - lo
  {
    if lo < hi {
      LacksNone(dir, lo, hi - 1);
    }
  }

  lemma {:induction false} LacksAll(dir: seq<Word>, lo: int, hi: int)
    requires |dir| == NPT && 0 <= lo <= hi <= NPT && forall k :: lo <= k < hi ==> !Present(dir[k])
    ensures Lacks(dir, lo, hi) == hi - lo
    decreases hi - lo
  {
    if lo < hi {
      LacksAll(dir, lo, hi - 1);
    }
  }

  lemma {:induction false} LacksSome(dir: seq<Word>, lo: int, hi: int, k: int)
    requires |dir| == NPT && 0 <= lo <= k < hi <= NPT && !Present(dir[k])
    ensures Lacks(dir, lo, hi) > 0
    decreases hi - lo
  {
    if k < hi - 1 {
      LacksSome(dir, lo, hi - 1, k);
    }
  }

  lemma {:induction false} LacksSplit(dir: seq<Word>, lo: int, mid: int, hi: int)
    requires |dir| == NPT && 0 <= lo <= mid <= hi <= NPT
    ensures Lacks(dir, lo, hi) == Lacks(dir, lo, mid) + Lacks(dir, mid, hi)
    decreases hi - mid
  {
    if mid < hi {
      LacksSplit(dir, lo, mid, hi - 1);
    }
  }

  lemma {:induction false} LacksSame(dir: seq<Word>, dir': seq<Word>, lo: int, hi: int)
    requires |dir| == |dir'| == NPT && 0 <= lo && hi <= NPT && forall k :: lo <= k < hi ==> dir'[k] == dir[k]
    ensures Lacks(dir', lo, hi) == Lacks(dir, lo, hi)
    decreases hi - lo
  {
    if lo < hi {
      LacksSame(dir, dir', lo, hi - 1);
    }
  }

  /** Of `n` free frames `n'` are left, and each of the others is the table of an entry in lo..hi that had none. */
  ghost predicate Spent(dir: seq<Word>, n: int, dir': seq<Word>, n': int, lo: int, hi: int) {
    && |dir| == |dir'| == NPT && 0 <= lo <= hi <= NPT
    && (forall k :: 0 <= k < NPT && !(lo <= k < hi) ==> dir'[k] == dir[k])
    && (forall k :: 0 <= k < NPT && Present(dir[k]) ==> Present(dir'[k]))
    && n - n' == Lacks(dir, lo, hi) - Lacks(dir', lo, hi)
  }

  lemma SpentNothing(dir: seq<Word>, n: int, lo: int, hi: int)
    requires |dir| == NPT && 0 <= lo <= hi <= NPT
    ensures Spent(dir, n, dir, n, lo, hi)
  {
  }

  /** One table made. */
  lemma SpentOne(dir: seq<Word>, n: int, k: int, w: Word)
    requires |dir| == NPT && 0 <= k < NPT && !Present(dir[k]) && Present(w)
    ensures Spent(dir, n, dir[k := w], n - 1, k, k + 1)
  {
    assert Lacks(dir, k, k) == 0 && Lacks(dir[k := w], k, k) == 0;
  }

  lemma SpentWiden(dir: seq<Word>, n: int, dir': seq<Word>, n': int, lo: int, hi: int, lo': int, hi': int)
    requires Spent(dir, n, dir', n', lo, hi) && 0 <= lo' <= lo && hi <= hi' <= NPT
    ensures Spent(dir, n, dir', n', lo', hi')
  {
    hide Lacks;
    LacksSame(dir, dir', lo', lo);
    LacksSame(dir, dir', hi, hi');
    LacksSplit(dir, lo', lo, hi');
    LacksSplit(dir', lo', lo, hi');
    LacksSplit(dir, lo, hi, hi');
    LacksSplit(dir', lo, hi, hi');
  }

  lemma SpentMore(dir0: seq<Word>, n0: int, dir1: seq<Word>, n1: int, dir: seq<Word>, n: int, lo: int, hi: int,
                  lo1: int, hi1: int)
    requires Spent(dir0, n0, dir1, n1, lo, hi) && Spent(dir1, n1, dir, n, lo1, hi1) && lo <= lo1 && hi1 <= hi
    ensures Spent(dir0, n0, dir, n, lo, hi)
  {
    hide Lacks;
    SpentWiden(dir1, n1, dir, n, lo1, hi1, lo, hi);
  }

  // Frames.

  ghost predicate Lasting(owner0: seq<Owner>, owner: seq<Owner>, f: int, d: int)
    requires |owner0| == |owner| && 0 <= f < |owner|
  {
    owner[f] == owner0[f] && owner0[f] != Free && !(Structural(owner0[f]) && OwnedBy(owner0, f, d))
  }

  /** Pages with a lasting owner, other than `d`'s tables, keep their contents. */
  ghost predicate Kept(owner0: seq<Owner>, ram0: Ram, owner: seq<Owner>, ram: Ram, d: int)
    requires |owner0| == |ram0| == |owner| == |ram|
  {
    forall f :: 0 <= f < |owner| && Lasting(owner0, owner, f, d) ==> ram[f] == ram0[f]
  }

  /** Page `v` of `d` is a copy of page `v` of `p`, on a frame that was free. */
  ghost predicate Copies(owner0: seq<Owner>, ram0: Ram, ram: Ram, p: int, d: int, v: int)
    requires |owner0| == |ram0| == |ram| && Shape(ram0) && Shape(ram) && 0 <= p < |ram| && 0 <= d < |ram|
    requires 0 <= v < VPAGES
  {
    var w := Pte(ram0, p, v);
    0 <= w.addr < |ram0| && owner0[w.addr] == User(p, v) && Holds(owner0, ram, d, v, ram0[w.addr], w.flags)
  }

  lemma SpaceDirs(owner0: seq<Owner>, owner: seq<Owner>, d: int, p: int)
    requires NewSpace(owner0, owner, d) && IsDir(owner0, p)
    ensures IsDir(owner, p) && p != d && IsDir(owner, d)
  {
  }

  /** A page that could not be mapped leaves the frames in use alone. */
  lemma FailedKept(owner0: seq<Owner>, ram0: Ram, owner: seq<Owner>, ram1: Ram, ram: Ram, d: int)
    requires |owner0| == |ram0| == |owner| == |ram1| == |ram|
    requires NewSpace(owner0, owner, d) && NonFreeKept(owner0, ram0, ram1) && NonFreeKept(owner, ram1, ram)
    ensures NonFreeKept(owner0, ram0, ram)
  {
    forall f | 0 <= f < |owner| && owner0[f] != Free ensures ram[f] == ram0[f] {
      assert !OwnedBy(owner, f, d);
    }
  }

  lemma BackKept(owner: seq<Owner>, ram0: Ram, ram1: Ram, ram: Ram, mem: int)
    requires |owner| == |ram0| == |ram1| == |ram| && NonFreeKept(owner, ram0, ram1) && 0 <= mem < |owner|
    requires owner[mem] == Free
    requires forall g :: 0 <= g < |owner| && g != mem ==> ram[g] == ram1[g]
    ensures NonFreeKept(owner, ram0, ram)
  {
  }

  lemma FreedKept(owner0: seq<Owner>, ram0: Ram, owner1: seq<Owner>, ram1: Ram, owner: seq<Owner>, ram: Ram, d: int)
    requires |owner0| == |ram0| == |owner1| == |ram1| == |owner| == |ram| && Shape(ram1) && Shape(ram)
    requires NewSpace(owner0, owner1, d) && NonFreeKept(owner0, ram0, ram1) && OthersKept(owner1, ram1, owner, ram, d)
    ensures NonFreeKept(owner0, ram0, ram)
  {
    hide Pte;
    forall f | 0 <= f < |owner| && owner0[f] != Free ensures ram[f] == ram0[f] {
      assert !OwnedBy(owner1, f, d);
    }
  }

  lemma GrewOther(owner0: seq<Owner>, ram0: Ram, owner: seq<Owner>, ram: Ram, d: int, hi: int, v: int)
    requires |owner0| == |ram0| == |owner| == |ram| && Shape(ram0) && Shape(ram) && IsDir(owner0, d) && hi <= v < VPAGES
    requires 0 <= v
    requires Grew(owner0, ram0, owner, ram, d, 0, hi)
    ensures Pte(ram, d, v) == Pte(ram0, d, v)
  {
  }

  lemma SpaceGrewPage(owner0: seq<Owner>, ram0: Ram, owner1: seq<Owner>, ram1: Ram, owner: seq<Owner>, ram: Ram, d: int,
                      i: int)
    requires |owner0| == |ram0| == |owner1| == |ram1| == |owner| == |ram| && Shape(ram1) && Shape(ram)
    requires NewSpace(owner0, owner1, d) && NonFreeKept(owner0, ram0, ram1)
    requires Grew(owner1, ram1, owner, ram, d, i, i + 1)
    ensures NewSpace(owner0, owner, d) && NonFreeKept(owner0, ram0, ram)
  {
    hide Pte;
    forall f | 0 <= f < |owner| && owner0[f] != Free ensures ram[f] == ram0[f] {
      assert !OwnedBy(owner1, f, d);
      assert Lasting(owner1, owner, f, d);
    }
  }

  /** One more page copied. */
  lemma CopiedMore(owner0: seq<Owner>, ram0: Ram, owner1: seq<Owner>, ram1: Ram, owner: seq<Owner>, ram: Ram, p: int,
                   d: int, i: int)
    requires |owner0| == |ram0| == |owner1| == |ram1| == |owner| == |ram| && Shape(ram0) && Shape(ram)
    requires Inv(ram1, owner1) && IsDir(owner0, p) && 0 <= i < KPAGES
    requires NewSpace(owner0, owner1, d) && NonFreeKept(owner0, ram0, ram1)
    requires Grew(owner1, ram1, owner, ram, d, i, i + 1)
    requires Present(Pte(ram0, p, i)) && Points(owner0, Pte(ram0, p, i), User(p, i))
    requires Holds(owner1, ram, d, i, ram1[Pte(ram0, p, i).addr], Pte(ram0, p, i).flags)
    requires forall v :: 0 <= v < i ==> v < KPAGES && Copies(owner0, ram0, ram1, p, d, v)
    ensures NewSpace(owner0, owner, d) && NonFreeKept(owner0, ram0, ram) && IsDir(owner, p) && IsDir(owner, d)
    ensures forall v :: 0 <= v < i + 1 ==> v < KPAGES && Copies(owner0, ram0, ram, p, d, v)
  {
    SpaceGrewPage(owner0, ram0, owner1, ram1, owner, ram, d, i);
    SpaceDirs(owner0, owner, d, p);
    hide Pte, Grew, Inv;
    forall v | 0 <= v < i + 1 ensures v < KPAGES && Copies(owner0, ram0, ram, p, d, v) {
      var w := Pte(ram0, p, v);
      if v < i {
        assert Copies(owner0, ram0, ram1, p, d, v);
        HoldsKept(owner0, owner1, ram1, owner, ram, d, v, i, ram0[w.addr], w.flags);
      }
    }
  }

  /** Pages lo..hi of `d` are new, on frames that were free; nothing else is mapped differently. */
  ghost predicate Grew(owner0: seq<Owner>, ram0: Ram, owner: seq<Owner>, ram: Ram, d: int, lo: int, hi: int)
    requires |owner0| == |ram0| == |owner| == |ram| && Shape(ram0) && Shape(ram)
  {
    && (forall e, u :: IsDir(owner0, e) && 0 <= u < VPAGES && !(e == d && lo <= u < hi) ==>
         Pte(ram, e, u) == Pte(ram0, e, u))
    && (forall f :: 0 <= f < |owner| ==> owner[f] == owner0[f] || (owner0[f] == Free && NewOwner(owner[f], d, lo, hi)))
    && Kept(owner0, ram0, owner, ram, d)
  }

  ghost predicate NewOwner(o: Owner, d: int, lo: int, hi: int) {
    (o.Table? && o.d == d) || (o.User? && o.d == d && lo <= o.v < hi)
  }

  /** Page `v` of `d` lies on a frame that was free and has these contents and flags. */
  ghost predicate Holds(owner0: seq<Owner>, ram: Ram, d: int, v: int, page: seq<Word>, flags: int)
    requires |owner0| == |ram| && Shape(ram) && 0 <= d < |ram| && 0 <= v < VPAGES
  {
    var w := Pte(ram, d, v);
    Present(w) && w.flags == flags && 0 <= w.addr < |ram| && owner0[w.addr] == Free && ram[w.addr] == page
  }

  lemma GrewOne(owner0: seq<Owner>, ram0: Ram, owner1: seq<Owner>, ram1: Ram, owner: seq<Owner>, ram: Ram, d: int,
                v: int, mem: int, page: seq<Word>, flags: int)
    requires |owner0| == |ram0| == |owner1| == |ram1| == |owner| == |ram| && Shape(ram0) && Shape(ram1) && Shape(ram)
    requires IsDir(owner0, d) && 0 <= v < KPAGES && 0 <= mem < |owner| && owner0[mem] == Free && |page| == NPT
    requires Present(Word(0, flags))
    requires owner1 == owner0[mem := Other] && ram1 == ram0[mem := page] && SamePtes(owner1, ram0, ram1)
    requires Maps(owner1, ram1, ram, d, v, 1, mem, flags) && GrewTables(owner1, owner, d, mem, 1)
    requires Kept(owner1, ram1, owner, ram, d)
    requires owner[mem] == User(d, v) && ram[mem] == ram1[mem]
    ensures Grew(owner0, ram0, owner, ram, d, v, v + 1) && Holds(owner0, ram, d, v, page, flags)
  {
    hide Pte;
    forall e, u | IsDir(owner0, e) && 0 <= u < VPAGES && !(e == d && v <= u < v + 1)
      ensures Pte(ram, e, u) == Pte(ram0, e, u)
    {
      assert IsDir(owner1, e);
    }
    assert IsDir(owner1, d);
    forall f | 0 <= f < |owner| && Lasting(owner0, owner, f, d) ensures ram[f] == ram0[f] {
      assert Lasting(owner1, owner, f, d);
    }
  }

  /** Frames outside `d` keep their contents, and other directories their mappings. */
  ghost predicate OthersKept(owner0: seq<Owner>, ram0: Ram, owner: seq<Owner>, ram: Ram, d: int)
    requires |owner0| == |ram0| == |owner| == |ram| && Shape(ram0) && Shape(ram)
  {
    && (forall f :: 0 <= f < |owner| && !OwnedBy(owner0, f, d) && owner0[f] != Free ==> ram[f] == ram0[f])
    && (forall e, u :: IsDir(owner0, e) && e != d && 0 <= u < VPAGES ==> Pte(ram, e, u) == Pte(ram0, e, u))
  }

  /** The owners when the tables in slots below `i` have been freed. */
  ghost function FreedTo(owner: seq<Owner>, d: int, i: int): seq<Owner> {
    seq(|owner|, f requires 0 <= f < |owner| =>
      if OwnedBy(owner, f, d) then (if owner[f].Table? && owner[f].i < i then Free else Other) else owner[f])
  }

  lemma OnlyTable(ram: Ram, owner: seq<Owner>, d: int, i: int)
    requires Inv(ram, owner) && IsDir(owner, d) && 0 <= i < NPT && Present(ram[d][i])
    ensures Points(owner, ram[d][i], Table(d, i))
    ensures forall f :: 0 <= f < |owner| && owner[f] == Table(d, i) ==> f == ram[d][i].addr
  {
    assert PdeOk(ram, owner, d, i);
    forall f | 0 <= f < |owner| && owner[f] == Table(d, i) ensures f == ram[d][i].addr {
      assert OwnerOk(ram, owner, f);
    }
  }

  lemma NoTable(ram: Ram, owner: seq<Owner>, d: int, i: int)
    requires Inv(ram, owner) && IsDir(owner, d) && 0 <= i < NPT && !Present(ram[d][i])
    ensures forall f :: 0 <= f < |owner| ==> owner[f] != Table(d, i)
  {
    forall f | 0 <= f < |owner| ensures owner[f] != Table(d, i) {
      assert OwnerOk(ram, owner, f);
    }
  }

  lemma AllTables(ram: Ram, owner: seq<Owner>)
    requires Inv(ram, owner)
    ensures forall f :: 0 <= f < |owner| && owner[f].Table? ==> 0 <= owner[f].i < NPT
  {
    forall f | 0 <= f < |owner| && owner[f].Table? ensures 0 <= owner[f].i < NPT {
      assert OwnerOk(ram, owner, f);
    }
  }

  lemma UserPagesBelow(ram: Ram, owner: seq<Owner>)
    requires Inv(ram, owner)
    ensures RoundUp(0) == 0 && RoundUp(KERNBASE) == KPAGES
    ensures forall f :: 0 <= f < |owner| && owner[f].User? ==> 0 <= owner[f].v < KPAGES
  {
    forall f | 0 <= f < |owner| && owner[f].User? ensures 0 <= owner[f].v < KPAGES {
      assert OwnerOk(ram, owner, f);
    }
  }

  lemma RoundUpOrder(oldsz: nat, newsz: nat)
    requires oldsz <= KERNBASE
    ensures RoundUp(oldsz) <= KPAGES
    ensures if newsz >= oldsz then RoundUp(newsz) >= RoundUp(oldsz) else RoundUp(newsz) <= RoundUp(oldsz)
    ensures newsz <= KERNBASE ==> RoundUp(newsz) <= KPAGES
  {
  }

  lemma RoundUpAt(sz: nat, a: nat)
    ensures a < RoundUp(sz) <==> a * PGSIZE < sz
  {
  }

  /** No table, no pages in all of its range. */
  lemma SkipTable(ram: Ram, owner: seq<Owner>, d: int, a: int, b: int)
    requires Inv(ram, owner) && IsDir(owner, d) && 0 <= a < b <= KPAGES && b <= (Pdx(a) + 1) * NPT
    requires !Present(ram[d][Pdx(a)])
    ensures Unmaps(owner, ram, ram, d, a, b) && owner == Released(owner, d, a, b) && Kept(owner, ram, owner, ram, d)
  {
    forall u | a <= u < b ensures Pte(ram, d, u) == ZERO {
      assert Pdx(u) == Pdx(a);
    }
    hide Pte;
    forall f | 0 <= f < |owner| && owner[f].User? && owner[f].d == d ensures !(a <= owner[f].v < b) {
      assert OwnerOk(ram, owner, f);
    }
    assert owner == Released(owner, d, a, b);
  }

  lemma UnmapsNothing(owner: seq<Owner>, ram: Ram, d: int, lo: int, hi: int)
    requires |owner| == |ram| && Shape(ram)
    ensures lo >= hi ==> Unmaps(owner, ram, ram, d, lo, hi) && owner == Released(owner, d, lo, hi)
    ensures Kept(owner, ram, owner, ram, d)
  {
  }

  lemma UnmapsMore(owner0: seq<Owner>, ram0: Ram, owner1: seq<Owner>, ram1: Ram, owner: seq<Owner>, ram: Ram, d: int,
                   lo: int, a: int, b: int)
    requires |owner0| == |ram0| == |owner1| == |ram1| == |owner| == |ram| && Shape(ram0) && Shape(ram1) && Shape(ram)
    requires lo <= a <= b
    requires Unmaps(owner0, ram0, ram1, d, lo, a) && Unmaps(owner1, ram1, ram, d, a, b)
    requires owner1 == Released(owner0, d, lo, a) && owner == Released(owner1, d, a, b)
    requires Kept(owner0, ram0, owner1, ram1, d) && Kept(owner1, ram1, owner, ram, d)
    ensures Unmaps(owner0, ram0, ram, d, lo, b) && owner == Released(owner0, d, lo, b)
    ensures Kept(owner0, ram0, owner, ram, d) && (forall e :: IsDir(owner0, e) ==> IsDir(owner, e))
  {
    hide Pte;
    assert forall e :: IsDir(owner0, e) ==> IsDir(owner1, e);
  }

  /** Pages lo..hi of `d` are gone; nothing else is mapped differently. */
  ghost predicate Unmaps(owner: seq<Owner>, ram0: Ram, ram: Ram, d: int, lo: int, hi: int)
    requires |owner| == |ram0| == |ram| && Shape(ram0) && Shape(ram)
  {
    forall e, u :: IsDir(owner, e) && 0 <= u < VPAGES ==>
      Pte(ram, e, u) == if e == d && lo <= u < hi && Present(Pte(ram0, e, u)) then ZERO else Pte(ram0, e, u)
  }

  /** Frames of the user pages lo..hi of `d` are free. */
  ghost function Released(owner: seq<Owner>, d: int, lo: int, hi: int): seq<Owner> {
    seq(|owner|, f requires 0 <= f < |owner| =>
      if owner[f].User? && owner[f].d == d && lo <= owner[f].v < hi then Free else owner[f])
  }

  lemma OnlyOwner(ram: Ram, owner: seq<Owner>, d: int, v: int)
    requires Inv(ram, owner) && IsDir(owner, d) && 0 <= v < KPAGES && Present(Pte(ram, d, v))
    ensures Points(owner, Pte(ram, d, v), User(d, v))
    ensures forall f :: 0 <= f < |owner| && owner[f] == User(d, v) ==> f == Pte(ram, d, v).addr
  {
    assert PteOk(ram, owner, d, v);
    forall f | 0 <= f < |owner| && owner[f] == User(d, v) ensures f == Pte(ram, d, v).addr {
      assert OwnerOk(ram, owner, f);
    }
  }

  lemma NoOwner(ram: Ram, owner: seq<Owner>, d: int, v: int)
    requires Inv(ram, owner) && IsDir(owner, d) && 0 <= v < VPAGES && !Present(Pte(ram, d, v))
    ensures forall f :: 0 <= f < |owner| ==> owner[f] != User(d, v)
  {
    forall f | 0 <= f < |owner| ensures owner[f] != User(d, v) {
      assert OwnerOk(ram, owner, f);
    }
  }

  datatype MapResult = Mapped | NoMemory | Remap

  /** `d` maps `n` pages from `v` on to the frames from `pfn` on; nothing else is mapped differently. */
  ghost predicate Maps(owner: seq<Owner>, ram0: Ram, ram: Ram, d: int, v: int, n: int, pfn: int, flags: int)
    requires |owner| == |ram0| == |ram| && Shape(ram0) && Shape(ram)
  {
    forall e, u :: IsDir(owner, e) && 0 <= u < VPAGES ==>
      Pte(ram, e, u) == if e == d && v <= u < v + n then Word(pfn + (u - v), flags) else Pte(ram0, e, u)
  }

  /** Free frames became tables of `d`; all other owners but those of `c` frames from `x` on are as before. */
  ghost predicate GrewTables(owner0: seq<Owner>, owner: seq<Owner>, d: int, x: int, c: int)
    requires |owner0| == |owner|
  {
    forall f :: 0 <= f < |owner| && !(x <= f < x + c) ==>
      owner[f] == owner0[f] || (owner0[f] == Free && owner[f].Table? && owner[f].d == d)
  }

  /** An entry that is present has a table. */
  lemma EntryAt(ram: Ram, owner: seq<Owner>, d: int, v: int)
    requires Inv(ram, owner) && IsDir(owner, d) && 0 <= v < VPAGES
    ensures Present(Pte(ram, d, v)) ==> Present(ram[d][Pdx(v)])
  {
  }

  lemma TableAt(ram: Ram, owner: seq<Owner>, d: int, v: int)
    requires Inv(ram, owner) && IsDir(owner, d) && 0 <= v < VPAGES && Present(ram[d][Pdx(v)])
    ensures var t := ram[d][Pdx(v)].addr;
            HasTable(ram, owner, d, v, t) && owner[t] == Table(d, Pdx(v)) && Pte(ram, d, v) == ram[t][Ptx(v)]
            && Writable(ram[d][Pdx(v)]) && ForUser(ram[d][Pdx(v)])
  {
    assert PdeOk(ram, owner, d, Pdx(v));
  }

  /** How many of `n` pages from `v` on are user pages. */
  function UserPages(v: int, n: int): int {
    if v >= KPAGES then 0 else if v + n <= KPAGES then n else KPAGES - v
  }

  /** Of `c` frames from `pfn` on, the first `m` are user pages of `d` from `v` on, and the others are the caller's. */
  ghost predicate Claimed(owner: seq<Owner>, d: int, v: int, pfn: int, m: int, c: int) {
    0 < c ==> 0 <= pfn && pfn + c <= |owner|
              && forall f :: pfn <= f < pfn + c ==> owner[f] == if f - pfn < m then User(d, v + (f - pfn)) else Other
  }

  lemma MapsNothing(owner: seq<Owner>, ram: Ram, d: int, v: int, pfn: int, flags: int, c: int)
    requires |owner| == |ram| && Shape(ram)
    ensures Maps(owner, ram, ram, d, v, 0, pfn, flags) && GrewTables(owner, owner, d, pfn, c)
    ensures Kept(owner, ram, owner, ram, d)
  {
  }

  /** The page after those mapped so far is as it was. */
  /** One entry stored in a table maps that one page. */
  lemma MapsOne(owner0: seq<Owner>, ram0: Ram, owner: seq<Owner>, ram: Ram, d: int, v: int, t: int, w: Word)
    requires |owner0| == |ram0| == |ram| && Shape(ram0) && Inv(ram, owner) && HasTable(ram, owner, d, v, t)
    requires SamePtes(owner0, ram0, ram) && forall e :: IsDir(owner0, e) ==> IsDir(owner, e)
    ensures Shape(PutWord(ram, t, Ptx(v), w))
    ensures Maps(owner0, ram0, PutWord(ram, t, Ptx(v), w), d, v, 1, w.addr, w.flags)
  {
    hide Pte;
    var ram' := PutWord(ram, t, Ptx(v), w);
    forall e, u | IsDir(owner0, e) && 0 <= u < VPAGES
      ensures Shape(ram') && Pte(ram', e, u) == if e == d && u == v then w else Pte(ram0, e, u)
    {
      PutPte(ram, owner, d, v, t, w, e, u);
    }
  }

  lemma MapsEntry(owner: seq<Owner>, ram0: Ram, ram: Ram, d: int, v: int, m: int, pfn: int, flags: int)
    requires |owner| == |ram0| == |ram| && Shape(ram0) && Shape(ram) && Maps(owner, ram0, ram, d, v, m, pfn, flags)
    requires IsDir(owner, d) && 0 <= v + m < VPAGES
    ensures Pte(ram, d, v + m) == Pte(ram0, d, v + m)
  {
  }

  lemma MapsMore(owner0: seq<Owner>, ram0: Ram, owner1: seq<Owner>, ram1: Ram, owner: seq<Owner>, ram: Ram,
                 d: int, v: int, m: int, pfn: int, flags: int, c: int)
    requires |owner0| == |ram0| == |owner1| == |ram1| == |owner| == |ram| && Shape(ram0) && Shape(ram1) && Shape(ram)
    requires m >= 0
    requires Maps(owner0, ram0, ram1, d, v, m, pfn, flags) && Maps(owner1, ram1, ram, d, v + m, 1, pfn + m, flags)
    requires GrewTables(owner0, owner1, d, pfn, c) && GrewTables(owner1, owner, d, pfn + m, if m < c then 1 else 0)
    requires Claimed(owner0, d, v, pfn, 0, c) && Claimed(owner1, d, v, pfn, m, c)
    requires (m < c ==> owner[pfn + m] == User(d, v + m))
    requires Kept(owner0, ram0, owner1, ram1, d) && Kept(owner1, ram1, owner, ram, d)
    ensures Maps(owner0, ram0, ram, d, v, m + 1, pfn, flags) && GrewTables(owner0, owner, d, pfn, c)
    ensures Claimed(owner, d, v, pfn, m + 1, c)
    ensures Kept(owner0, ram0, owner, ram, d) && (forall e :: IsDir(owner0, e) ==> IsDir(owner, e))
  {
    hide Pte;
    forall e | IsDir(owner0, e) ensures IsDir(owner1, e) && IsDir(owner, e) {
    }
    forall f | 0 <= f < |owner| && Lasting(owner0, owner, f, d) ensures ram[f] == ram0[f] {
      assert Lasting(owner0, owner1, f, d) && Lasting(owner1, owner, f, d);
    }
  }

  lemma ClaimedAt(owner: seq<Owner>, d: int, v: int, pfn: int, m: int, c: int)
    requires Claimed(owner, d, v, pfn, m, c) && 0 <= m < c
    ensures 0 <= pfn + m < |owner| && owner[pfn + m] == Other
  {
  }

  /** Frames that were the caller's keep their contents, mapped or not. */
  lemma OthersData(owner0: seq<Owner>, ram0: Ram, owner1: seq<Owner>, ram1: Ram, owner: seq<Owner>, ram: Ram, d: int,
                   v: int, m: int, pfn: int, c: int)
    requires |owner0| == |ram0| == |owner1| == |ram1| == |owner| == |ram| && m >= 0
    requires GrewTables(owner0, owner1, d, pfn, c) && GrewTables(owner1, owner, d, pfn + m, if m < c then 1 else 0)
    requires Claimed(owner1, d, v, pfn, m, c) && Kept(owner1, ram1, owner, ram, d)
    requires forall f :: 0 <= f < |owner| && owner0[f] == Other ==> ram1[f] == ram0[f]
    requires forall f :: 0 <= f < |owner| && owner1[f] == Other ==> ram[f] == ram1[f]
    ensures forall f :: 0 <= f < |owner| && owner0[f] == Other ==> ram[f] == ram0[f]
  {
    forall f | 0 <= f < |owner| && owner0[f] == Other ensures ram[f] == ram1[f] {
      if owner1[f] != Other {
        assert Lasting(owner1, owner, f, d);
      }
    }
  }

  lemma SpentCount(dir: seq<Word>, n: int, dir': seq<Word>, n': int, k: int)
    requires Spent(dir, n, dir', n', k, k + 1)
    ensures n - n' == Lacks(dir, k, k + 1) - Lacks(dir', k, k + 1) && Lacks(dir', k, k + 1) <= 1
    ensures Lacks(dir', k, k + 1) == 0 <==> Present(dir'[k])
  {
    assert Lacks(dir', k, k) == 0;
  }

  /** The frames that `hi - lo` new pages from `lo` on take: themselves and the tables they lack. */
  ghost function FramesFor(dir: seq<Word>, lo: int, hi: int): int
    requires |dir| == NPT && 0 <= lo <= hi <= KPAGES
  {
    if lo == hi then 0 else PdxOrder(lo, hi - 1); hi - lo + Lacks(dir, Pdx(lo), Pdx(hi - 1) + 1)
  }

  lemma OutOfFrames(dir0: seq<Word>, n0: int, dir: seq<Word>, n: int, lo: int, hi: int, k: int)
    requires Spent(dir0, n0, dir, n, lo, hi) && lo <= k < hi && n <= Lacks(dir, k, k + 1)
    ensures n0 <= Lacks(dir0, lo, hi)
  {
    hide Lacks;
    LacksSplit(dir, lo, k, hi);
    LacksSplit(dir, k, k + 1, hi);
  }

  lemma SpentAll(dir0: seq<Word>, n0: int, dir: seq<Word>, n: int, lo: int, hi: int)
    requires Spent(dir0, n0, dir, n, lo, hi) && forall k :: lo <= k < hi ==> Present(dir[k])
    ensures n == n0 - Lacks(dir0, lo, hi)
  {
    LacksNone(dir, lo, hi);
  }

  lemma NoClaim(owner: seq<Owner>, d: int, v: int, pfn: int, n: int)
    requires v >= KPAGES
    ensures UserPages(v, n) == 0 && Claimed(owner, d, v, pfn, 0, 0)
  {
  }

  lemma GrewNoUsers(owner0: seq<Owner>, owner: seq<Owner>, d: int, x: int)
    requires |owner0| == |owner| && GrewTables(owner0, owner, d, x, 0)
    ensures GrewTables(owner0, owner, d, 0, 0)
  {
  }

  lemma DirSize(ram: Ram, owner: seq<Owner>, d: int)
    requires Inv(ram, owner) && IsDir(owner, d)
    ensures |ram| == |owner| && Shape(ram) && |ram[d]| == NPT
  {
  }

  /** The first of `n` pages of `p` that is not present, or `n`. */
  ghost function FirstGap(ram: Ram, p: int, n: int): (g: int)
    requires Shape(ram) && 0 <= p < |ram| && 0 <= n <= KPAGES
    ensures 0 <= g <= n && (forall v :: 0 <= v < g ==> Present(Pte(ram, p, v))) && (g < n ==> !Present(Pte(ram, p, g)))
    decreases n
  {
    if n == 0 then 0
    else
      var g := FirstGap(ram, p, n - 1);
      if g < n - 1 || !Present(Pte(ram, p, n - 1)) then g else n
  }

  lemma GapAt(ram: Ram, p: int, n: int, i: int)
    requires Shape(ram) && 0 <= p < |ram| && 0 <= n <= KPAGES && 0 <= i < n && i <= FirstGap(ram, p, n)
    ensures Present(Pte(ram, p, i)) <==> i < FirstGap(ram, p, n)
  {
  }

  /** What copying the first `m` pages takes: a kernel directory, the pages and a table for every 1024 of them. */
  function CopyFrames(m: int): int {
    KERNEL_FRAMES + m + (m + NPT - 1) / NPT
  }

  lemma CopyFramesOrder(m: int, n: int)
    requires 0 <= m
    ensures m <= n ==> CopyFrames(m) <= CopyFrames(n)
    ensures CopyFrames(0) == KERNEL_FRAMES
  {
  }

  /** The next page needs a table exactly at a multiple of 1024. */
  lemma TableLacks(dir: seq<Word>, i: int)
    requires |dir| == NPT && 0 <= i < KPAGES
    requires forall k :: 0 <= k < Pdx(KPAGES) ==> (Present(dir[k]) <==> k * NPT < i)
    ensures CopyFrames(i + 1) == CopyFrames(i) + 1 + Lacks(dir, Pdx(i), Pdx(i) + 1)
  {
    assert Lacks(dir, Pdx(i), Pdx(i)) == 0;
    assert Lacks(dir, Pdx(i), Pdx(i) + 1) == if Present(dir[Pdx(i)]) then 0 else 1;
    assert Present(dir[Pdx(i)]) <==> i % NPT != 0;
  }

  lemma TableMade(dir: seq<Word>, n: int, dir': seq<Word>, n': int, i: int)
    requires 0 <= i < KPAGES && Spent(dir, n, dir', n', Pdx(i), Pdx(i) + 1) && Present(dir'[Pdx(i)])
    requires forall k :: 0 <= k < Pdx(KPAGES) ==> (Present(dir[k]) <==> k * NPT < i)
    ensures n' == n - Lacks(dir, Pdx(i), Pdx(i) + 1)
    ensures forall k :: 0 <= k < Pdx(KPAGES) ==> (Present(dir'[k]) <==> k * NPT < i + 1)
  {
    SpentCount(dir, n, dir', n', Pdx(i));
  }

  lemma PdxOrder(v: int, u: int)
    requires 0 <= v <= u < VPAGES
    ensures Pdx(v) <= Pdx(u)
  {
  }

  lemma PdxNext(v: int)
    requires 0 <= v && v + 1 < VPAGES
    ensures Pdx(v) <= Pdx(v + 1) <= Pdx(v) + 1
  {
  }

  // A new address space.

  ghost predicate NonFreeKept(owner: seq<Owner>, ram0: Ram, ram: Ram)
    requires |owner| == |ram0| == |ram|
  {
    forall f :: 0 <= f < |owner| && owner[f] != Free ==> ram[f] == ram0[f]
  }

  /** `d` is a directory now, and it and all it owns were free frames before. */
  ghost predicate NewSpace(owner0: seq<Owner>, owner: seq<Owner>, d: int) {
    && |owner0| == |owner| && IsDir(owner, d)
    && forall f :: 0 <= f < |owner| ==> if OwnedBy(owner, f, d) then owner0[f] == Free else owner[f] == owner0[f]
  }

  lemma NotYetOwned(ram: Ram, owner: seq<Owner>, d: int)
    requires Inv(ram, owner) && !IsDir(owner, d)
    ensures forall f :: 0 <= f < |owner| ==> !OwnedBy(owner, f, d)
  {
    forall f | 0 <= f < |owner| ensures !OwnedBy(owner, f, d) {
      assert OwnerOk(ram, owner, f);
    }
  }

  lemma SpaceStart(ram: Ram, owner: seq<Owner>, d: int)
    requires Inv(ram, owner) && 0 <= d < |owner| && owner[d] == Free
    ensures var owner' := owner[d := Dir];
            NewSpace(owner, owner', d) && forall f :: 0 <= f < |owner| && OwnedBy(owner', f, d) ==> !owner'[f].User?
  {
    NotYetOwned(ram, owner, d);
    var owner' := owner[d := Dir];
    forall f | 0 <= f < |owner|
      ensures if OwnedBy(owner', f, d) then owner[f] == Free && f == d else owner'[f] == owner[f]
    {
      assert !OwnedBy(owner, f, d);
    }
  }

  lemma SpaceGrew(owner0: seq<Owner>, ram0: Ram, owner1: seq<Owner>, ram1: Ram, owner: seq<Owner>, ram: Ram, d: int)
    requires |owner0| == |ram0| == |owner1| == |ram1| == |owner| == |ram|
    requires NewSpace(owner0, owner1, d) && NonFreeKept(owner0, ram0, ram1)
    requires GrewTables(owner1, owner, d, 0, 0) && Kept(owner1, ram1, owner, ram, d)
    ensures NewSpace(owner0, owner, d) && NonFreeKept(owner0, ram0, ram)
    ensures forall f :: 0 <= f < |owner| && owner[f].User? ==> owner1[f] == owner[f]
  {
    forall f | 0 <= f < |owner| && owner0[f] != Free ensures ram[f] == ram0[f] {
      assert !OwnedBy(owner1, f, d) && owner[f] == owner1[f];
      assert Lasting(owner1, owner, f, d);
    }
  }

  lemma SpaceFreed(owner0: seq<Owner>, owner: seq<Owner>, d: int)
    requires NewSpace(owner0, owner, d)
    ensures Dismantled(owner, d, Free) == owner0
  {
  }

  lemma GrewNothing(owner: seq<Owner>, ram: Ram, d: int, lo: int)
    requires |owner| == |ram| && Shape(ram)
    ensures Grew(owner, ram, owner, ram, d, lo, lo) && Kept(owner, ram, owner, ram, d)
  {
  }

  lemma GrewKept(owner0: seq<Owner>, ram0: Ram, owner: seq<Owner>, ram: Ram, d: int, lo: int, hi: int)
    requires |owner0| == |ram0| == |owner| == |ram| && Shape(ram0) && Shape(ram)
    requires Grew(owner0, ram0, owner, ram, d, lo, hi)
    ensures Kept(owner0, ram0, owner, ram, d)
  {
  }

  lemma GrewEntry(owner0: seq<Owner>, ram0: Ram, owner: seq<Owner>, ram: Ram, d: int, lo: int, a: int)
    requires |owner0| == |ram0| == |owner| == |ram| && Shape(ram0) && Shape(ram) && IsDir(owner0, d) && 0 <= a < VPAGES
    requires Grew(owner0, ram0, owner, ram, d, lo, a)
    ensures Pte(ram, d, a) == Pte(ram0, d, a)
  {
  }

  lemma GrewMore(owner0: seq<Owner>, ram0: Ram, owner1: seq<Owner>, ram1: Ram, owner: seq<Owner>, ram: Ram, d: int,
                 lo: int, a: int)
    requires |owner0| == |ram0| == |owner1| == |ram1| == |owner| == |ram| && Shape(ram0) && Shape(ram1) && Shape(ram)
    requires lo <= a
    requires Grew(owner0, ram0, owner1, ram1, d, lo, a) && Grew(owner1, ram1, owner, ram, d, a, a + 1)
    ensures Grew(owner0, ram0, owner, ram, d, lo, a + 1) && (forall e :: IsDir(owner0, e) ==> IsDir(owner, e))
  {
    hide Pte;
    assert forall e :: IsDir(owner0, e) ==> IsDir(owner1, e);
    forall f | 0 <= f < |owner| && Lasting(owner0, owner, f, d) ensures ram[f] == ram0[f] {
      assert Lasting(owner0, owner1, f, d) && Lasting(owner1, owner, f, d);
    }
  }

  lemma HoldsKept(owner0: seq<Owner>, owner1: seq<Owner>, ram1: Ram, owner: seq<Owner>, ram: Ram, d: int, v: int,
                  a: int, page: seq<Word>, flags: int)
    requires |owner0| == |owner1| == |ram1| == |owner| == |ram| && Shape(ram1) && Shape(ram) && Inv(ram1, owner1)
    requires IsDir(owner1, d) && 0 <= v < KPAGES && v != a && Holds(owner0, ram1, d, v, page, flags)
    requires Grew(owner1, ram1, owner, ram, d, a, a + 1)
    ensures Holds(owner0, ram, d, v, page, flags)
  {
    assert PteOk(ram1, owner1, d, v);
    assert Pte(ram, d, v) == Pte(ram1, d, v);
    assert Lasting(owner1, owner, Pte(ram1, d, v).addr, d);
  }

  lemma HoldsFrom(owner0: seq<Owner>, ram0: Ram, owner1: seq<Owner>, ram1: Ram, ram: Ram, d: int, lo: int, a: int,
                  page: seq<Word>, flags: int)
    requires |owner0| == |ram0| == |owner1| == |ram1| == |ram| && Shape(ram0) && Shape(ram1) && Shape(ram)
    requires 0 <= d < |ram| && 0 <= a < VPAGES
    requires Grew(owner0, ram0, owner1, ram1, d, lo, a) && Holds(owner1, ram, d, a, page, flags)
    ensures Holds(owner0, ram, d, a, page, flags)
  {
  }

  /** allocuvm gives up: the pages mapped so far and the spare frame go, the tables stay. */
  lemma Undone(owner0: seq<Owner>, ram0: Ram, owner1: seq<Owner>, ram1: Ram, owner2: seq<Owner>, ram2: Ram,
               owner3: seq<Owner>, ram3: Ram, owner: seq<Owner>, ram: Ram, d: int, lo: int, a: int, hi: int, mem: int)
    requires |owner0| == |ram0| == |owner1| == |ram1| == |owner2| == |ram2| == |owner3| == |ram3| == |owner| == |ram|
    requires Shape(ram0) && Shape(ram1) && Shape(ram2) && Shape(ram3) && Shape(ram)
    requires Inv(ram0, owner0) && Inv(ram1, owner1) && IsDir(owner0, d) && 0 <= lo <= a <= hi <= KPAGES
    requires Grew(owner0, ram0, owner1, ram1, d, lo, a)
    requires forall v :: lo <= v < a ==> !Present(Pte(ram0, d, v))
    requires mem == 0 || (0 < mem < |owner| && owner1[mem] == Free)
    requires owner2 == (if mem == 0 then owner1 else owner1[mem := Other]) && NonFreeKept(owner1, ram1, ram2)
    requires Unmaps(owner2, ram2, ram3, d, lo, hi) && owner3 == Released(owner2, d, lo, hi)
    requires Kept(owner2, ram2, owner3, ram3, d)
    requires owner == (if mem == 0 then owner3 else owner3[mem := Free]) && SamePtes(owner3, ram3, ram)
    requires forall g :: 0 <= g < |owner| && (mem == 0 || g != mem) ==> ram[g] == ram3[g]
    ensures GrewTables(Released(owner0, d, lo, hi), owner, d, 0, 0) && Unmaps(owner0, ram0, ram, d, lo, hi)
    ensures Kept(owner0, ram0, owner, ram, d)
  {
    var freed := Released(owner0, d, lo, hi);
    forall f | 0 <= f < |owner|
      ensures owner[f] == freed[f] || (freed[f] == Free && owner[f].Table? && owner[f].d == d)
    {
      UndoneOwner(owner0, owner1, owner2, owner, d, lo, a, hi, mem, f);
    }
    forall e, u | IsDir(owner0, e) && 0 <= u < VPAGES
      ensures Pte(ram, e, u) == if e == d && lo <= u < hi && Present(Pte(ram0, e, u)) then ZERO else Pte(ram0, e, u)
    {
      hide Pte;
      assert IsDir(owner1, e) && IsDir(owner2, e) && IsDir(owner3, e);
      assert PteOk(ram0, owner0, e, u) && PteOk(ram1, owner1, e, u);
      PteNonFree(ram1, owner1, ram2, e, u);
    }
    hide Pte;
    forall f | 0 <= f < |owner| && Lasting(owner0, owner, f, d) ensures ram[f] == ram0[f] {
      assert Lasting(owner0, owner1, f, d) && Lasting(owner2, owner3, f, d);
    }
  }

  lemma UndoneOwner(owner0: seq<Owner>, owner1: seq<Owner>, owner2: seq<Owner>, owner: seq<Owner>,
                    d: int, lo: int, a: int, hi: int, mem: int, f: int)
    requires |owner0| == |owner1| == |owner2| == |owner| && 0 <= lo <= a <= hi
    requires 0 <= f < |owner| && (owner1[f] == owner0[f] || (owner0[f] == Free && NewOwner(owner1[f], d, lo, a)))
    requires mem == 0 || (0 < mem < |owner| && owner1[mem] == Free)
    requires owner2 == (if mem == 0 then owner1 else owner1[mem := Other])
    requires owner == (if mem == 0 then Released(owner2, d, lo, hi) else Released(owner2, d, lo, hi)[mem := Free])
    ensures var freed := Released(owner0, d, lo, hi);
            owner[f] == freed[f] || (freed[f] == Free && owner[f].Table? && owner[f].d == d)
  {
  }

  /** Giving up a range without pages changes no mapping and frees no frame. */
  lemma NothingUnmapped(owner: seq<Owner>, ram: Ram, ram': Ram, d: int, lo: int, hi: int)
    requires Inv(ram, owner) && |ram'| == |ram| && Shape(ram') && IsDir(owner, d) && 0 <= lo <= hi <= KPAGES
    requires Unmaps(owner, ram, ram', d, lo, hi) && forall v :: lo <= v < hi ==> !Present(Pte(ram, d, v))
    ensures SamePtes(owner, ram, ram') && Released(owner, d, lo, hi) == owner
  {
    hide Pte;
    forall f | 0 <= f < |owner| ensures !(owner[f].User? && owner[f].d == d && lo <= owner[f].v < hi) {
      assert OwnerOk(ram, owner, f);
    }
  }

  /** Changing free frames changes no mapping. */
  lemma PteNonFree(ram: Ram, owner: seq<Owner>, ram': Ram, d: int, v: int)
    requires Inv(ram, owner) && |ram'| == |ram| && Shape(ram') && NonFreeKept(owner, ram, ram') && IsDir(owner, d)
    requires 0 <= v < VPAGES
    ensures Pte(ram', d, v) == Pte(ram, d, v)
  {
    assert PdeOk(ram, owner, d, Pdx(v));
  }

  // What the mapped pages allow.

  /** `n` pages of `d` from `v` on may be read, and written or used from user mode if `perm` says so. */
  ghost predicate Granted(ram: Ram, d: int, v: int, n: int, perm: int)
    requires Shape(ram) && 0 <= d < |ram| && 0 <= v <= v + n <= VPAGES
  {
    forall u :: v <= u < v + n ==> Allows(ram, d, u) == Access(true, perm / PTE_W % 2 == 1, perm / PTE_U % 2 == 1)
  }

  /** PTE_P does not disturb the other permissions. */
  lemma OrPresentKeeps(pfn: int, perm: int)
    ensures var w := Word(pfn, OrPresent(perm));
            Present(w) && Writable(w) == (perm / PTE_W % 2 == 1) && ForUser(w) == (perm / PTE_U % 2 == 1)
  {
    if perm % 2 == 0 {
      var k := perm / 2;
      assert (perm + 1) / 2 == k && (perm + 1) / 4 == k / 2 && perm / 4 == k / 2;
    }
  }

  lemma MapsGranted(owner0: seq<Owner>, ram0: Ram, owner: seq<Owner>, ram: Ram, d: int, v: int, m: int,
                    pfn: int, perm: int)
    requires |owner0| == |ram0| == |ram| && Shape(ram0) && Inv(ram, owner) && IsDir(owner0, d) && IsDir(owner, d)
    requires 0 <= v <= v + m <= VPAGES && Maps(owner0, ram0, ram, d, v, m, pfn, OrPresent(perm))
    ensures Granted(ram, d, v, m, perm)
  {
    hide Pte, Allows, OrPresent, Present, Writable, ForUser;
    forall u | v <= u < v + m
      ensures Allows(ram, d, u) == Access(true, perm / PTE_W % 2 == 1, perm / PTE_U % 2 == 1)
    {
      AllowsPte(ram, owner, d, u);
      OrPresentKeeps(pfn + (u - v), perm);
      assert Pte(ram, d, u) == Word(pfn + (u - v), OrPresent(perm));
    }
  }

  lemma HoldsGranted(owner0: seq<Owner>, owner: seq<Owner>, ram: Ram, d: int, lo: int, hi: int, page: seq<Word>)
    requires |owner0| == |ram| && Inv(ram, owner) && IsDir(owner, d) && 0 <= lo <= hi <= KPAGES
    requires forall v :: lo <= v < hi ==> Holds(owner0, ram, d, v, page, 7)
    ensures Granted(ram, d, lo, hi - lo, PTE_W + PTE_U)
  {
    hide Pte, Allows;
    forall u | lo <= u < hi ensures Allows(ram, d, u) == Access(true, true, true) {
      AllowsPte(ram, owner, d, u);
      assert Holds(owner0, ram, d, u, page, 7);
    }
  }

  /** A copied page allows what the page it is copied from allows. */
  lemma CopiesAllow(owner0: seq<Owner>, ram0: Ram, owner: seq<Owner>, ram: Ram, p: int, d: int, n: int)
    requires |owner0| == |ram0| == |ram| && Inv(ram0, owner0) && Inv(ram, owner) && IsDir(owner0, p) && IsDir(owner, d)
    requires 0 <= n <= KPAGES && forall v :: 0 <= v < n ==> Copies(owner0, ram0, ram, p, d, v)
    ensures forall v :: 0 <= v < n ==> Allows(ram, d, v) == Allows(ram0, p, v)
  {
    hide Pte, Allows;
    forall v | 0 <= v < n ensures Allows(ram, d, v) == Allows(ram0, p, v) {
      assert Copies(owner0, ram0, ram, p, d, v);
      AllowsPte(ram, owner, d, v);
      AllowsPte(ram0, owner0, p, v);
    }
  }

  /** Pages that were unmapped allow nothing. */
  lemma UnmapsDenied(owner0: seq<Owner>, ram0: Ram, owner: seq<Owner>, ram: Ram, d: int, lo: int, hi: int)
    requires |owner0| == |ram0| == |ram| && Shape(ram0) && Inv(ram, owner) && IsDir(owner0, d) && IsDir(owner, d)
    requires 0 <= lo && hi <= VPAGES && Unmaps(owner0, ram0, ram, d, lo, hi)
    ensures forall v :: lo <= v < hi ==> Allows(ram, d, v) == NO_ACCESS
  {
    hide Pte, Allows;
    forall v | lo <= v < hi ensures Allows(ram, d, v) == NO_ACCESS {
      AllowsPte(ram, owner, d, v);
      assert !Present(Pte(ram, d, v));
    }
  }
}
