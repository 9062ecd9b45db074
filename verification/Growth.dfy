/** The loops of mappages and allocuvm: pages, tables and the frames they take, counted. */
module Growth {
  import opened PageTables
  import opened PageMoves

  /** The first of pages `lo..hi` of `d` that is present, or `hi`. */
  ghost function FirstPresent(ram: Ram, d: int, lo: int, hi: int): (p: int)
    requires Shape(ram) && 0 <= d < |ram| && 0 <= lo <= hi <= KPAGES
    ensures lo <= p <= hi && (forall v :: lo <= v < p ==> !Present(Pte(ram, d, v)))
    ensures (p < hi ==> Present(Pte(ram, d, p)))
    decreases hi - lo
  {
    if lo == hi || Present(Pte(ram, d, lo)) then lo else FirstPresent(ram, d, lo + 1, hi)
  }

  /** One past the last page that the loop comes to, if frames do not run out. */
  function Goal(p: int, hi: int): int { if p < hi then p + 1 else hi }

  function LastTable(lo: int, e: int): int
    requires 0 <= lo < VPAGES && lo <= e <= VPAGES
  {
    if lo < e then Pdx(e - 1) + 1 else Pdx(lo)
  }

  ghost predicate Fresh(ram: Ram, d: int, lo: int, hi: int, p: int)
    requires Shape(ram) && 0 <= d < |ram|
  {
    && 0 <= lo <= p <= hi <= KPAGES
    && (forall v :: lo <= v < p ==> !Present(Pte(ram, d, v))) && (p < hi ==> Present(Pte(ram, d, p)))
  }

  /** Page `a` is next: those before it are new, and `n0 - n` frames went into them and into tables. */
  ghost predicate Growing(owner0: seq<Owner>, ram0: Ram, n0: int, owner: seq<Owner>, ram: Ram, n: int,
                          d: int, lo: int, a: int, hi: int, p: int)
  {
    && |owner0| == |ram0| == |owner| == |ram| && Shape(ram0) && Shape(ram) && IsDir(owner0, d)
    && Fresh(ram0, d, lo, hi, p) && lo <= a <= p
    && Grew(owner0, ram0, owner, ram, d, lo, a)
    && (forall v :: lo <= v < a ==> Holds(owner0, ram, d, v, Clear(), 7))
    && Tabled(ram0[d], n0 - (a - lo), ram[d], n, lo, a, Goal(p, hi))
  }

  /** The tables of the pages before `a` are there. */
  ghost predicate Tabled(dir0: seq<Word>, n0: int, dir: seq<Word>, n: int, lo: int, a: int, e: int) {
    && 0 <= lo < VPAGES && lo <= a <= e <= VPAGES && Spent(dir0, n0, dir, n, Pdx(lo), LastTable(lo, e))
    && (forall k :: Pdx(lo) <= k < LastTable(lo, e) && (a == e || k < Pdx(a)) ==> Present(dir[k]))
  }

  lemma TabledNothing(dir: seq<Word>, n: int, lo: int, e: int)
    requires |dir| == NPT && 0 <= lo <= e <= VPAGES && lo < VPAGES
    ensures Tabled(dir, n, dir, n, lo, lo, e)
  {
    if lo < e {
      PdxOrder(lo, e - 1);
    }
    SpentNothing(dir, n, Pdx(lo), LastTable(lo, e));
  }

  /** One page more, which left `x` frames fewer besides its table. */
  lemma TabledMore(dir0: seq<Word>, n0: int, dir1: seq<Word>, n1: int, dir: seq<Word>, n: int, lo: int, a: int, e: int,
                   x: int)
    requires Tabled(dir0, n0, dir1, n1, lo, a, e) && a < e
    requires Spent(dir1, n1 - x, dir, n, Pdx(a), Pdx(a) + 1) && Present(dir[Pdx(a)])
    ensures Tabled(dir0, n0 - x, dir, n, lo, a + 1, e)
  {
    hide Lacks;
    PdxOrder(lo, a);
    PdxOrder(a, e - 1);
    assert Spent(dir0, n0 - x, dir1, n1 - x, Pdx(lo), LastTable(lo, e));
    SpentMore(dir0, n0 - x, dir1, n1 - x, dir, n, Pdx(lo), LastTable(lo, e), Pdx(a), Pdx(a) + 1);
    if a + 1 < VPAGES {
      PdxNext(a);
    }
  }

  /** All tables are there. */
  lemma TabledAll(dir0: seq<Word>, n0: int, dir: seq<Word>, n: int, lo: int, a: int, e: int)
    requires Tabled(dir0, n0, dir, n, lo, a, e) && e <= KPAGES && (a == e || (a == e - 1 && Present(dir[Pdx(a)])))
    ensures |dir0| == NPT && n0 == n + FramesFor(dir0, lo, e) - (e - lo)
  {
    hide Lacks;
    if lo < e {
      PdxOrder(lo, e - 1);
    }
    SpentAll(dir0, n0, dir, n, Pdx(lo), LastTable(lo, e));
    assert Lacks(dir0, Pdx(lo), Pdx(lo)) == 0 by { LacksOne(dir0, Pdx(lo)); }
  }

  lemma LacksOne(dir: seq<Word>, k: int)
    requires |dir| == NPT && 0 <= k <= NPT
    ensures Lacks(dir, k, k) == 0
  {
  }

  lemma TabledShort(dir0: seq<Word>, n0: int, dir: seq<Word>, n: int, lo: int, a: int, e: int)
    requires Tabled(dir0, n0, dir, n, lo, a, e) && a < e <= KPAGES && n <= Lacks(dir, Pdx(a), Pdx(a) + 1)
    ensures |dir0| == NPT && n0 <= FramesFor(dir0, lo, e) - (e - lo)
  {
    hide Lacks;
    PdxOrder(lo, a);
    PdxOrder(a, e - 1);
    OutOfFrames(dir0, n0, dir, n, Pdx(lo), LastTable(lo, e), Pdx(a));
  }

  lemma GrowingNothing(owner: seq<Owner>, ram: Ram, n: int, d: int, lo: int, hi: int, p: int)
    requires |owner| == |ram| && Shape(ram) && IsDir(owner, d) && Fresh(ram, d, lo, hi, p)
    ensures Growing(owner, ram, n, owner, ram, n, d, lo, lo, hi, p)
  {
    hide Pte, Grew, Holds, Tabled;
    GrewNothing(owner, ram, d, lo);
    TabledNothing(ram[d], n, lo, Goal(p, hi));
  }

  lemma GrowingEntry(owner0: seq<Owner>, ram0: Ram, n0: int, owner: seq<Owner>, ram: Ram, n: int,
                     d: int, lo: int, a: int, hi: int, p: int)
    requires Growing(owner0, ram0, n0, owner, ram, n, d, lo, a, hi, p) && a < hi
    ensures 0 <= a < KPAGES && |ram| == |ram0| && Shape(ram) && 0 <= d < |ram|
    ensures Present(Pte(ram, d, a)) <==> a == p
  {
    hide Pte, Grew, Holds, Tabled;
    GrewEntry(owner0, ram0, owner, ram, d, lo, a);
  }

  /** A page that is there already, with a frame in hand for it. */
  lemma GrowingStops(owner0: seq<Owner>, ram0: Ram, n0: int, owner: seq<Owner>, ram: Ram, n: int,
                     d: int, lo: int, a: int, hi: int, p: int)
    requires Growing(owner0, ram0, n0, owner, ram, n, d, lo, a, hi, p) && a == p < hi && n > 0
    requires Inv(ram, owner) && IsDir(owner, d) && Present(Pte(ram, d, a))
    ensures |ram0[d]| == NPT && n0 >= FramesFor(ram0[d], lo, p + 1)
  {
    hide Inv, Pte, Grew, Holds, Tabled, FramesFor;
    EntryAt(ram, owner, d, a);
    TabledAll(ram0[d], n0 - (a - lo), ram[d], n, lo, a, p + 1);
  }

  lemma GrowingShort(owner0: seq<Owner>, ram0: Ram, n0: int, owner: seq<Owner>, ram: Ram, n: int,
                     d: int, lo: int, a: int, hi: int, p: int)
    requires Growing(owner0, ram0, n0, owner, ram, n, d, lo, a, hi, p) && a < hi
    requires n <= Lacks(ram[d], Pdx(a), Pdx(a) + 1)
    ensures |ram0[d]| == NPT && n0 < FramesFor(ram0[d], lo, Goal(p, hi))
    ensures Grew(owner0, ram0, owner, ram, d, lo, a) && forall v :: lo <= v < a ==> !Present(Pte(ram0, d, v))
  {
    hide Pte, Grew, Holds, Tabled, FramesFor, Lacks;
    TabledShort(ram0[d], n0 - (a - lo), ram[d], n, lo, a, Goal(p, hi));
  }

  lemma GrowingMore(owner0: seq<Owner>, ram0: Ram, n0: int, owner1: seq<Owner>, ram1: Ram, n1: int, owner: seq<Owner>,
                    ram: Ram, n: int, d: int, lo: int, a: int, hi: int, p: int)
    requires Growing(owner0, ram0, n0, owner1, ram1, n1, d, lo, a, hi, p) && a < p
    requires |owner| == |ram| == |ram1| && Shape(ram) && Inv(ram1, owner1) && IsDir(owner1, d)
    requires Grew(owner1, ram1, owner, ram, d, a, a + 1) && Holds(owner1, ram, d, a, Clear(), 7)
    requires Spent(ram1[d], n1 - 1, ram[d], n, Pdx(a), Pdx(a) + 1) && Present(ram[d][Pdx(a)])
    ensures Growing(owner0, ram0, n0, owner, ram, n, d, lo, a + 1, hi, p) && IsDir(owner, d)
  {
    hide Inv, Pte, Grew, Holds, Tabled, Spent, Clear;
    GrewMore(owner0, ram0, owner1, ram1, owner, ram, d, lo, a);
    TabledMore(ram0[d], n0 - (a - lo), ram1[d], n1, ram[d], n, lo, a, Goal(p, hi), 1);
    forall v | lo <= v < a + 1 ensures Holds(owner0, ram, d, v, Clear(), 7) {
      if v < a {
        HoldsKept(owner0, owner1, ram1, owner, ram, d, v, a, Clear(), 7);
      } else {
        HoldsFrom(owner0, ram0, owner1, ram1, ram, d, lo, a, Clear(), 7);
      }
    }
  }

  lemma GrowingDone(owner0: seq<Owner>, ram0: Ram, n0: int, owner: seq<Owner>, ram: Ram, n: int, d: int, lo: int,
                    hi: int, p: int)
    requires Growing(owner0, ram0, n0, owner, ram, n, d, lo, hi, hi, p) && n >= 0
    ensures p == hi && Grew(owner0, ram0, owner, ram, d, lo, hi) && Kept(owner0, ram0, owner, ram, d)
    ensures forall v :: lo <= v < hi ==> v < KPAGES && Holds(owner0, ram, d, v, Clear(), 7)
    ensures |ram0[d]| == NPT && n0 >= FramesFor(ram0[d], lo, hi)
  {
    hide Pte, Grew, Holds, Tabled, FramesFor, Kept, Clear;
    GrewKept(owner0, ram0, owner, ram, d, lo, hi);
    TabledAll(ram0[d], n0 - (hi - lo), ram[d], n, lo, hi, hi);
  }

  // mappages.

  /** The first `m` of `total` pages from `v` on are mapped, and tables were made for them. */
  ghost predicate Mapping(owner0: seq<Owner>, ram0: Ram, n0: int, owner: seq<Owner>, ram: Ram, n: int,
                          d: int, v: int, m: int, total: int, pfn: int, flags: int)
  {
    && |owner0| == |ram0| == |owner| == |ram| && Shape(ram0) && Shape(ram) && IsDir(owner0, d) && 0 <= m
    && (m == 0 ==> ram == ram0 && owner == owner0)
    && Tabled(ram0[d], n0, ram[d], n, v, v + m, v + total)
    && Maps(owner0, ram0, ram, d, v, m, pfn, flags) && Kept(owner0, ram0, owner, ram, d)
    && (forall u :: v <= u < v + m ==> !Present(Pte(ram0, d, u)))
    && var c := UserPages(v, total);
       && Claimed(owner0, d, v, pfn, 0, c) && Claimed(owner, d, v, pfn, m, c) && GrewTables(owner0, owner, d, pfn, c)
       && forall f :: 0 <= f < |owner| && owner0[f] == Other ==> ram[f] == ram0[f]
  }

  lemma MappingNothing(owner: seq<Owner>, ram: Ram, n: int, d: int, v: int, total: int, pfn: int, flags: int)
    requires |owner| == |ram| && Shape(ram) && IsDir(owner, d) && 0 <= v < v + total <= VPAGES
    requires Claimed(owner, d, v, pfn, 0, UserPages(v, total))
    ensures Mapping(owner, ram, n, owner, ram, n, d, v, 0, total, pfn, flags)
  {
    hide Pte, Maps, GrewTables, Kept, Claimed, Tabled;
    MapsNothing(owner, ram, d, v, pfn, flags, UserPages(v, total));
    TabledNothing(ram[d], n, v, v + total);
  }

  /** The next page is as it was, and its frame still the caller's. */
  lemma MappingNext(owner0: seq<Owner>, ram0: Ram, n0: int, owner: seq<Owner>, ram: Ram, n: int,
                    d: int, v: int, m: int, total: int, pfn: int, flags: int)
    requires Mapping(owner0, ram0, n0, owner, ram, n, d, v, m, total, pfn, flags) && m < total
    ensures 0 <= v + m < VPAGES && Pte(ram, d, v + m) == Pte(ram0, d, v + m)
    ensures v + m < KPAGES ==> 0 <= pfn + m < |owner| && owner[pfn + m] == Other
  {
    hide Pte, Maps, GrewTables, Kept, Claimed;
    MapsEntry(owner0, ram0, ram, d, v, m, pfn, flags);
    if v + m < KPAGES {
      ClaimedAt(owner, d, v, pfn, m, UserPages(v, total));
    }
  }

  lemma MappingMore(owner0: seq<Owner>, ram0: Ram, n0: int, owner1: seq<Owner>, ram1: Ram, n1: int, owner: seq<Owner>,
                    ram: Ram, n: int, d: int, v: int, m: int, total: int, pfn: int, flags: int)
    requires Mapping(owner0, ram0, n0, owner1, ram1, n1, d, v, m, total, pfn, flags) && m < total
    requires |owner| == |ram| == |ram1| && Shape(ram) && !Present(Pte(ram1, d, v + m))
    requires Spent(ram1[d], n1, ram[d], n, Pdx(v + m), Pdx(v + m) + 1) && Present(ram[d][Pdx(v + m)])
    requires Maps(owner1, ram1, ram, d, v + m, 1, pfn + m, flags) && Kept(owner1, ram1, owner, ram, d)
    requires GrewTables(owner1, owner, d, pfn + m, if v + m < KPAGES then 1 else 0)
    requires v + m < KPAGES ==> 0 <= pfn + m < |owner| && owner[pfn + m] == User(d, v + m)
    requires forall f :: 0 <= f < |owner| && owner1[f] == Other ==> ram[f] == ram1[f]
    ensures Mapping(owner0, ram0, n0, owner, ram, n, d, v, m + 1, total, pfn, flags) && IsDir(owner, d)
  {
    hide Pte, Maps, GrewTables, Kept, Claimed, Tabled, Spent;
    var c := UserPages(v, total);
    MappingNext(owner0, ram0, n0, owner1, ram1, n1, d, v, m, total, pfn, flags);
    TabledMore(ram0[d], n0, ram1[d], n1, ram[d], n, v, v + m, v + total, 0);
    OthersData(owner0, ram0, owner1, ram1, owner, ram, d, v, m, pfn, c);
    MapsMore(owner0, ram0, owner1, ram1, owner, ram, d, v, m, pfn, flags, c);
  }

  /** All pages are mapped, or the next one cannot get its table. */
  lemma MappingEnds(owner0: seq<Owner>, ram0: Ram, n0: int, owner: seq<Owner>, ram: Ram, n: int,
                    d: int, v: int, m: int, total: int, pfn: int, flags: int)
    requires Mapping(owner0, ram0, n0, owner, ram, n, d, v, m, total, pfn, flags) && 0 < total
    ensures 0 <= v && v + total <= VPAGES && Spent(ram0[d], n0, ram[d], n, Pdx(v), Pdx(v + total - 1) + 1)
    ensures m == total ==> Lacks(ram[d], Pdx(v), Pdx(v + total - 1) + 1) == 0
    ensures m < total && !Present(ram[d][Pdx(v + m)]) ==> Lacks(ram[d], Pdx(v), Pdx(v + total - 1) + 1) > 0
  {
    hide Pte, Maps, GrewTables, Kept, Claimed, Lacks;
    PdxOrder(v, v + total - 1);
    if m == total {
      LacksNone(ram[d], Pdx(v), Pdx(v + total - 1) + 1);
    } else {
      PdxOrder(v, v + m);
      PdxOrder(v + m, v + total - 1);
      if !Present(ram[d][Pdx(v + m)]) {
        LacksSome(ram[d], Pdx(v), Pdx(v + total - 1) + 1, Pdx(v + m));
      }
    }
  }

  /** A last look at the next page may have changed the count but nothing else. */
  lemma MappingFacts(owner0: seq<Owner>, ram0: Ram, n0: int, owner: seq<Owner>, ram: Ram, n: int,
                     d: int, v: int, m: int, total: int, pfn: int, flags: int)
    requires Mapping(owner0, ram0, n0, owner, ram, n, d, v, m, total, pfn, flags)
    ensures Maps(owner0, ram0, ram, d, v, m, pfn, flags) && Kept(owner0, ram0, owner, ram, d)
    ensures forall u :: v <= u < v + m ==> !Present(Pte(ram0, d, u))
    ensures Claimed(owner, d, v, pfn, m, UserPages(v, total)) && GrewTables(owner0, owner, d, pfn, UserPages(v, total))
    ensures forall f :: 0 <= f < |owner| && owner0[f] == Other ==> ram[f] == ram0[f]
    ensures m == 0 ==> ram == ram0 && owner == owner0
  {
    hide Pte, Maps, GrewTables, Kept, Claimed, Tabled;
  }
}
