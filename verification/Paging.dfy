/**
 vm.c and kalloc.c as they run: a machine whose physical memory holds the free list, the page
 tables and the pages. Each operation is stated by the mappings it changes and the owners it moves.
 */
module Paging {
  import opened PageTables
  import opened PageMoves
  import opened Growth

  class Machine {
    var ram: Ram
    var freelist: int
    /** First frame past the kernel, and the frame its data starts in. */
    const end: int
    const data: int
    ghost var owner: seq<Owner>
    ghost var free: seq<int>

    ghost predicate Bounds()
      reads this
    {
      && |ram| == |owner| == PHYSTOP && EXTMEM < data < end < PHYSTOP && Shape(ram)
      && forall f :: 0 <= f < |owner| ==> (owner[f] == Kernel <==> f < end)
    }

    ghost predicate Valid()
      reads this
    {
      Bounds() && Inv(ram, owner) && FreeOk(ram, owner, free, freelist)
    }

    /** kinit1 and kinit2: every frame past the kernel is free. */
    constructor (ram: Ram, data: int, end: int)
      requires |ram| == PHYSTOP && Shape(ram) && EXTMEM < data < end < PHYSTOP
      ensures Valid() && this.data == data && this.end == end
      ensures forall f :: 0 <= f < PHYSTOP ==> owner[f] == if f < end then Kernel else Free
    {
      this.ram, this.data, this.end := ram, data, end;
      freelist, free := 0, [];
      owner := seq(PHYSTOP, f => if f < end then Kernel else Other);
      new;
      var p := end;
      while p < PHYSTOP
        invariant end <= p <= PHYSTOP && Valid()
        invariant forall f :: 0 <= f < PHYSTOP ==> owner[f] == if f < end then Kernel else if f < p then Free else Other
      {
        hide Inv, FreeOk;
        Release(p);
        p := p + 1;
      }
    }

    /** The entry for page `v` in the address space of `d`. */
    ghost function Entry(d: int, v: int): Word
      reads this
      requires Bounds() && 0 <= d < |ram| && 0 <= v < VPAGES
    {
      Pte(ram, d, v)
    }

    /** kfree; !ok where the kernel panics. */
    method Kfree(f: int) returns (ok: bool)
      requires Bounds() && FreeOk(ram, owner, free, freelist)
      requires end <= f < PHYSTOP ==> owner[f] != Free
      modifies this
      ensures ok == (end <= f < PHYSTOP)
      ensures !ok ==> ram == old(ram) && freelist == old(freelist) && owner == old(owner) && free == old(free)
      ensures ok ==> Bounds() && FreeOk(ram, owner, free, freelist)
      ensures ok ==>
                owner == old(owner)[f := Free] && ram == old(ram)[f := Junk(old(freelist))] && free == [f] + old(free)
    {
      hide FreeOk, Junk;
      if f < end || f >= PHYSTOP {
        return false;
      }
      FreePush(ram, owner, free, freelist, f);
      ram := ram[f := Junk(freelist)];
      freelist := f;
      owner, free := owner[f := Free], [f] + free;
      return true;
    }

    /** kalloc: 0 exactly when no frame is free. */
    method Kalloc() returns (f: int)
      requires Valid()
      modifies this
      ensures Valid() && ram == old(ram)
      ensures f == 0 <==> forall g :: 0 <= g < PHYSTOP ==> old(owner)[g] != Free
      ensures f == 0 <==> old(free) == []
      ensures f == 0 ==> owner == old(owner) && free == old(free)
      ensures f != 0 ==> 0 < f < PHYSTOP && old(owner)[f] == Free && owner == old(owner)[f := Other]
      ensures f != 0 ==> free == old(free)[1..]
    {
      hide Inv, OnList;
      f := freelist;
      if f != 0 {
        FreePop(ram, owner, free, freelist);
        Recolor(ram, owner, f, Other);
        freelist := ram[f][0].addr;
        owner, free := owner[f := Other], free[1..];
      } else {
        FreeNone(ram, owner, free);
      }
    }

    /** memset and memmove: the caller's own page gets new contents. */
    method Fill(f: int, page: seq<Word>)
      requires Valid() && 0 <= f < PHYSTOP && owner[f] == Other && |page| == NPT
      modifies `ram
      ensures Valid() && ram == old(ram)[f := page] && SamePtes(owner, old(ram), ram)
    {
      hide Inv, FreeOk;
      DataWrite(ram, owner, f, page);
      FreeKept(ram, owner, ram[f := page], owner, free, freelist);
      ram := ram[f := page];
    }

    /** walkpgdir: the table that holds the entry for page `v`, or 0. */
    method Walk(d: int, v: int, alloc: bool) returns (t: int)
      requires Valid() && IsDir(owner, d) && 0 <= v < VPAGES
      modifies this
      ensures Valid() && SamePtes(old(owner), old(ram), ram)
      ensures t == 0 ==> ram == old(ram) && owner == old(owner) && free == old(free) && !Present(ram[d][Pdx(v)])
      ensures t == 0 && alloc ==> free == [] && forall g :: 0 <= g < PHYSTOP ==> owner[g] != Free
      ensures Spent(old(ram[d]), |old(free)|, ram[d], |free|, Pdx(v), Pdx(v) + 1)
      ensures t != 0 ==> HasTable(ram, owner, d, v, t) && Writable(ram[d][Pdx(v)]) && ForUser(ram[d][Pdx(v)])
      ensures forall f :: 0 <= f < PHYSTOP ==>
                owner[f] == old(owner)[f] || (old(owner)[f] == Free && owner[f] == Table(d, Pdx(v)))
      ensures Kept(old(owner), old(ram), owner, ram, d)
      ensures !alloc || old(Present(ram[d][Pdx(v)])) ==> ram == old(ram) && owner == old(owner) && free == old(free)
    {
      hide Inv, FreeOk, Pte, Lacks, Spent;
      SpentNothing(ram[d], |free|, Pdx(v), Pdx(v) + 1);
      var pde := ram[d][Pdx(v)];
      if Present(pde) {
        TableAt(ram, owner, d, v);
        return pde.addr;
      }
      if !alloc {
        return 0;
      }
      t := Kalloc();
      if t == 0 {
        return 0;
      }
      ghost var ram0, owner0 := ram, owner;
      Fill(t, Clear());
      ghost var w := Word(t, PTE_U + PTE_W + 1);
      SpentOne(ram[d], |old(free)|, Pdx(v), w);
      AddTable(ram, owner, d, Pdx(v), t, w);
      FreeKept(ram, owner, PutWord(ram, d, Pdx(v), w), owner[t := Table(d, Pdx(v))], free, freelist);
      ram := PutWord(ram, d, Pdx(v), Word(t, PTE_U + PTE_W + 1));
      owner := owner[t := Table(d, Pdx(v))];
    }

    /** mappages' loop body: one page. */
    method MapPage(d: int, v: int, pfn: int, perm: int) returns (r: MapResult)
      requires Valid() && IsDir(owner, d) && 0 <= v < VPAGES
      requires v < KPAGES ==> 0 <= pfn < PHYSTOP && owner[pfn] == Other
      modifies this
      ensures Valid()
      ensures r == Remap <==> Present(old(Entry(d, v)))
      ensures r != Mapped ==> ram == old(ram) && owner == old(owner) && free == old(free)
      ensures r == NoMemory ==> free == [] && !Present(ram[d][Pdx(v)])
      ensures r == NoMemory ==> forall g :: 0 <= g < PHYSTOP ==> owner[g] != Free
      ensures r == Mapped ==> Present(ram[d][Pdx(v)])
      ensures Spent(old(ram[d]), |old(free)|, ram[d], |free|, Pdx(v), Pdx(v) + 1)
      ensures r == Mapped ==> Maps(old(owner), old(ram), ram, d, v, 1, pfn, OrPresent(perm))
      ensures r == Mapped ==> GrewTables(old(owner), owner, d, pfn, if v < KPAGES then 1 else 0)
      ensures r == Mapped && v < KPAGES ==> owner[pfn] == User(d, v)
      ensures Kept(old(owner), old(ram), owner, ram, d)
      ensures forall f :: 0 <= f < PHYSTOP && old(owner)[f] == Other ==> ram[f] == old(ram)[f]
    {
      hide Inv, FreeOk, Pte, OrPresent, Spent, Maps;
      EntryAt(ram, owner, d, v);
      var t := Walk(d, v, true);
      if t == 0 {
        return NoMemory;
      }
      TableAt(ram, owner, d, v);
      if Present(ram[t][Ptx(v)]) {
        return Remap;
      }
      ghost var ram1, owner1 := ram, owner;
      ghost var w := Word(pfn, OrPresent(perm));
      if v < KPAGES {
        MapUser(ram, owner, d, v, t, w);
        owner := owner[pfn := User(d, v)];
      } else {
        MapKernel(ram, owner, d, v, t, w);
      }
      MapsOne(old(owner), old(ram), owner1, ram1, d, v, t, w);
      ram := PutWord(ram, t, Ptx(v), Word(pfn, OrPresent(perm)));
      FreeKept(ram1, owner1, ram, owner, free, freelist);
      return Mapped;
    }

    /** mappages: `n` pages from `v` on, of which the first `m` got mapped. */
    method Mappages(d: int, v: int, n: int, pfn: int, perm: int) returns (r: MapResult, ghost m: int)
      requires Valid() && IsDir(owner, d) && 0 <= v < v + n <= VPAGES
      requires Claimed(owner, d, v, pfn, 0, UserPages(v, n))
      modifies this
      ensures Valid() && 0 <= m <= n
      ensures r == Mapped <==> m == n
      ensures m < n ==> (r == Remap <==> Present(old(Entry(d, v + m))))
      ensures forall u :: v <= u < v + m ==> !Present(old(Entry(d, u)))
      ensures r != Mapped && m == 0 ==> ram == old(ram) && owner == old(owner)
      ensures Maps(old(owner), old(ram), ram, d, v, m, pfn, OrPresent(perm)) && Granted(ram, d, v, m, perm)
      ensures GrewTables(old(owner), owner, d, pfn, UserPages(v, n)) && Claimed(owner, d, v, pfn, m, UserPages(v, n))
      ensures Kept(old(owner), old(ram), owner, ram, d)
      ensures forall f :: 0 <= f < PHYSTOP && old(owner)[f] == Other ==> ram[f] == old(ram)[f]
      ensures Spent(old(ram[d]), |old(free)|, ram[d], |free|, Pdx(v), Pdx(v + n - 1) + 1)
      ensures r == NoMemory ==> free == [] && Lacks(ram[d], Pdx(v), Pdx(v + n - 1) + 1) > 0
      ensures r == Mapped ==> Lacks(ram[d], Pdx(v), Pdx(v + n - 1) + 1) == 0
    {
      hide Inv, FreeOk, Pte, OrPresent, Kept, Maps, GrewTables, Claimed, Spent, Lacks, Mapping, Granted;
      ghost var owner0, ram0, n0, flags := owner, ram, |free|, OrPresent(perm);
      MappingNothing(owner, ram, |free|, d, v, n, pfn, flags);
      var a, pa := v, pfn;
      m := 0;
      while true
        invariant Valid() && 0 <= m < n && a == v + m && pa == pfn + m && IsDir(owner, d)
        invariant Mapping(owner0, ram0, n0, owner, ram, |free|, d, v, m, n, pfn, flags)
        decreases n - m
      {
        ghost var owner1, ram1, n1 := owner, ram, |free|;
        MappingNext(owner0, ram0, n0, owner1, ram1, n1, d, v, m, n, pfn, flags);
        r := MapPage(d, a, pa, perm);
        if r != Mapped {
          assert ram == ram1 && owner == owner1 && |free| == n1;
          MappingFacts(owner0, ram0, n0, owner, ram, |free|, d, v, m, n, pfn, flags);
          MappingEnds(owner0, ram0, n0, owner, ram, |free|, d, v, m, n, pfn, flags);
          MapsGranted(owner0, ram0, owner, ram, d, v, m, pfn, perm);
          return;
        }
        MappingMore(owner0, ram0, n0, owner1, ram1, n1, owner, ram, |free|, d, v, m, n, pfn, flags);
        m := m + 1;
        if a == v + n - 1 {
          break;
        }
        a := a + 1;
        pa := pa + 1;
      }
      MappingFacts(owner0, ram0, n0, owner, ram, |free|, d, v, m, n, pfn, flags);
      MappingEnds(owner0, ram0, n0, owner, ram, |free|, d, v, m, n, pfn, flags);
      MapsGranted(owner0, ram0, owner, ram, d, v, m, pfn, perm);
    }

    /** deallocuvm's loop body where there is a table. */
    method UnmapPage(d: int, v: int, t: int)
      requires Valid() && HasTable(ram, owner, d, v, t) && v < KPAGES
      modifies this
      ensures Valid() && Unmaps(old(owner), old(ram), ram, d, v, v + 1)
      ensures owner == Released(old(owner), d, v, v + 1) && Kept(old(owner), old(ram), owner, ram, d)
    {
      hide Inv, FreeOk, Pte, Junk;
      TableAt(ram, owner, d, v);
      ghost var ram0, owner0 := ram, owner;
      if Present(ram[t][Ptx(v)]) {
        var f := ram[t][Ptx(v)].addr;
        Unmap(ram, owner, d, v, t, Free);
        DataWrite(ram, owner, f, Junk(freelist));
        var ok := Kfree(f);
        ghost var ram1 := ram;
        Unmap(ram1, owner0, d, v, t, Free);
        forall e, u | IsDir(owner0, e) && 0 <= u < VPAGES
          ensures Shape(PutWord(ram1, t, Ptx(v), ZERO))
          ensures Pte(PutWord(ram1, t, Ptx(v), ZERO), e, u) == if e == d && u == v then ZERO else Pte(ram1, e, u) {
          PutPte(ram1, owner0, d, v, t, ZERO, e, u);
        }
        ram := PutWord(ram, t, Ptx(v), ZERO);
        FreeKept(ram1, owner, ram, owner, free, freelist);
        OnlyOwner(ram0, owner0, d, v);
      } else {
        NoOwner(ram, owner, d, v);
      }
      assert owner == Released(owner0, d, v, v + 1);
    }

    /** deallocuvm. */
    method Deallocuvm(d: int, oldsz: nat, newsz: nat) returns (sz: nat)
      requires Valid() && IsDir(owner, d) && oldsz <= KERNBASE
      modifies this
      ensures Valid() && sz == if newsz >= oldsz then oldsz else newsz
      ensures Unmaps(old(owner), old(ram), ram, d, RoundUp(newsz), RoundUp(oldsz))
      ensures owner == Released(old(owner), d, RoundUp(newsz), RoundUp(oldsz))
      ensures Kept(old(owner), old(ram), owner, ram, d)
      ensures RoundUp(oldsz) <= KPAGES
      ensures forall v :: RoundUp(newsz) <= v < RoundUp(oldsz) ==> Allows(ram, d, v) == NO_ACCESS
    {
      hide Inv, FreeOk, Pte, Unmaps, Released, Kept, RoundUp, Allows;
      RoundUpOrder(oldsz, newsz);
      var a := RoundUp(newsz);
      ghost var lo, hi := a, RoundUp(oldsz);
      UnmapsNothing(owner, ram, d, lo, hi);
      if newsz >= oldsz {
        return oldsz;
      }
      UnmapsNothing(owner, ram, d, lo, lo);
      while a * PGSIZE < oldsz
        invariant Valid() && IsDir(owner, d) && lo <= a
        invariant var b := if a < hi then a else hi;
                  Unmaps(old(owner), old(ram), ram, d, lo, b) && owner == Released(old(owner), d, lo, b)
        invariant Kept(old(owner), old(ram), owner, ram, d)
        decreases oldsz - a * PGSIZE
      {
        RoundUpAt(oldsz, a);
        ghost var ram1, owner1 := ram, owner;
        var t := Walk(d, a, false);
        if t == 0 {
          SkipTable(ram, owner, d, a, if (Pdx(a) + 1) * NPT < hi then (Pdx(a) + 1) * NPT else hi);
          UnmapsMore(old(owner), old(ram), owner1, ram1, owner, ram, d, lo, a,
                     if (Pdx(a) + 1) * NPT < hi then (Pdx(a) + 1) * NPT else hi);
          a := (Pdx(a) + 1) * NPT - 1;
        } else {
          UnmapPage(d, a, t);
          UnmapsMore(old(owner), old(ram), owner1, ram1, owner, ram, d, lo, a, a + 1);
        }
        a := a + 1;
      }
      RoundUpAt(oldsz, a);
      UnmapsDenied(old(owner), old(ram), owner, ram, d, lo, hi);
      return newsz;
    }

    /** freevm's loop: the tables of a directory that maps no user page. */
    method FreeTables(d: int)
      requires Valid() && IsDir(owner, d) && forall f :: 0 <= f < PHYSTOP ==> !(owner[f].User? && owner[f].d == d)
      modifies this
      ensures Valid() && owner == Dismantled(old(owner), d, Free)[d := Other]
      ensures OthersKept(old(owner), old(ram), owner, ram, d)
    {
      hide Inv, FreeOk, Pte, Junk;
      ghost var owner0, ram0 := owner, ram;
      Dismantle(ram, owner, d, Other);
      FreeKept(ram, owner, ram, Dismantled(owner, d, Other), free, freelist);
      owner := Dismantled(owner, d, Other);
      AllTables(ram0, owner0);
      assert owner == FreedTo(owner0, d, 0);
      var i := 0;
      while i < NPT
        invariant 0 <= i <= NPT && Valid() && ram[d] == ram0[d]
        invariant owner == FreedTo(owner0, d, i)
        invariant OthersKept(owner0, ram0, owner, ram, d)
      {
        if Present(ram[d][i]) {
          var t := ram[d][i].addr;
          OnlyTable(ram0, owner0, d, i);
          DataWrite(ram, owner, t, Junk(freelist));
          Recolor(ram[t := Junk(freelist)], owner, t, Free);
          var ok := Kfree(t);
        } else {
          NoTable(ram0, owner0, d, i);
        }
        i := i + 1;
        assert owner == FreedTo(owner0, d, i);
      }
      assert owner == Dismantled(owner0, d, Free)[d := Other];
    }

    /** freevm. */
    method Freevm(d: int)
      requires Valid() && IsDir(owner, d)
      modifies this
      ensures Valid() && owner == Dismantled(old(owner), d, Free)
      ensures OthersKept(old(owner), old(ram), owner, ram, d)
    {
      hide Inv, FreeOk, Pte, Junk;
      ghost var owner0, ram0 := owner, ram;
      var sz := Deallocuvm(d, KERNBASE, 0);
      UserPagesBelow(ram0, owner0);
      FreeTables(d);
      Release(d);
      assert owner == Dismantled(owner0, d, Free);
    }

    // The rows of kmap: first page, number of pages, first frame and permissions.

    function RowStart(k: int): int
      requires 0 <= k < 4
    {
      if k == 0 then KPAGES else if k == 1 then KPAGES + EXTMEM else if k == 2 then KPAGES + data else DEVSPACE
    }

    function RowPages(k: int): int
      requires 0 <= k < 4
    {
      if k == 0 then EXTMEM else if k == 1 then data - EXTMEM else if k == 2 then PHYSTOP - data else VPAGES - DEVSPACE
    }

    function RowFrame(k: int): int
      requires 0 <= k < 4
    {
      if k == 0 then 0 else if k == 1 then EXTMEM else if k == 2 then data else DEVSPACE
    }

    function RowPerm(k: int): int
      requires 0 <= k < 4
    {
      if k == 1 then 0 else PTE_W
    }

    ghost predicate InRow(k: int, v: int)
      requires 0 <= k < 4
    {
      RowStart(k) <= v < RowStart(k) + RowPages(k)
    }

    /** The entry of a kernel page once the first `n` rows are mapped. */
    ghost function KernelTo(n: int, v: int): Word
      requires 0 <= n <= 4
    {
      if 0 < n && InRow(0, v) then Word(v - KPAGES, 3)
      else if 1 < n && InRow(1, v) then Word(v - KPAGES, 1)
      else if 2 < n && InRow(2, v) then Word(v - KPAGES, 3)
      else if 3 < n && InRow(3, v) then Word(v, 3)
      else ZERO
    }

    lemma RowMapped(owner: seq<Owner>, ram1: Ram, ram: Ram, d: int, k: int)
      requires |owner| == |ram1| == |ram| && Shape(ram1) && Shape(ram) && IsDir(owner, d) && 0 <= k < 4
      requires EXTMEM < data < PHYSTOP
      requires Maps(owner, ram1, ram, d, RowStart(k), RowPages(k), RowFrame(k), OrPresent(RowPerm(k)))
      requires forall v :: 0 <= v < VPAGES ==> Pte(ram1, d, v) == KernelTo(k, v)
      ensures forall v :: 0 <= v < VPAGES ==> Pte(ram, d, v) == KernelTo(k + 1, v)
    {
      hide Pte;
      forall v | 0 <= v < VPAGES ensures Pte(ram, d, v) == KernelTo(k + 1, v) {
        assert Pte(ram1, d, v) == KernelTo(k, v);
      }
    }

    lemma RowFresh(k: int, v: int)
      requires 0 <= k < 4 && EXTMEM < data < PHYSTOP && InRow(k, v)
      ensures KernelTo(k, v) == ZERO
    {
    }

    /**
     What every address space has of the kernel: physical memory from KPAGES on, the devices where they are, nothing
     else, and nothing for user mode; the kernel's text and read-only data cannot be written.
     */
    ghost predicate KernelPage(ram: Ram, d: int, v: int)
      requires Shape(ram) && 0 <= d < |ram| && 0 <= v < VPAGES
    {
      if KPAGES <= v < KPAGES + PHYSTOP then
        Pte(ram, d, v).addr == v - KPAGES && Allows(ram, d, v) == Access(true, !(EXTMEM <= v - KPAGES < data), false)
      else if DEVSPACE <= v then
        Pte(ram, d, v).addr == v && Allows(ram, d, v) == Access(true, true, false)
      else
        Allows(ram, d, v) == NO_ACCESS
    }

    lemma KernelPages(ram: Ram, owner: seq<Owner>, d: int, lo: int)
      requires Inv(ram, owner) && IsDir(owner, d) && EXTMEM < data < PHYSTOP && 0 <= lo
      requires forall v :: lo <= v < VPAGES ==> Pte(ram, d, v) == KernelTo(4, v)
      ensures forall v :: lo <= v < VPAGES ==> KernelPage(ram, d, v)
    {
      hide Pte, Allows;
      forall v | lo <= v < VPAGES ensures KernelPage(ram, d, v) {
        AllowsPte(ram, owner, d, v);
      }
    }

    lemma KernelAbove(v: int)
      requires v < KPAGES && EXTMEM < data
      ensures KernelTo(4, v) == ZERO
    {
    }

    /** Which tables the kernel's mappings need: those up to PHYSTOP and those of the devices. */
    ghost predicate KernelTable(k: int) {
      Pdx(KPAGES) <= k < Pdx(KPAGES) + 56 || NPT - 8 <= k < NPT
    }

    ghost function KernelLacks(dir: seq<Word>): nat
      requires |dir| == NPT
    {
      Lacks(dir, Pdx(KPAGES), Pdx(KPAGES) + 56) + Lacks(dir, NPT - 8, NPT)
    }

    lemma RowTables(k: int)
      requires 0 <= k < 4 && EXTMEM < data < PHYSTOP
      ensures 0 <= RowStart(k) < RowStart(k) + RowPages(k) <= VPAGES
      ensures var lo, hi := Pdx(RowStart(k)), Pdx(RowStart(k) + RowPages(k) - 1) + 1;
              lo < hi && if k < 3 then Pdx(KPAGES) <= lo && hi <= Pdx(KPAGES) + 56 else NPT - 8 <= lo && hi <= NPT
    {
    }

    /** Mapping a row spends frames on the kernel's tables only. */
    lemma RowSpent(dir: seq<Word>, n: int, dir': seq<Word>, n': int, k: int)
      requires 0 <= k < 4 && EXTMEM < data < PHYSTOP && 0 <= RowStart(k) < RowStart(k) + RowPages(k) <= VPAGES
      requires Spent(dir, n, dir', n', Pdx(RowStart(k)), Pdx(RowStart(k) + RowPages(k) - 1) + 1)
      ensures |dir| == |dir'| == NPT && n - n' == KernelLacks(dir) - KernelLacks(dir')
      ensures forall i :: 0 <= i < Pdx(KPAGES) ==> dir'[i] == dir[i]
      ensures Lacks(dir', Pdx(RowStart(k)), Pdx(RowStart(k) + RowPages(k) - 1) + 1) > 0 ==> KernelLacks(dir') > 0
    {
      hide Lacks;
      RowTables(k);
      var lo, hi := Pdx(RowStart(k)), Pdx(RowStart(k) + RowPages(k) - 1) + 1;
      var a, b := Pdx(KPAGES), Pdx(KPAGES) + 56;
      if k < 3 {
        SpentWiden(dir, n, dir', n', lo, hi, a, b);
        LacksSame(dir, dir', NPT - 8, NPT);
        LacksSplit(dir', a, lo, b);
        LacksSplit(dir', lo, hi, b);
      } else {
        SpentWiden(dir, n, dir', n', lo, hi, NPT - 8, NPT);
        LacksSame(dir, dir', a, b);
        LacksSplit(dir', NPT - 8, lo, NPT);
        LacksSplit(dir', lo, hi, NPT);
      }
    }

    /** A directory that maps the whole kernel has all its tables. */
    lemma KernelFull(ram: Ram, owner: seq<Owner>, d: int)
      requires Inv(ram, owner) && IsDir(owner, d) && EXTMEM < data < PHYSTOP
      requires forall v :: 0 <= v < VPAGES ==> Pte(ram, d, v) == KernelTo(4, v)
      ensures KernelLacks(ram[d]) == 0
    {
      hide Lacks, Inv, Pte;
      DirSize(ram, owner, d);
      forall k | 0 <= k < NPT && KernelTable(k) ensures Present(ram[d][k]) {
        var v := k * NPT;
        assert Pdx(v) == k;
        assert Pte(ram, d, v) == KernelTo(4, v) && Present(KernelTo(4, v));
        EntryAt(ram, owner, d, v);
      }
      LacksNone(ram[d], Pdx(KPAGES), Pdx(KPAGES) + 56);
      LacksNone(ram[d], NPT - 8, NPT);
    }

    /**
     setupkvm: a new directory with the kernel's mappings only, or, with fewer than 65 frames free, 0 and every
     frame back.
     */
    method Setupkvm() returns (d: int)
      requires Valid()
      modifies this
      ensures Valid() && NonFreeKept(old(owner), old(ram), ram)
      ensures d != 0 <==> |old(free)| >= KERNEL_FRAMES
      ensures d == 0 ==> owner == old(owner)
      ensures d != 0 ==> NewSpace(old(owner), owner, d) && |free| == |old(free)| - KERNEL_FRAMES
      ensures d != 0 ==> forall v :: 0 <= v < VPAGES ==> Entry(d, v) == KernelTo(4, v)
      ensures d != 0 ==> forall v :: 0 <= v < VPAGES ==> KernelPage(ram, d, v)
      ensures d != 0 ==> forall f :: 0 <= f < PHYSTOP && OwnedBy(owner, f, d) ==> !owner[f].User?
      ensures d != 0 ==> forall k :: 0 <= k < Pdx(KPAGES) ==> !Present(ram[d][k])
    {
      hide Inv, FreeOk, Pte, Kept, GrewTables, Maps, Lacks, Spent, Claimed, KernelLacks, KernelPage;
      ghost var owner0, ram0 := owner, ram;
      d := Kalloc();
      if d == 0 {
        return;
      }
      Fill(d, Clear());
      NewDir(ram, owner, d);
      FreeKept(ram, owner, ram, owner[d := Dir], free, freelist);
      owner := owner[d := Dir];
      assert owner == owner0[d := Dir];
      SpaceStart(ram0, owner0, d);
      ClearLacks(ram[d]);
      var k := 0;
      while k < 4
        invariant 0 <= k <= 4 && Valid() && NewSpace(owner0, owner, d) && NonFreeKept(owner0, ram0, ram)
        invariant forall f :: 0 <= f < PHYSTOP && OwnedBy(owner, f, d) ==> !owner[f].User?
        invariant forall v :: 0 <= v < VPAGES ==> Entry(d, v) == KernelTo(k, v)
        invariant |free| - KernelLacks(ram[d]) == |old(free)| - KERNEL_FRAMES
        invariant forall i :: 0 <= i < Pdx(KPAGES) ==> !Present(ram[d][i])
      {
        ghost var owner1, ram1, n1 := owner, ram, |free|;
        RowTables(k);
        NoClaim(owner, d, RowStart(k), RowFrame(k), RowPages(k));
        var r;
        ghost var m;
        r, m := Mappages(d, RowStart(k), RowPages(k), RowFrame(k), RowPerm(k));
        RowSpent(ram1[d], n1, ram[d], |free|, k);
        GrewNoUsers(owner1, owner, d, RowFrame(k));
        SpaceGrew(owner0, ram0, owner1, ram1, owner, ram, d);
        if m < RowPages(k) {
          RowFresh(k, RowStart(k) + m);
        }
        assert r != Remap;
        if r == NoMemory {
          SpaceFreed(owner0, owner, d);
          Freevm(d);
          return 0;
        }
        RowMapped(owner1, ram1, ram, d, k);
        k := k + 1;
      }
      KernelFull(ram, owner, d);
      KernelPages(ram, owner, d, 0);
    }

    lemma ClearLacks(dir: seq<Word>)
      requires Cleared(dir)
      ensures KernelLacks(dir) == KERNEL_FRAMES - 1
    {
      LacksAll(dir, Pdx(KPAGES), Pdx(KPAGES) + 56);
      LacksAll(dir, NPT - 8, NPT);
    }

    /** One turn of allocuvm's and copyuvm's loops: a frame with contents `page`, mapped as page `v`. */
    method AddPage(d: int, v: int, page: seq<Word>, perm: int) returns (r: MapResult, mem: int)
      requires Valid() && IsDir(owner, d) && 0 <= v < KPAGES && |page| == NPT
      modifies this
      ensures Valid()
      ensures r == Mapped ==> Grew(old(owner), old(ram), owner, ram, d, v, v + 1)
      ensures r == Mapped ==> Holds(old(owner), ram, d, v, page, OrPresent(perm))
      ensures r == Mapped ==>
                Spent(old(ram[d]), |old(free)| - 1, ram[d], |free|, Pdx(v), Pdx(v) + 1) && Present(ram[d][Pdx(v)])
      ensures r == NoMemory ==> |old(free)| <= Lacks(old(ram[d]), Pdx(v), Pdx(v) + 1)
      ensures r == Remap ==> Present(old(Entry(d, v))) && |old(free)| > 0
      ensures r == Mapped ==> !Present(old(Entry(d, v)))
      ensures r != Mapped ==> mem == 0 || (0 < mem < PHYSTOP && old(owner)[mem] == Free)
      ensures r != Mapped ==> owner == (if mem == 0 then old(owner) else old(owner)[mem := Other])
      ensures r != Mapped ==> NonFreeKept(old(owner), old(ram), ram)
    {
      hide Inv, FreeOk, Pte, OrPresent, Lacks, Spent;
      ghost var owner0, ram0 := owner, ram;
      mem := Kalloc();
      if mem == 0 {
        return NoMemory, 0;
      }
      Fill(mem, page);
      ghost var owner1, ram1 := owner, ram;
      ghost var m;
      label Mapping:
      r, m := Mappages(d, v, 1, mem, perm);
      SpentCount(ram1[d], |old(free)| - 1, ram[d], |free|, Pdx(v));
      assert Pte(ram1, d, v) == Pte(ram0, d, v);
      if r == Mapped {
        assert !Present(old@Mapping(Entry(d, v)));
        GrewOne(owner0, ram0, owner1, ram1, owner, ram, d, v, mem, page, OrPresent(perm));
      }
    }

    /** kfree of a page that its holder gives back. */
    method Release(f: int)
      requires Valid() && 0 <= f < PHYSTOP && owner[f] == Other
      modifies this
      ensures Valid() && owner == old(owner)[f := Free] && SamePtes(old(owner), old(ram), ram)
      ensures forall g :: 0 <= g < PHYSTOP && g != f ==> ram[g] == old(ram)[g]
    {
      hide Inv, FreeOk, Pte, Junk;
      DataWrite(ram, owner, f, Junk(freelist));
      Recolor(ram[f := Junk(freelist)], owner, f, Free);
      var ok := Kfree(f);
    }

    /**
     allocuvm: new zeroed pages, or 0. !ok where the kernel panics: it has come to a page that is mapped
     already. The pages up to there and the tables they lack decide, by the number of free frames, which it
     is. On giving up, every page of the range goes, so one that was mapped before goes too.
     */
    method Allocuvm(d: int, oldsz: nat, newsz: nat) returns (ok: bool, sz: nat)
      requires Valid() && IsDir(owner, d)
      modifies this
      ensures ok ==> Valid() && Kept(old(owner), old(ram), owner, ram, d)
      ensures newsz >= KERNBASE ==> ok && sz == 0 && ram == old(ram) && owner == old(owner)
      ensures newsz < KERNBASE && newsz < oldsz ==> ok && sz == oldsz && ram == old(ram) && owner == old(owner)
      ensures oldsz <= newsz < KERNBASE ==>
                RoundUp(oldsz) <= RoundUp(newsz) <= KPAGES && (ok ==> sz == newsz || sz == 0)
      ensures oldsz <= newsz < KERNBASE ==>
                var lo, hi := RoundUp(oldsz), RoundUp(newsz);
                var p := FirstPresent(old(ram), d, lo, hi);
                var enough := |old(free)| >= FramesFor(old(ram[d]), lo, Goal(p, hi));
                && (ok <==> p == hi || !enough)
                && (ok && sz == newsz <==> p == hi && enough)
                && (ok && sz != newsz ==> Unmaps(old(owner), old(ram), ram, d, lo, hi))
                && (ok && sz != newsz ==> GrewTables(Released(old(owner), d, lo, hi), owner, d, 0, 0))
                && (ok && sz != newsz && p == hi ==>
                     SamePtes(old(owner), old(ram), ram) && GrewTables(old(owner), owner, d, 0, 0))
      ensures oldsz <= newsz < KERNBASE && ok && sz == newsz ==>
                Grew(old(owner), old(ram), owner, ram, d, RoundUp(oldsz), RoundUp(newsz))
      ensures oldsz <= newsz < KERNBASE && ok && sz == newsz ==>
                forall v :: RoundUp(oldsz) <= v < RoundUp(newsz) ==>
                  v < KPAGES && Holds(old(owner), ram, d, v, Clear(), 7)
      ensures oldsz <= newsz < KERNBASE && ok && sz == newsz ==>
                Granted(ram, d, RoundUp(oldsz), RoundUp(newsz) - RoundUp(oldsz), PTE_W + PTE_U)
    {
      hide Inv, FreeOk, Pte, RoundUp, Grew, Holds, Kept, Unmaps, Clear, Lacks, Spent, FirstPresent, FramesFor;
      hide GrewTables, Granted;
      GrewNothing(owner, ram, d, RoundUp(oldsz));
      if newsz >= KERNBASE {
        return true, 0;
      }
      if newsz < oldsz {
        return true, oldsz;
      }
      RoundUpOrder(oldsz, newsz);
      ghost var lo, hi := RoundUp(oldsz), RoundUp(newsz);
      ghost var owner0, ram0, p := owner, ram, FirstPresent(ram, d, lo, hi);
      var a := RoundUp(oldsz);
      GrowingNothing(owner, ram, |free|, d, lo, hi, p);
      while a * PGSIZE < newsz
        invariant lo <= a <= p && Valid() && IsDir(owner, d)
        invariant Growing(owner0, ram0, |old(free)|, owner, ram, |free|, d, lo, a, hi, p)
      {
        RoundUpAt(newsz, a);
        ghost var owner1, ram1, n1 := owner, ram, |free|;
        GrowingEntry(owner0, ram0, |old(free)|, owner1, ram1, n1, d, lo, a, hi, p);
        var r, mem := AddPage(d, a, Clear(), PTE_W + PTE_U);
        if r == Remap {
          GrowingStops(owner0, ram0, |old(free)|, owner1, ram1, n1, d, lo, a, hi, p);
          return false, 0;
        }
        if r == NoMemory {
          GrowingShort(owner0, ram0, |old(free)|, owner1, ram1, n1, d, lo, a, hi, p);
          ghost var owner2, ram2 := owner, ram;
          sz := Deallocuvm(d, newsz, oldsz);
          ghost var owner3, ram3 := owner, ram;
          if mem != 0 {
            Release(mem);
          }
          Undone(owner0, ram0, owner1, ram1, owner2, ram2, owner3, ram3, owner, ram, d, lo, a, hi, mem);
          if p == hi {
            NothingUnmapped(owner0, ram0, ram, d, lo, hi);
          }
          return true, 0;
        }
        GrowingMore(owner0, ram0, |old(free)|, owner1, ram1, n1, owner, ram, |free|, d, lo, a, hi, p);
        a := a + 1;
      }
      RoundUpAt(newsz, a);
      GrowingDone(owner0, ram0, |old(free)|, owner, ram, |free|, d, lo, hi, p);
      HoldsGranted(owner0, owner, ram, d, lo, hi, Clear());
      return true, newsz;
    }

    /** copyuvm's way out: the frame in hand and the whole new space go back. */
    method DropCopy(d: int, mem: int, ghost owner0: seq<Owner>, ghost ram0: Ram, ghost owner2: seq<Owner>,
                    ghost ram2: Ram)
      requires Valid() && |owner0| == |ram0| == |owner2| == |ram2| == PHYSTOP && IsDir(owner2, d) && d != 0
      requires mem == 0 || (0 < mem < PHYSTOP && owner2[mem] == Free)
      requires owner == (if mem == 0 then owner2 else owner2[mem := Other]) && NonFreeKept(owner2, ram2, ram)
      requires NewSpace(owner0, owner2, d) && NonFreeKept(owner0, ram0, ram2)
      modifies this
      ensures Valid() && owner == owner0 && NonFreeKept(owner0, ram0, ram)
    {
      hide Inv, FreeOk, Pte, NewSpace, NonFreeKept;
      if mem != 0 {
        ghost var ram3 := ram;
        Release(mem);
        BackKept(owner2, ram2, ram3, ram, mem);
      }
      assert owner == owner2;
      SpaceFreed(owner0, owner, d);
      FailedKept(owner0, ram0, owner2, ram2, ram, d);
      ghost var ram3 := ram;
      Freevm(d);
      FreedKept(owner0, ram0, owner2, ram3, owner, ram, d);
    }

    /**
     copyuvm: a new directory with the kernel's mappings and, for each page below `sz`, the same flags
     and contents on a frame that was free; or 0 and every frame back. !ok where the kernel panics.
     With `g` the first page that is missing, the frames needed up to there decide which it is.
     */
    method Copyuvm(p: int, sz: nat) returns (ok: bool, d: int)
      requires Valid() && IsDir(owner, p) && sz <= KERNBASE
      modifies this
      ensures RoundUp(sz) <= KPAGES
      ensures var g := FirstGap(old(ram), p, RoundUp(sz)); !ok <==> g < RoundUp(sz) && |old(free)| >= CopyFrames(g)
      ensures var g := FirstGap(old(ram), p, RoundUp(sz)); ok && d == 0 <==> |old(free)| < CopyFrames(g)
      ensures ok ==> Valid() && NonFreeKept(old(owner), old(ram), ram)
      ensures ok && d == 0 ==> owner == old(owner)
      ensures ok && d != 0 ==> NewSpace(old(owner), owner, d) && |free| == |old(free)| - CopyFrames(RoundUp(sz))
      ensures ok && d != 0 ==> forall v :: 0 <= v < RoundUp(sz) ==> Copies(old(owner), old(ram), ram, p, d, v)
      ensures ok && d != 0 ==> forall v :: RoundUp(sz) <= v < VPAGES ==> Entry(d, v) == KernelTo(4, v)
      ensures ok && d != 0 ==> forall v :: 0 <= v < RoundUp(sz) ==> Allows(ram, d, v) == Allows(old(ram), p, v)
      ensures ok && d != 0 ==> forall v :: RoundUp(sz) <= v < VPAGES ==> KernelPage(ram, d, v)
    {
      hide Inv, FreeOk, Pte, RoundUp, Grew, Holds, KernelTo, NewSpace, NonFreeKept, Copies, Lacks, Spent, FirstGap;
      hide CopyFrames, Allows, KernelPage;
      ghost var owner0, ram0, n := owner, ram, RoundUp(sz);
      RoundUpOrder(sz, sz);
      ghost var g := FirstGap(ram0, p, n);
      CopyFramesOrder(0, g);
      ok := true;
      d := Setupkvm();
      if d == 0 {
        return;
      }
      ghost var owner1, ram1 := owner, ram;
      SpaceDirs(owner0, owner1, d, p);
      GrewNothing(owner, ram, d, 0);
      var i := 0;
      while i * PGSIZE < sz
        invariant 0 <= i <= n && i <= g && Valid() && IsDir(owner, d) && IsDir(owner, p) && p != d
        invariant NewSpace(owner0, owner, d) && NonFreeKept(owner0, ram0, ram)
        invariant Grew(owner1, ram1, owner, ram, d, 0, i)
        invariant forall v :: 0 <= v < i ==> Copies(owner0, ram0, ram, p, d, v)
        invariant |free| == |old(free)| - CopyFrames(i)
        invariant forall k :: 0 <= k < Pdx(KPAGES) ==> (Present(ram[d][k]) <==> k * NPT < i)
      {
        RoundUpAt(sz, i);
        PteNonFree(ram0, owner0, ram, p, i);
        EntryAt(ram, owner, p, i);
        GapAt(ram0, p, n, i);
        var t := Walk(p, i, false);
        if t == 0 {
          return false, d;
        }
        TableAt(ram, owner, p, i);
        if !Present(ram[t][Ptx(i)]) {
          return false, d;
        }
        var pa, flags := ram[t][Ptx(i)].addr, ram[t][Ptx(i)].flags;
        OnlyOwner(ram0, owner0, p, i);
        ghost var owner2, ram2, n2 := owner, ram, |free|;
        TableLacks(ram2[d], i);
        CopyFramesOrder(i + 1, g);
        var r, mem := AddPage(d, i, ram[pa], flags);
        GrewEntry(owner1, ram1, owner2, ram2, d, 0, i);
        KernelAbove(i);
        assert r != Remap;
        if r == NoMemory {
          DropCopy(d, mem, owner0, ram0, owner2, ram2);
          return true, 0;
        }
        TableMade(ram2[d], n2 - 1, ram[d], |free|, i);
        GrewMore(owner1, ram1, owner2, ram2, owner, ram, d, 0, i);
        CopiedMore(owner0, ram0, owner2, ram2, owner, ram, p, d, i);
        i := i + 1;
      }
      RoundUpAt(sz, i);
      forall v | n <= v < VPAGES ensures Entry(d, v) == KernelTo(4, v) {
        GrewOther(owner1, ram1, owner, ram, d, i, v);
      }
      CopiesAllow(owner0, ram0, owner, ram, p, d, n);
      KernelPages(ram, owner, d, n);
    }
  }
}
