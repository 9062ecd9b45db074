/**
 vm.c and kalloc.c on values: physical memory as pages of words, two-level page tables in it, and
 for every page frame its one owner.

 A 32-bit word is a pair: the page frame in its upper 20 bits and the flags in its lower 12. Pages
 are numbered: a virtual page 0..VPAGES is an address divided by PGSIZE.
 */
module PageTables {

  const NPT := 1024
  const VPAGES := 0x10_0000
  const KPAGES := 0x8_0000
  const PGSIZE := 4096
  const KERNBASE := 0x8000_0000
  const PTE_W := 2
  const PTE_U := 4

  datatype Word = Word(addr: int, flags: int)

  const ZERO := Word(0, 0)

  predicate Present(w: Word) {
    w.flags % 2 == 1
  }

  predicate Writable(w: Word) {
    w.flags / PTE_W % 2 == 1
  }

  predicate ForUser(w: Word) {
    w.flags / PTE_U % 2 == 1
  }

  type Ram = seq<seq<Word>>

  function Pdx(v: int): (i: int)
    requires 0 <= v < VPAGES
    ensures 0 <= i < NPT
  {
    v / NPT
  }

  function Ptx(v: int): (j: int)
    requires 0 <= v < VPAGES
    ensures 0 <= j < NPT
  {
    v % NPT
  }

  ghost predicate Shape(ram: Ram) {
    forall f :: 0 <= f < |ram| ==> |ram[f]| == NPT
  }

  /** The page table of directory `d` as a map: the entry for virtual page `v`. */
  ghost function Pte(ram: Ram, d: int, v: int): Word
    requires Shape(ram) && 0 <= d < |ram| && 0 <= v < VPAGES
  {
    var e := ram[d][Pdx(v)];
    if Present(e) && 0 <= e.addr < |ram| then ram[e.addr][Ptx(v)] else ZERO
  }

  /**
   Who holds a frame: the kernel's image; the free list; some other user of kalloc; or an address
   space, as its directory, as the table in slot `i` of directory `d`, or as page `v` of user memory.
   */
  datatype Owner = Kernel | Free | Other | Dir | Table(d: int, i: int) | User(d: int, v: int)

  ghost predicate IsDir(owner: seq<Owner>, d: int) {
    0 <= d < |owner| && owner[d] == Dir
  }

  ghost predicate Points(owner: seq<Owner>, w: Word, o: Owner) {
    0 <= w.addr < |owner| && owner[w.addr] == o
  }

  ghost predicate PdeOk(ram: Ram, owner: seq<Owner>, d: int, i: int)
    requires |ram| == |owner| && Shape(ram) && IsDir(owner, d) && 0 <= i < NPT
  {
    Present(ram[d][i]) ==> Points(owner, ram[d][i], Table(d, i)) && Writable(ram[d][i]) && ForUser(ram[d][i])
  }

  ghost predicate PteOk(ram: Ram, owner: seq<Owner>, d: int, v: int)
    requires |ram| == |owner| && Shape(ram) && IsDir(owner, d) && 0 <= v < VPAGES
  {
    v < KPAGES ==> if Present(Pte(ram, d, v)) then Points(owner, Pte(ram, d, v), User(d, v)) else Pte(ram, d, v) == ZERO
  }

  ghost predicate OwnerOk(ram: Ram, owner: seq<Owner>, f: int)
    requires |ram| == |owner| && Shape(ram) && 0 <= f < |owner|
  {
    match owner[f]
    case Table(d, i) => IsDir(owner, d) && 0 <= i < NPT && Present(ram[d][i]) && ram[d][i].addr == f
    case User(d, v) => IsDir(owner, d) && 0 <= v < KPAGES && Present(Pte(ram, d, v)) && Pte(ram, d, v).addr == f
    case _ => true
  }

  /** Every frame has exactly the owner whose entry points at it, and no directory entry restricts its pages. */
  ghost predicate Inv(ram: Ram, owner: seq<Owner>) {
    && |ram| == |owner| && Shape(ram)
    && (forall d, i :: IsDir(owner, d) && 0 <= i < NPT ==> PdeOk(ram, owner, d, i))
    && (forall d, v :: IsDir(owner, d) && 0 <= v < VPAGES ==> PteOk(ram, owner, d, v))
    && (forall f :: 0 <= f < |owner| ==> OwnerOk(ram, owner, f))
  }

  ghost predicate Structural(o: Owner) {
    o.Dir? || o.Table?
  }

  // Writes that are not page-table entries.

  /** The same address spaces: every directory maps every page as before. */
  ghost predicate SamePtes(owner: seq<Owner>, ram: Ram, ram': Ram)
    requires |ram| == |ram'| == |owner| && Shape(ram) && Shape(ram')
  {
    forall d, v :: IsDir(owner, d) && 0 <= v < VPAGES ==> Pte(ram', d, v) == Pte(ram, d, v)
  }

  lemma DataPte(ram: Ram, owner: seq<Owner>, f: int, page: seq<Word>, d: int, v: int)
    requires Inv(ram, owner) && 0 <= f < |ram| && |page| == NPT && !Structural(owner[f])
    requires IsDir(owner, d) && 0 <= v < VPAGES
    ensures Shape(ram[f := page]) && Pte(ram[f := page], d, v) == Pte(ram, d, v)
  {
    assert PdeOk(ram, owner, d, Pdx(v));
  }

  /** Writing a frame that is no table changes no address space. */
  lemma DataWrite(ram: Ram, owner: seq<Owner>, f: int, page: seq<Word>)
    requires Inv(ram, owner) && 0 <= f < |ram| && |page| == NPT && !Structural(owner[f])
    ensures Inv(ram[f := page], owner) && SamePtes(owner, ram, ram[f := page])
  {
    hide Pte;
    var ram' := ram[f := page];
    forall d, v | IsDir(owner, d) && 0 <= v < VPAGES
      ensures Shape(ram') && Pte(ram', d, v) == Pte(ram, d, v) && PteOk(ram', owner, d, v)
    {
      DataPte(ram, owner, f, page, d, v);
      assert PteOk(ram, owner, d, v);
    }
    forall d, i | IsDir(owner, d) && 0 <= i < NPT ensures PdeOk(ram', owner, d, i) {
      assert PdeOk(ram, owner, d, i);
    }
    forall g | 0 <= g < |owner| ensures OwnerOk(ram', owner, g) {
      assert OwnerOk(ram, owner, g);
    }
  }

  ghost predicate Loose(o: Owner) {
    o.Kernel? || o.Free? || o.Other?
  }

  /** A frame outside the address spaces passes between the free list and its other users. */
  lemma Recolor(ram: Ram, owner: seq<Owner>, f: int, o: Owner)
    requires Inv(ram, owner) && 0 <= f < |owner| && Loose(owner[f]) && Loose(o)
    ensures Inv(ram, owner[f := o])
  {
    hide Pte;
    var owner' := owner[f := o];
    forall d, v | IsDir(owner', d) && 0 <= v < VPAGES ensures PteOk(ram, owner', d, v) {
      assert PteOk(ram, owner, d, v);
    }
    forall d, i | IsDir(owner', d) && 0 <= i < NPT ensures PdeOk(ram, owner', d, i) {
      assert PdeOk(ram, owner, d, i);
    }
    forall g | 0 <= g < |owner| ensures OwnerOk(ram, owner', g) {
      assert OwnerOk(ram, owner, g);
    }
  }

  // Building an address space.

  ghost predicate Cleared(page: seq<Word>) {
    |page| == NPT && forall j :: 0 <= j < NPT ==> page[j] == ZERO
  }

  /** setupkvm: a cleared page becomes a directory that maps nothing. */
  lemma NewDir(ram: Ram, owner: seq<Owner>, d: int)
    requires Inv(ram, owner) && 0 <= d < |owner| && owner[d] == Other && Cleared(ram[d])
    ensures Inv(ram, owner[d := Dir]) && forall v :: 0 <= v < VPAGES ==> Pte(ram, d, v) == ZERO
  {
    var owner' := owner[d := Dir];
    forall v | 0 <= v < VPAGES ensures Pte(ram, d, v) == ZERO && PteOk(ram, owner', d, v) {
    }
    hide Pte;
    forall e, v | IsDir(owner', e) && 0 <= v < VPAGES ensures PteOk(ram, owner', e, v) {
      if e != d {
        assert PteOk(ram, owner, e, v);
      }
    }
    forall e, i | IsDir(owner', e) && 0 <= i < NPT ensures PdeOk(ram, owner', e, i) {
      if e != d {
        assert PdeOk(ram, owner, e, i);
      }
    }
    forall g | 0 <= g < |owner| ensures OwnerOk(ram, owner', g) {
      assert OwnerOk(ram, owner, g);
    }
  }

  /** Directory `d` with entry `i` replaced. */
  function PutWord(ram: Ram, f: int, i: int, w: Word): (r: Ram)
    requires 0 <= f < |ram| && 0 <= i < |ram[f]|
    ensures |r| == |ram| && (forall g :: 0 <= g < |ram| && g != f ==> r[g] == ram[g])
    ensures |r[f]| == |ram[f]| && r[f][i] == w && (forall k :: 0 <= k < |ram[f]| && k != i ==> r[f][k] == ram[f][k])
  {
    ram[f := ram[f][i := w]]
  }

  lemma AddTablePte(ram: Ram, owner: seq<Owner>, d: int, i: int, t: int, w: Word, e: int, v: int)
    requires Inv(ram, owner) && IsDir(owner, d) && 0 <= i < NPT && !Present(ram[d][i])
    requires 0 <= t < |owner| && owner[t] == Other && Cleared(ram[t]) && w.addr == t && Present(w)
    requires IsDir(owner, e) && 0 <= v < VPAGES
    ensures Shape(PutWord(ram, d, i, w)) && Pte(PutWord(ram, d, i, w), e, v) == Pte(ram, e, v)
  {
    assert PdeOk(ram, owner, e, Pdx(v));
  }

  /** walkpgdir: a cleared page becomes the table of an empty directory slot; no mapping changes. */
  lemma AddTable(ram: Ram, owner: seq<Owner>, d: int, i: int, t: int, w: Word)
    requires Inv(ram, owner) && IsDir(owner, d) && 0 <= i < NPT && !Present(ram[d][i])
    requires 0 <= t < |owner| && owner[t] == Other && Cleared(ram[t]) && w.addr == t && Present(w)
    requires Writable(w) && ForUser(w)
    ensures Inv(PutWord(ram, d, i, w), owner[t := Table(d, i)]) && SamePtes(owner, ram, PutWord(ram, d, i, w))
  {
    hide Pte;
    var ram', owner' := PutWord(ram, d, i, w), owner[t := Table(d, i)];
    forall e, v | IsDir(owner, e) && 0 <= v < VPAGES
      ensures Shape(ram') && Pte(ram', e, v) == Pte(ram, e, v) && PteOk(ram', owner', e, v) {
      AddTablePte(ram, owner, d, i, t, w, e, v);
      assert PteOk(ram, owner, e, v);
    }
    forall e, k | IsDir(owner', e) && 0 <= k < NPT ensures PdeOk(ram', owner', e, k) {
      assert PdeOk(ram, owner, e, k);
    }
    forall g | 0 <= g < |owner| ensures OwnerOk(ram', owner', g) {
      assert OwnerOk(ram, owner, g);
    }
  }

  /** The table that holds the entry for page `v`. */
  ghost predicate HasTable(ram: Ram, owner: seq<Owner>, d: int, v: int, t: int) {
    && |ram| == |owner| && Shape(ram) && IsDir(owner, d) && 0 <= v < VPAGES
    && Present(ram[d][Pdx(v)]) && t == ram[d][Pdx(v)].addr && 0 <= t < |ram|
  }

  /** Storing an entry changes the mapping of that one page. */
  lemma PutPte(ram: Ram, owner: seq<Owner>, d: int, v: int, t: int, w: Word, e: int, u: int)
    requires Inv(ram, owner) && HasTable(ram, owner, d, v, t) && IsDir(owner, e) && 0 <= u < VPAGES
    ensures var ram' := PutWord(ram, t, Ptx(v), w);
            Shape(ram') && Pte(ram', e, u) == if e == d && u == v then w else Pte(ram, e, u)
  {
    assert PdeOk(ram, owner, d, Pdx(v));
    assert PdeOk(ram, owner, e, Pdx(u));
  }

  /** Storing an entry when the owners agree with the new mapping. */
  lemma PutKeeps(ram: Ram, owner: seq<Owner>, owner': seq<Owner>, d: int, v: int, t: int, w: Word)
    requires Inv(ram, owner) && HasTable(ram, owner, d, v, t) && |owner'| == |owner|
    requires forall g :: 0 <= g < |owner| && (Structural(owner[g]) || Structural(owner'[g])) ==> owner'[g] == owner[g]
    requires forall g, e, u :: 0 <= g < |owner| && !(e == d && u == v) ==>
               (owner'[g] == User(e, u) <==> owner[g] == User(e, u))
    requires v < KPAGES ==> if Present(w) then Points(owner', w, User(d, v)) else w == ZERO
    requires forall g :: 0 <= g < |owner| && owner'[g] == User(d, v) ==> v < KPAGES && Present(w) && w.addr == g
    ensures Inv(PutWord(ram, t, Ptx(v), w), owner')
  {
    hide Pte;
    var ram' := PutWord(ram, t, Ptx(v), w);
    assert owner[t] == Table(d, Pdx(v)) by { assert PdeOk(ram, owner, d, Pdx(v)); }
    forall e, u | IsDir(owner', e) && 0 <= u < VPAGES ensures Shape(ram') && PteOk(ram', owner', e, u) {
      PutPte(ram, owner, d, v, t, w, e, u);
      assert PteOk(ram, owner, e, u);
    }
    forall e, k | IsDir(owner', e) && 0 <= k < NPT ensures PdeOk(ram', owner', e, k) {
      assert PdeOk(ram, owner, e, k);
    }
    forall g | 0 <= g < |owner| ensures OwnerOk(ram', owner', g) {
      assert OwnerOk(ram, owner, g);
      if owner'[g].User? && 0 <= owner'[g].v < VPAGES && IsDir(owner, owner'[g].d) {
        PutPte(ram, owner, d, v, t, w, owner'[g].d, owner'[g].v);
      }
    }
  }

  /** mappages below KERNBASE: the frame becomes page `v` of `d`. */
  lemma MapUser(ram: Ram, owner: seq<Owner>, d: int, v: int, t: int, w: Word)
    requires Inv(ram, owner) && HasTable(ram, owner, d, v, t) && v < KPAGES && !Present(ram[t][Ptx(v)])
    requires Present(w) && Points(owner, w, Other)
    ensures Inv(PutWord(ram, t, Ptx(v), w), owner[w.addr := User(d, v)])
  {
    forall g | 0 <= g < |owner| ensures owner[g] != User(d, v) {
      assert OwnerOk(ram, owner, g);
    }
    hide Inv, Pte;
    PutKeeps(ram, owner, owner[w.addr := User(d, v)], d, v, t, w);
  }

  /** mappages above KERNBASE: the frame keeps its owner. */
  lemma MapKernel(ram: Ram, owner: seq<Owner>, d: int, v: int, t: int, w: Word)
    requires Inv(ram, owner) && HasTable(ram, owner, d, v, t) && v >= KPAGES
    ensures Inv(PutWord(ram, t, Ptx(v), w), owner)
  {
    forall g | 0 <= g < |owner| ensures owner[g] != User(d, v) {
      assert OwnerOk(ram, owner, g);
    }
    hide Inv, Pte;
    PutKeeps(ram, owner, owner, d, v, t, w);
  }

  /** deallocuvm: page `v` goes, and its frame has no owner in any address space. */
  lemma Unmap(ram: Ram, owner: seq<Owner>, d: int, v: int, t: int, o: Owner)
    requires Inv(ram, owner) && HasTable(ram, owner, d, v, t) && v < KPAGES && Present(ram[t][Ptx(v)]) && Loose(o)
    ensures Points(owner, ram[t][Ptx(v)], User(d, v))
    ensures Inv(PutWord(ram, t, Ptx(v), ZERO), owner[ram[t][Ptx(v)].addr := o])
  {
    assert PteOk(ram, owner, d, v);
    var f := ram[t][Ptx(v)].addr;
    forall g | 0 <= g < |owner| && owner[g] == User(d, v) ensures g == f {
      assert OwnerOk(ram, owner, g);
    }
    hide Inv, Pte;
    PutKeeps(ram, owner, owner[f := o], d, v, t, ZERO);
  }

  // Taking an address space apart.

  /** `f` belongs to the address space of `d`. */
  ghost predicate OwnedBy(owner: seq<Owner>, f: int, d: int)
    requires 0 <= f < |owner|
  {
    match owner[f]
    case Dir => f == d
    case Table(e, _) => e == d
    case User(e, _) => e == d
    case _ => false
  }

  /** The owners once every frame of `d` has gone to `o`. */
  ghost function Dismantled(owner: seq<Owner>, d: int, o: Owner): seq<Owner> {
    seq(|owner|, f requires 0 <= f < |owner| => if OwnedBy(owner, f, d) then o else owner[f])
  }

  lemma Dismantle(ram: Ram, owner: seq<Owner>, d: int, o: Owner)
    requires Inv(ram, owner) && IsDir(owner, d) && Loose(o)
    ensures Inv(ram, Dismantled(owner, d, o))
  {
    hide Pte;
    var owner' := Dismantled(owner, d, o);
    forall e, u | IsDir(owner', e) && 0 <= u < VPAGES ensures PteOk(ram, owner', e, u) {
      assert PteOk(ram, owner, e, u);
    }
    forall e, k | IsDir(owner', e) && 0 <= k < NPT ensures PdeOk(ram, owner', e, k) {
      assert PdeOk(ram, owner, e, k);
    }
    forall g | 0 <= g < |owner| ensures OwnerOk(ram, owner', g) {
      assert OwnerOk(ram, owner, g);
    }
  }

  // What a page allows.

  /** What the processor lets an access do: read, write, and do it from user mode. */
  datatype Access = Access(read: bool, write: bool, user: bool)

  const NO_ACCESS := Access(false, false, false)

  /** An access passes two entries, so it may do what both its directory entry and its table entry allow. */
  ghost function Allows(ram: Ram, d: int, v: int): Access
    requires Shape(ram) && 0 <= d < |ram| && 0 <= v < VPAGES
  {
    var e, w := ram[d][Pdx(v)], Pte(ram, d, v);
    if Present(e) && Present(w) then Access(true, Writable(e) && Writable(w), ForUser(e) && ForUser(w)) else NO_ACCESS
  }

  /** Directory entries never restrict a page: what it allows is what its own entry says. */
  lemma AllowsPte(ram: Ram, owner: seq<Owner>, d: int, v: int)
    requires Inv(ram, owner) && IsDir(owner, d) && 0 <= v < VPAGES
    ensures var w := Pte(ram, d, v);
            Allows(ram, d, v) == if Present(w) then Access(true, Writable(w), ForUser(w)) else NO_ACCESS
  {
    assert PdeOk(ram, owner, d, Pdx(v));
  }

  // What the owners say.

  /** An entry of some address space points at frame `f`; `o` names the entry. */
  ghost predicate HeldBy(ram: Ram, owner: seq<Owner>, f: int, o: Owner)
    requires |ram| == |owner| && Shape(ram)
  {
    match o
    case Table(d, i) => IsDir(owner, d) && 0 <= i < NPT && Present(ram[d][i]) && ram[d][i].addr == f
    case User(d, v) => IsDir(owner, d) && 0 <= v < KPAGES && Present(Pte(ram, d, v)) && Pte(ram, d, v).addr == f
    case _ => false
  }

  /** Frames are partitioned: at most one entry points at a frame, and none at a directory or a free frame. */
  lemma Partition(ram: Ram, owner: seq<Owner>, f: int, o: Owner)
    requires Inv(ram, owner) && 0 <= f < |owner| && (o.Table? || o.User?)
    ensures HeldBy(ram, owner, f, o) <==> owner[f] == o
  {
    assert OwnerOk(ram, owner, f);
    if HeldBy(ram, owner, f, o) {
      if o.Table? {
        assert PdeOk(ram, owner, o.d, o.i);
      } else {
        assert PteOk(ram, owner, o.d, o.v);
      }
    }
  }
}
