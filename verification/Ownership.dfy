/**
 Who holds which disk block. The free bitmap is a sequence of bytes with one bit for each
 block; a table lists, for every inode, the block numbers in its 13 address slots followed
 by the 128 entries of its indirect block.
 */
module Ownership {

  const NDIRECT := 12
  const NINDIRECT := 128
  const NSLOTS := NDIRECT + 1 + NINDIRECT

  // The bitmap.

  function Mask(i: nat): bv8
    requires i < 8
  {
    (1 as bv8) << i
  }

  // One byte of the bitmap.

  predicate HasBit(x: bv8, i: nat)
    requires i < 8
  {
    x & Mask(i) != 0
  }

  function WithBit(x: bv8, i: nat): bv8
    requires i < 8
  {
    x | Mask(i)
  }

  function WithoutBit(x: bv8, i: nat): bv8
    requires i < 8
  {
    x & !Mask(i)
  }

  // The whole bitmap.

  predicate Bit(bits: seq<bv8>, b: nat)
    requires b < 8 * |bits|
  {
    HasBit(bits[b / 8], b % 8)
  }

  function SetBit(bits: seq<bv8>, b: nat): seq<bv8>
    requires b < 8 * |bits|
  {
    bits[b / 8 := WithBit(bits[b / 8], b % 8)]
  }

  function ClearBit(bits: seq<bv8>, b: nat): seq<bv8>
    requires b < 8 * |bits|
  {
    bits[b / 8 := WithoutBit(bits[b / 8], b % 8)]
  }

  lemma MaskAt(i: nat)
    requires i < 8
    ensures Mask(i) == match i case 0 => 1 case 1 => 2 case 2 => 4 case 3 => 8
                               case 4 => 16 case 5 => 32 case 6 => 64 case _ => 128
  {
  }

  lemma MaskRaw(x: bv8, i: nat, j: nat)
    requires i < 8 && j < 8
    ensures (x | Mask(i)) & Mask(j) != 0 <==> i == j || x & Mask(j) != 0
    ensures (x & !Mask(i)) & Mask(j) != 0 <==> i != j && x & Mask(j) != 0
  {
    MaskAt(i);
    MaskAt(j);
  }

  lemma MaskBits(x: bv8, i: nat, j: nat)
    requires i < 8 && j < 8
    ensures HasBit(WithBit(x, i), j) <==> i == j || HasBit(x, j)
    ensures HasBit(WithoutBit(x, i), j) <==> i != j && HasBit(x, j)
  {
    hide Mask;
    MaskRaw(x, i, j);
  }

  lemma BitAfter(bits: seq<bv8>, b: nat, c: nat)
    requires b < 8 * |bits| && c < 8 * |bits|
    ensures Bit(SetBit(bits, b), c) <==> b == c || Bit(bits, c)
    ensures Bit(ClearBit(bits, b), c) <==> b != c && Bit(bits, c)
  {
    hide HasBit, WithBit, WithoutBit;
    var q, r, q', r' := b / 8, b % 8, c / 8, c % 8;
    DivMod8(b, c);
    if q == q' {
      MaskBits(bits[q], r, r');
      assert SetBit(bits, b)[q'] == WithBit(bits[q], r);
      assert ClearBit(bits, b)[q'] == WithoutBit(bits[q], r);
    } else {
      assert SetBit(bits, b)[q'] == bits[q'] && ClearBit(bits, b)[q'] == bits[q'];
    }
  }

  lemma DivMod8(b: nat, c: nat)
    ensures b == c <==> b / 8 == c / 8 && b % 8 == c % 8
  {
    assert b == 8 * (b / 8) + b % 8;
    assert c == 8 * (c / 8) + c % 8;
  }

  // The table of holders.

  type Table = seq<seq<nat>>

  ghost predicate Shaped(tab: Table) {
    forall i :: 0 <= i < |tab| ==> |tab[i]| == NSLOTS
  }

  ghost predicate IsSlot(tab: Table, i: int, k: int) { 0 <= i < |tab| && 0 <= k < NSLOTS }

  ghost predicate Holds(tab: Table, i: int, k: int, b: nat)
    requires Shaped(tab)
  {
    IsSlot(tab, i, k) && tab[i][k] == b
  }

  ghost predicate Held(tab: Table, b: nat)
    requires Shaped(tab)
  {
    exists i, k :: Holds(tab, i, k, b)
  }

  ghost function Put(tab: Table, i: int, k: int, b: nat): Table
    requires Shaped(tab) && IsSlot(tab, i, k)
  {
    var row: seq<nat> := tab[i][k := b];
    tab[i := row]
  }

  lemma PutHolds(tab: Table, i: int, k: int, b: nat, i': int, k': int, c: nat)
    requires Shaped(tab) && IsSlot(tab, i, k)
    ensures Shaped(Put(tab, i, k, b))
    ensures Holds(Put(tab, i, k, b), i', k', c) <==> if i == i' && k == k' then c == b else Holds(tab, i', k', c)
  {
  }

  /** No block is held twice. */
  ghost predicate Injective(tab: Table)
    requires Shaped(tab)
  {
    forall i, k, i', k', b: nat :: b != 0 && Holds(tab, i, k, b) && Holds(tab, i', k', b) ==> i == i' && k == k'
  }

  /** Blocks held are data blocks. */
  ghost predicate InData(tab: Table, first: nat, size: nat)
    requires Shaped(tab)
  {
    forall i, k, b: nat :: b != 0 && Holds(tab, i, k, b) ==> first <= b < size
  }

  /** A bit is set exactly for metadata and for blocks that somebody holds. */
  ghost predicate Exact(bits: seq<bv8>, tab: Table, first: nat, size: nat)
    requires Shaped(tab) && size <= 8 * |bits|
  {
    forall b: nat :: b < size ==> (Bit(bits, b) <==> b < first || Held(tab, b))
  }

  ghost predicate Owned(bits: seq<bv8>, tab: Table, first: nat, size: nat) {
    && Shaped(tab) && 1 <= first <= size <= 8 * |bits|
    && Injective(tab) && InData(tab, first, size) && Exact(bits, tab, first, size)
  }

  /** Taking a block whose bit is clear into an empty slot. */
  lemma ClaimOwned(bits: seq<bv8>, tab: Table, first: nat, size: nat, i: int, k: int, b: nat)
    requires Owned(bits, tab, first, size) && IsSlot(tab, i, k) && tab[i][k] == 0
    requires b < size && !Bit(bits, b)
    ensures Owned(SetBit(bits, b), Put(tab, i, k, b), first, size)
    ensures first <= b && !Held(tab, b)
  {
    hide Bit, SetBit, Put;
    var tab' := Put(tab, i, k, b);
    assert first <= b && !Held(tab, b);
    PutHolds(tab, i, k, b, i, k, b);
    forall i', k', c: nat
      ensures Holds(tab', i', k', c) <==> if i == i' && k == k' then c == b else Holds(tab, i', k', c)
    {
      PutHolds(tab, i, k, b, i', k', c);
    }
    SetLength(bits, b);
    forall c: nat | c < size ensures Bit(SetBit(bits, b), c) <==> c < first || Held(tab', c) {
      BitAfter(bits, b, c);
      if c != b && c >= first {
        HeldAfterPut(tab, i, k, b, c);
      }
    }
  }

  lemma SetLength(bits: seq<bv8>, b: nat)
    requires b < 8 * |bits|
    ensures |SetBit(bits, b)| == |ClearBit(bits, b)| == |bits|
  {
  }

  /** Writing a slot changes who is held only for its old and its new block. */
  lemma HeldAfterPut(tab: Table, i: int, k: int, b: nat, c: nat)
    requires Shaped(tab) && IsSlot(tab, i, k) && c != b && tab[i][k] != c
    ensures Shaped(Put(tab, i, k, b)) && (Held(Put(tab, i, k, b), c) <==> Held(tab, c))
  {
    hide Put;
    PutHolds(tab, i, k, b, i, k, c);
    if Held(tab, c) {
      var i', k' :| Holds(tab, i', k', c);
      PutHolds(tab, i, k, b, i', k', c);
    }
    if Held(Put(tab, i, k, b), c) {
      var i', k' :| Holds(Put(tab, i, k, b), i', k', c);
      PutHolds(tab, i, k, b, i', k', c);
    }
  }

  /** Giving back the block of a slot. Its bit is set, so the code cannot panic on a free block. */
  lemma ReleaseOwned(bits: seq<bv8>, tab: Table, first: nat, size: nat, i: int, k: int)
    requires Owned(bits, tab, first, size) && IsSlot(tab, i, k) && tab[i][k] != 0
    ensures tab[i][k] < size && Bit(bits, tab[i][k])
    ensures Owned(ClearBit(bits, tab[i][k]), Put(tab, i, k, 0), first, size)
  {
    hide Bit, ClearBit, Put;
    var b, tab' := tab[i][k], Put(tab, i, k, 0);
    assert Holds(tab, i, k, b);
    assert Held(tab, b);
    PutHolds(tab, i, k, 0, i, k, 0);
    forall i', k', c: nat
      ensures Holds(tab', i', k', c) <==> if i == i' && k == k' then c == 0 else Holds(tab, i', k', c)
    {
      PutHolds(tab, i, k, 0, i', k', c);
    }
    SetLength(bits, b);
    forall c: nat | c < size ensures Bit(ClearBit(bits, b), c) <==> c < first || Held(tab', c) {
      BitAfter(bits, b, c);
      if c == b {
        forall i', k' ensures !Holds(tab', i', k', b) {
          assert Holds(tab, i', k', b) ==> i' == i && k' == k;
        }
      } else if c >= first {
        HeldAfterPut(tab, i, k, 0, c);
      }
    }
  }

  /** The table with every slot of inode `i` emptied. */
  ghost predicate Emptied(tab: Table, i: int, tab': Table) {
    && Shaped(tab) && Shaped(tab') && 0 <= i < |tab| == |tab'|
    && (forall j :: 0 <= j < |tab| && j != i ==> tab'[j] == tab[j])
    && (forall k :: 0 <= k < NSLOTS ==> tab'[i][k] == 0)
  }

  /** Emptying an inode frees exactly the blocks it held. */
  lemma EmptiedBits(bits: seq<bv8>, tab: Table, bits': seq<bv8>, tab': Table, first: nat, size: nat, i: int, b: nat)
    requires Owned(bits, tab, first, size) && Owned(bits', tab', first, size) && Emptied(tab, i, tab') && 0 < b < size
    ensures Bit(bits', b) <==> Bit(bits, b) && !(exists k :: Holds(tab, i, k, b))
  {
    hide Bit;
    if Held(tab', b) {
      var j, k :| Holds(tab', j, k, b);
      assert j != i && Holds(tab, j, k, b);
      assert Held(tab, b);
    }
    if Held(tab, b) && !(exists k :: Holds(tab, i, k, b)) {
      var j, k :| Holds(tab, j, k, b);
      assert Holds(tab', j, k, b);
    }
    if exists k :: Holds(tab, i, k, b) {
      var k :| Holds(tab, i, k, b);
      assert Held(tab, b) && b >= first;
    }
  }
}
