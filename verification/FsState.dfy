/**
 Inodes, their block maps and their contents, as values. Indirect blocks are ordinary disk
 blocks whose bytes hold 32-bit block numbers in little-endian order.
 */
module FsState {
  import opened Counting
  import opened Ownership

  const BSIZE := 512
  const MAXFILE := NDIRECT + NINDIRECT

  datatype Block = Block(bytes: seq<nat>) {
    predicate Sized() { |bytes| == BSIZE }
  }

  datatype Inode = Inode(addrs: seq<nat>, size: nat)

  /** Data blocks are numbered from `first`; there are `size` blocks in all. */
  datatype Layout = Layout(first: nat, size: nat, inodestart: nat, bmapstart: nat)

  datatype Fs = Fs(bits: seq<bv8>, disk: seq<Block>, inodes: seq<Inode>)

  // Words in a block.

  function WordAt(b: Block, j: nat): nat
    requires b.Sized() && j < NINDIRECT
  {
    b.bytes[4 * j] + 0x100 * b.bytes[4 * j + 1] + 0x1_0000 * b.bytes[4 * j + 2] + 0x100_0000 * b.bytes[4 * j + 3]
  }

  function PutWord(b: Block, j: nat, w: nat): (r: Block)
    requires b.Sized() && j < NINDIRECT && w < WORD
    ensures r.Sized()
  {
    Block(b.bytes[4 * j := w % 0x100][4 * j + 1 := (w / 0x100) % 0x100]
                 [4 * j + 2 := (w / 0x1_0000) % 0x100][4 * j + 3 := w / 0x100_0000])
  }

  lemma WordAfterPut(b: Block, j: nat, w: nat, i: nat)
    requires b.Sized() && j < NINDIRECT && w < WORD && i < NINDIRECT
    ensures WordAt(PutWord(b, j, w), i) == if i == j then w else WordAt(b, i)
  {
    if i == j {
      SplitWord(w);
    }
  }

  lemma SplitWord(w: nat)
    requires w < WORD
    ensures w == w % 0x100 + 0x100 * ((w / 0x100) % 0x100)
                 + 0x1_0000 * ((w / 0x1_0000) % 0x100) + 0x100_0000 * (w / 0x100_0000)
  {
    assert w / 0x1_0000 == (w / 0x100) / 0x100;
    assert w / 0x100_0000 == (w / 0x1_0000) / 0x100;
  }

  function Zero(): (b: Block)
    ensures b.Sized() && forall k :: 0 <= k < BSIZE ==> b.bytes[k] == 0
  {
    Block(seq(BSIZE, _ => 0))
  }

  // Block maps.

  ghost predicate Wf(l: Layout, s: Fs) {
    && 1 <= l.first <= l.size == |s.disk| <= 8 * |s.bits| && l.size <= WORD
    && (forall b :: 0 <= b < |s.disk| ==> s.disk[b].Sized())
    && (forall i :: 0 <= i < |s.inodes| ==> |s.inodes[i].addrs| == NDIRECT + 1 && s.inodes[i].addrs[NDIRECT] < l.size)
  }

  /** Slot `k` of inode `i`: an address, or an entry of the indirect block if there is one. */
  ghost function SlotVal(l: Layout, s: Fs, i: nat, k: nat): nat
    requires Wf(l, s) && i < |s.inodes| && k < NSLOTS
  {
    if k <= NDIRECT then s.inodes[i].addrs[k]
    else if s.inodes[i].addrs[NDIRECT] == 0 then 0
    else WordAt(s.disk[s.inodes[i].addrs[NDIRECT]], k - NDIRECT - 1)
  }

  ghost function Row(l: Layout, s: Fs, i: nat): seq<nat>
    requires Wf(l, s) && i < |s.inodes|
  {
    seq(NSLOTS, k requires 0 <= k < NSLOTS => SlotVal(l, s, i, k))
  }

  ghost function Tab(l: Layout, s: Fs): (tab: Table)
    requires Wf(l, s)
    ensures Shaped(tab) && |tab| == |s.inodes|
  {
    seq(|s.inodes|, i requires 0 <= i < |s.inodes| => Row(l, s, i))
  }

  ghost predicate Ok(l: Layout, s: Fs) {
    Wf(l, s) && Owned(s.bits, Tab(l, s), l.first, l.size)
  }

  /** The slot that maps block `bn` of a file. */
  function SlotOf(bn: nat): nat { if bn < NDIRECT then bn else bn + 1 }

  /** The disk block of block `bn` of inode `i`, 0 if there is none. */
  ghost function BlockOf(l: Layout, s: Fs, i: nat, bn: nat): nat
    requires Wf(l, s) && i < |s.inodes| && bn < MAXFILE
  {
    SlotVal(l, s, i, SlotOf(bn))
  }

  lemma SlotHeld(l: Layout, s: Fs, i: nat, k: nat)
    requires Wf(l, s) && i < |s.inodes| && k < NSLOTS
    ensures Holds(Tab(l, s), i, k, SlotVal(l, s, i, k))
  {
  }

  /** Two slots that name the same block are the same slot. */
  lemma SlotsDiffer(l: Layout, s: Fs, i: nat, k: nat, i': nat, k': nat)
    requires Ok(l, s) && i < |s.inodes| && k < NSLOTS && i' < |s.inodes| && k' < NSLOTS
    requires SlotVal(l, s, i, k) == SlotVal(l, s, i', k') != 0
    ensures i == i' && k == k'
  {
    hide Tab, SlotVal;
    SlotHeld(l, s, i, k);
    SlotHeld(l, s, i', k');
  }

  lemma SlotInData(l: Layout, s: Fs, i: nat, k: nat)
    requires Ok(l, s) && i < |s.inodes| && k < NSLOTS && SlotVal(l, s, i, k) != 0
    ensures l.first <= SlotVal(l, s, i, k) < l.size && Bit(s.bits, SlotVal(l, s, i, k))
  {
    hide Tab, SlotVal, Bit;
    SlotHeld(l, s, i, k);
    assert Held(Tab(l, s), SlotVal(l, s, i, k));
  }

  // Taking a new block into an empty slot.

  /** balloc's effect: the bit is set and the block is zeroed. */
  ghost function Allocated(l: Layout, s: Fs, b: nat): Fs
    requires Wf(l, s) && b < l.size
  {
    s.(bits := SetBit(s.bits, b), disk := s.disk[b := Zero()])
  }

  ghost function WithAddr(l: Layout, s: Fs, i: nat, k: nat, b: nat): Fs
    requires Wf(l, s) && i < |s.inodes| && k <= NDIRECT
  {
    s.(inodes := s.inodes[i := s.inodes[i].(addrs := s.inodes[i].addrs[k := b])])
  }

  ghost function WithEntry(l: Layout, s: Fs, i: nat, j: nat, b: nat): Fs
    requires Wf(l, s) && i < |s.inodes| && j < NINDIRECT && b < WORD
  {
    var ind := s.inodes[i].addrs[NDIRECT];
    s.(disk := s.disk[ind := PutWord(s.disk[ind], j, b)])
  }

  ghost function Claimed(l: Layout, s: Fs, i: nat, k: nat, b: nat): Fs
    requires Wf(l, s) && i < |s.inodes| && k < NSLOTS && b < l.size
  {
    AllocatedWf(l, s, b);
    if k <= NDIRECT then WithAddr(l, Allocated(l, s, b), i, k, b)
    else WithEntry(l, Allocated(l, s, b), i, k - NDIRECT - 1, b)
  }

  lemma AllocatedWf(l: Layout, s: Fs, b: nat)
    requires Wf(l, s) && b < l.size
    ensures Wf(l, Allocated(l, s, b))
  {
    SetLength(s.bits, b);
  }

  /** A block whose bit is clear is in no slot. */
  lemma FreeIsUnheld(l: Layout, s: Fs, b: nat, i: nat, k: nat)
    requires Ok(l, s) && b < l.size && !Bit(s.bits, b) && i < |s.inodes| && k < NSLOTS
    ensures l.first <= b && SlotVal(l, s, i, k) != b
  {
    hide Tab, SlotVal, Bit;
    SlotHeld(l, s, i, k);
    assert Held(Tab(l, s), SlotVal(l, s, i, k));
  }

  ghost predicate CanClaim(l: Layout, s: Fs, i: nat, k: nat, b: nat) {
    && Ok(l, s) && i < |s.inodes| && k < NSLOTS && b < l.size
    && !Bit(s.bits, b) && SlotVal(l, s, i, k) == 0
    && (k > NDIRECT ==> s.inodes[i].addrs[NDIRECT] != 0)
  }

  lemma ClaimWf(l: Layout, s: Fs, i: nat, k: nat, b: nat)
    requires CanClaim(l, s, i, k, b)
    ensures Wf(l, Claimed(l, s, i, k, b))
  {
    hide Owned, Tab, Bit, SetBit;
    AllocatedWf(l, s, b);
  }

  /** Only slot (i, k) changes: nobody else's indirect block was touched. */
  lemma ClaimSlot(l: Layout, s: Fs, i: nat, k: nat, b: nat, i': nat, k': nat)
    requires CanClaim(l, s, i, k, b) && i' < |s.inodes| && k' < NSLOTS
    ensures Wf(l, Claimed(l, s, i, k, b))
    ensures SlotVal(l, Claimed(l, s, i, k, b), i', k') == if i == i' && k == k' then b else SlotVal(l, s, i', k')
  {
    hide Owned, Tab, Bit, SetBit, WordAt, PutWord;
    ClaimWf(l, s, i, k, b);
    var t := Claimed(l, s, i, k, b);
    FreeIsUnheld(l, s, b, i', NDIRECT);
    if k' > NDIRECT {
      if k < NDIRECT {
      } else if k == NDIRECT {
        if i == i' {
          ZeroWord(k' - NDIRECT - 1);
        }
      } else if s.inodes[i'].addrs[NDIRECT] != 0 {
        FreeIsUnheld(l, s, b, i, NDIRECT);
        if s.inodes[i'].addrs[NDIRECT] == s.inodes[i].addrs[NDIRECT] {
          SlotsDiffer(l, s, i, NDIRECT, i', NDIRECT);
          WordAfterPut(s.disk[s.inodes[i].addrs[NDIRECT]], k - NDIRECT - 1, b, k' - NDIRECT - 1);
        }
      }
    }
  }

  lemma ZeroWord(j: nat)
    requires j < NINDIRECT
    ensures WordAt(Zero(), j) == 0
  {
  }

  lemma ClaimTab(l: Layout, s: Fs, i: nat, k: nat, b: nat)
    requires CanClaim(l, s, i, k, b)
    ensures Wf(l, Claimed(l, s, i, k, b))
    ensures Tab(l, Claimed(l, s, i, k, b)) == Put(Tab(l, s), i, k, b)
  {
    hide Owned, SlotVal, Bit, Claimed;
    ClaimWf(l, s, i, k, b);
    ClaimCount(l, s, i, k, b);
    var t, p := Claimed(l, s, i, k, b), Put(Tab(l, s), i, k, b);
    forall i' | 0 <= i' < |s.inodes| ensures Tab(l, t)[i'] == p[i'] {
      forall k' | 0 <= k' < NSLOTS ensures Tab(l, t)[i'][k'] == p[i'][k'] {
        ClaimSlot(l, s, i, k, b, i', k');
      }
    }
  }

  lemma ClaimCount(l: Layout, s: Fs, i: nat, k: nat, b: nat)
    requires CanClaim(l, s, i, k, b)
    ensures |Claimed(l, s, i, k, b).inodes| == |s.inodes| && Claimed(l, s, i, k, b).bits == SetBit(s.bits, b)
    ensures forall x :: 0 <= x < |s.inodes| ==> Claimed(l, s, i, k, b).inodes[x].size == s.inodes[x].size
  {
    hide Owned, Tab, Bit, SetBit, SlotVal;
  }

  /** Taking a free block into an empty slot keeps every block held at most once and the bitmap exact. */
  lemma ClaimOk(l: Layout, s: Fs, i: nat, k: nat, b: nat)
    requires CanClaim(l, s, i, k, b)
    ensures Ok(l, Claimed(l, s, i, k, b))
  {
    hide Owned, SlotVal, Bit, SetBit, Claimed;
    ClaimTab(l, s, i, k, b);
    ClaimCount(l, s, i, k, b);
    ClaimOwned(s.bits, Tab(l, s), l.first, l.size, i, k, b);
  }

  /** ... and leaves the bytes of every mapped file block alone. */
  lemma ClaimBytes(l: Layout, s: Fs, i: nat, k: nat, b: nat, i': nat, bn: nat)
    requires CanClaim(l, s, i, k, b) && i' < |s.inodes| && bn < MAXFILE && BlockOf(l, s, i', bn) != 0
    ensures Wf(l, Claimed(l, s, i, k, b)) && l.first <= BlockOf(l, s, i', bn) < l.size
    ensures BlockOf(l, Claimed(l, s, i, k, b), i', bn) == BlockOf(l, s, i', bn)
    ensures Claimed(l, s, i, k, b).disk[BlockOf(l, s, i', bn)] == s.disk[BlockOf(l, s, i', bn)]
  {
    hide Owned, Tab, Bit, SetBit, PutWord, WordAt;
    ClaimSlot(l, s, i, k, b, i', SlotOf(bn));
    SlotInData(l, s, i', SlotOf(bn));
    FreeIsUnheld(l, s, b, i', SlotOf(bn));
    if k > NDIRECT && s.inodes[i].addrs[NDIRECT] == BlockOf(l, s, i', bn) {
      SlotsDiffer(l, s, i, NDIRECT, i', SlotOf(bn));
    }
  }

  // Writing into a file block.

  ghost function Written(l: Layout, s: Fs, b: nat, c: Block): Fs
    requires Wf(l, s) && b < l.size
  {
    s.(disk := s.disk[b := c])
  }

  lemma WriteSlot(l: Layout, s: Fs, i: nat, bn: nat, c: Block, i': nat, k': nat)
    requires Ok(l, s) && i < |s.inodes| && bn < MAXFILE && BlockOf(l, s, i, bn) != 0 && c.Sized()
    requires i' < |s.inodes| && k' < NSLOTS
    ensures BlockOf(l, s, i, bn) < l.size && Wf(l, Written(l, s, BlockOf(l, s, i, bn), c))
    ensures SlotVal(l, Written(l, s, BlockOf(l, s, i, bn), c), i', k') == SlotVal(l, s, i', k')
  {
    hide Owned, Tab, Bit, WordAt;
    SlotInData(l, s, i, SlotOf(bn));
    if k' > NDIRECT && s.inodes[i'].addrs[NDIRECT] == BlockOf(l, s, i, bn) {
      SlotsDiffer(l, s, i, SlotOf(bn), i', NDIRECT);
    }
  }

  lemma WriteOk(l: Layout, s: Fs, i: nat, bn: nat, c: Block)
    requires Ok(l, s) && i < |s.inodes| && bn < MAXFILE && BlockOf(l, s, i, bn) != 0 && c.Sized()
    ensures BlockOf(l, s, i, bn) < l.size
    ensures Ok(l, Written(l, s, BlockOf(l, s, i, bn), c))
  {
    hide Owned, SlotVal;
    WriteSlot(l, s, i, bn, c, i, 0);
    var t := Written(l, s, BlockOf(l, s, i, bn), c);
    forall i' | 0 <= i' < |s.inodes| ensures Tab(l, t)[i'] == Tab(l, s)[i'] {
      forall k' | 0 <= k' < NSLOTS ensures Tab(l, t)[i'][k'] == Tab(l, s)[i'][k'] {
        WriteSlot(l, s, i, bn, c, i', k');
      }
    }
    assert Tab(l, t) == Tab(l, s);
  }

  // Contents.

  ghost predicate Mapped(l: Layout, s: Fs, i: nat, x: nat)
    requires Wf(l, s) && i < |s.inodes|
  {
    x < MAXFILE * BSIZE && 0 < BlockOf(l, s, i, x / BSIZE) < l.size
  }

  ghost function ByteAt(l: Layout, s: Fs, i: nat, x: nat): nat
    requires Wf(l, s) && i < |s.inodes| && Mapped(l, s, i, x)
  {
    s.disk[BlockOf(l, s, i, x / BSIZE)].bytes[x % BSIZE]
  }

  /** Every byte below the size is in a mapped block. */
  ghost predicate HoleFree(l: Layout, s: Fs, i: nat)
    requires Wf(l, s) && i < |s.inodes|
  {
    s.inodes[i].size <= MAXFILE * BSIZE && forall x: nat :: x < s.inodes[i].size ==> Mapped(l, s, i, x)
  }

  ghost function Contents(l: Layout, s: Fs, i: nat): seq<nat>
    requires Wf(l, s) && i < |s.inodes| && HoleFree(l, s, i)
  {
    seq(s.inodes[i].size, x requires 0 <= x < s.inodes[i].size => ByteAt(l, s, i, x))
  }

  /** A block is mapped as soon as it is not 0. */
  lemma MappedIff(l: Layout, s: Fs, i: nat, x: nat)
    requires Ok(l, s) && i < |s.inodes| && x < MAXFILE * BSIZE
    ensures Mapped(l, s, i, x) <==> BlockOf(l, s, i, x / BSIZE) != 0
  {
    hide Owned, Tab, SlotVal;
    if BlockOf(l, s, i, x / BSIZE) != 0 {
      SlotInData(l, s, i, SlotOf(x / BSIZE));
    }
  }

  ghost predicate SameByte(l: Layout, s: Fs, t: Fs, i: nat, x: nat)
    requires Wf(l, s) && Wf(l, t) && i < |s.inodes| == |t.inodes|
  {
    Mapped(l, s, i, x) ==> Mapped(l, t, i, x) && ByteAt(l, t, i, x) == ByteAt(l, s, i, x)
  }

  /** `t` is `s` with more blocks allocated, perhaps, and no byte of any file changed. */
  ghost predicate Grown(l: Layout, s: Fs, t: Fs) {
    && Ok(l, s) && Ok(l, t) && |s.inodes| == |t.inodes|
    && (forall i :: 0 <= i < |s.inodes| ==> t.inodes[i].size == s.inodes[i].size)
    && (forall i: nat, k: nat :: i < |s.inodes| && k < NSLOTS ==> KeptSlot(l, s, t, i, k))
    && (forall i: nat, x: nat :: i < |s.inodes| ==> SameByte(l, s, t, i, x))
  }

  ghost predicate KeptSlot(l: Layout, s: Fs, t: Fs, i: nat, k: nat)
    requires Wf(l, s) && Wf(l, t) && i < |s.inodes| == |t.inodes| && k < NSLOTS
  {
    SlotVal(l, s, i, k) != 0 ==> SlotVal(l, t, i, k) == SlotVal(l, s, i, k)
  }

  lemma GrownTrans(l: Layout, s: Fs, t: Fs, u: Fs)
    requires Grown(l, s, t) && Grown(l, t, u)
    ensures Grown(l, s, u)
  {
    hide Owned, Tab, Mapped, ByteAt, SlotVal;
    forall i: nat, k: nat | i < |s.inodes| && k < NSLOTS ensures KeptSlot(l, s, u, i, k) {
      assert KeptSlot(l, s, t, i, k) && KeptSlot(l, t, u, i, k);
    }
    forall i: nat, x: nat | i < |s.inodes| ensures SameByte(l, s, u, i, x) {
      assert SameByte(l, s, t, i, x) && SameByte(l, t, u, i, x);
    }
  }

  lemma ClaimGrows(l: Layout, s: Fs, i: nat, k: nat, b: nat)
    requires CanClaim(l, s, i, k, b)
    ensures Grown(l, s, Claimed(l, s, i, k, b))
    ensures SlotVal(l, Claimed(l, s, i, k, b), i, k) == b && l.first <= b
  {
    hide Owned, Tab, Bit, SetBit, SlotVal, Claimed;
    ClaimOk(l, s, i, k, b);
    ClaimCount(l, s, i, k, b);
    ClaimSlot(l, s, i, k, b, i, k);
    FreeIsUnheld(l, s, b, i, k);
    var t := Claimed(l, s, i, k, b);
    forall i': nat, k': nat | i' < |s.inodes| && k' < NSLOTS ensures KeptSlot(l, s, t, i', k') {
      ClaimSlot(l, s, i, k, b, i', k');
    }
    forall i': nat, x: nat | i' < |s.inodes| ensures SameByte(l, s, t, i', x) {
      if Mapped(l, s, i', x) {
        ClaimBytes(l, s, i, k, b, i', x / BSIZE);
      }
    }
  }

  /** One file block rewritten: exactly its bytes change. */
  lemma WriteBytes(l: Layout, s: Fs, i: nat, bn: nat, c: Block, i': nat, x: nat)
    requires Ok(l, s) && i < |s.inodes| && bn < MAXFILE && BlockOf(l, s, i, bn) != 0 && c.Sized() && i' < |s.inodes|
    ensures BlockOf(l, s, i, bn) < l.size
    ensures Wf(l, Written(l, s, BlockOf(l, s, i, bn), c))
    ensures Mapped(l, Written(l, s, BlockOf(l, s, i, bn), c), i', x) <==> Mapped(l, s, i', x)
    ensures Mapped(l, s, i', x) ==>
              ByteAt(l, Written(l, s, BlockOf(l, s, i, bn), c), i', x)
              == if i == i' && x / BSIZE == bn then c.bytes[x % BSIZE] else ByteAt(l, s, i', x)
  {
    hide Owned, Tab, SlotVal;
    WriteSlot(l, s, i, bn, c, i', 0);
    if x < MAXFILE * BSIZE {
      WriteSlot(l, s, i, bn, c, i', SlotOf(x / BSIZE));
      if BlockOf(l, s, i', x / BSIZE) == BlockOf(l, s, i, bn) {
        SlotsDiffer(l, s, i, SlotOf(bn), i', SlotOf(x / BSIZE));
      }
    }
  }

  // A write under way: the first `tot` bytes of `src` are in place at `off` of file `i`.

  ghost predicate PlacedByte(l: Layout, s0: Fs, s: Fs, i: nat, off: nat, src: seq<nat>, tot: nat, x: nat)
    requires Wf(l, s0) && Wf(l, s) && i < |s0.inodes| == |s.inodes| && tot <= |src|
  {
    if off <= x < off + tot then Mapped(l, s, i, x) && ByteAt(l, s, i, x) == src[x - off]
    else SameByte(l, s0, s, i, x)
  }

  ghost predicate Writing(l: Layout, s0: Fs, s: Fs, i: nat, off: nat, src: seq<nat>, tot: nat) {
    && Ok(l, s0) && Ok(l, s) && i < |s0.inodes| == |s.inodes| && tot <= |src|
    && (forall j :: 0 <= j < |s.inodes| ==> s.inodes[j].size == s0.inodes[j].size)
    && (forall j: nat, x: nat :: j < |s.inodes| && j != i ==> SameByte(l, s0, s, j, x))
    && (forall x: nat :: PlacedByte(l, s0, s, i, off, src, tot, x))
  }

  lemma WritingStart(l: Layout, s: Fs, i: nat, off: nat, src: seq<nat>)
    requires Ok(l, s) && i < |s.inodes|
    ensures Writing(l, s, s, i, off, src, 0)
  {
    hide Owned, Tab, SlotVal, Mapped, ByteAt;
  }

  lemma WritingGrows(l: Layout, s0: Fs, s: Fs, t: Fs, i: nat, off: nat, src: seq<nat>, tot: nat)
    requires Writing(l, s0, s, i, off, src, tot) && Grown(l, s, t)
    ensures Writing(l, s0, t, i, off, src, tot)
  {
    hide Owned, Tab, SlotVal, Mapped, ByteAt;
    forall j: nat, x: nat | j < |s.inodes| && j != i ensures SameByte(l, s0, t, j, x) {
      assert SameByte(l, s0, s, j, x) && SameByte(l, s, t, j, x);
    }
    forall x: nat ensures PlacedByte(l, s0, t, i, off, src, tot, x) {
      assert PlacedByte(l, s0, s, i, off, src, tot, x) && SameByte(l, s, t, i, x);
    }
  }

  /** `m` bytes of a block replaced from offset `o` on. */
  function Patched(b: Block, o: nat, data: seq<nat>): (r: Block)
    requires b.Sized() && o + |data| <= BSIZE
    ensures r.Sized()
    ensures forall k :: 0 <= k < BSIZE ==> r.bytes[k] == if o <= k < o + |data| then data[k - o] else b.bytes[k]
  {
    Block(b.bytes[..o] + data + b.bytes[o + |data|..])
  }

  lemma WritingMore(l: Layout, s0: Fs, s: Fs, i: nat, off: nat, src: seq<nat>, tot: nat, m: nat)
    requires Writing(l, s0, s, i, off, src, tot) && tot + m <= |src| && off + |src| <= MAXFILE * BSIZE && 0 < m
    requires (off + tot) % BSIZE + m <= BSIZE && BlockOf(l, s, i, (off + tot) / BSIZE) != 0
    ensures var b := BlockOf(l, s, i, (off + tot) / BSIZE);
            b < l.size
            && var data := Patched(s.disk[b], (off + tot) % BSIZE, src[tot..tot + m]);
               Writing(l, s0, Written(l, s, b, data), i, off, src, tot + m)
  {
    hide Owned, Tab, SlotVal, Patched;
    var bn, o := (off + tot) / BSIZE, (off + tot) % BSIZE;
    SlotInData(l, s, i, SlotOf(bn));
    var b := BlockOf(l, s, i, bn);
    var c := Patched(s.disk[b], o, src[tot..tot + m]);
    WriteOk(l, s, i, bn, c);
    var t := Written(l, s, b, c);
    forall j: nat, x: nat | j < |s.inodes| && j != i ensures SameByte(l, s0, t, j, x) {
      assert SameByte(l, s0, s, j, x);
      WriteBytes(l, s, i, bn, c, j, x);
    }
    var done := tot + m;
    forall x: nat ensures PlacedByte(l, s0, t, i, off, src, done, x) {
      PatchedPlace(l, s0, s, i, off, src, tot, m, x);
    }
  }

  lemma PatchedPlace(l: Layout, s0: Fs, s: Fs, i: nat, off: nat, src: seq<nat>, tot: nat, m: nat, x: nat)
    requires Writing(l, s0, s, i, off, src, tot) && tot + m <= |src| && off + |src| <= MAXFILE * BSIZE && 0 < m
    requires (off + tot) % BSIZE + m <= BSIZE && BlockOf(l, s, i, (off + tot) / BSIZE) != 0
    ensures var b := BlockOf(l, s, i, (off + tot) / BSIZE);
            && b < l.size
            && var t := Written(l, s, b, Patched(s.disk[b], (off + tot) % BSIZE, src[tot..tot + m]));
               Wf(l, t) && PlacedByte(l, s0, t, i, off, src, tot + m, x)
  {
    hide Owned, Tab, SlotVal, Patched;
    var bn, o := (off + tot) / BSIZE, (off + tot) % BSIZE;
    SlotInData(l, s, i, SlotOf(bn));
    var b := BlockOf(l, s, i, bn);
    var c := Patched(s.disk[b], o, src[tot..tot + m]);
    WriteBytes(l, s, i, bn, c, i, x);
    assert PlacedByte(l, s0, s, i, off, src, tot, x);
    InChunk(off + tot, m, x);
    if off + tot <= x < off + tot + m {
      MappedIff(l, s, i, x);
    }
  }

  /** The bytes of one chunk are consecutive bytes of one block. */
  lemma InChunk(at: nat, m: nat, x: nat)
    requires at % BSIZE + m <= BSIZE
    ensures x / BSIZE == at / BSIZE && at % BSIZE <= x % BSIZE < at % BSIZE + m <==> at <= x < at + m
    ensures at <= x < at + m ==> x % BSIZE == at % BSIZE + (x - at)
  {
  }

  // The size update at the end of a write.

  ghost function Resized(s: Fs, i: nat, n: nat): Fs
    requires i < |s.inodes|
  {
    s.(inodes := s.inodes[i := s.inodes[i].(size := n)])
  }

  lemma ResizedOk(l: Layout, s: Fs, i: nat, n: nat)
    requires Ok(l, s) && i < |s.inodes|
    ensures Ok(l, Resized(s, i, n))
    ensures forall j: nat, k: nat :: j < |s.inodes| && k < NSLOTS ==>
              SlotVal(l, Resized(s, i, n), j, k) == SlotVal(l, s, j, k)
  {
    hide Owned;
    var t := Resized(s, i, n);
    forall j | 0 <= j < |s.inodes| ensures Tab(l, t)[j] == Tab(l, s)[j] {
      forall k | 0 <= k < NSLOTS ensures Tab(l, t)[j][k] == Tab(l, s)[j][k] {
      }
    }
    assert Tab(l, t) == Tab(l, s);
  }

  lemma ResizedByte(l: Layout, s: Fs, i: nat, n: nat, j: nat, x: nat)
    requires Ok(l, s) && i < |s.inodes| && j < |s.inodes|
    ensures Ok(l, Resized(s, i, n))
    ensures Mapped(l, Resized(s, i, n), j, x) <==> Mapped(l, s, j, x)
    ensures Mapped(l, s, j, x) ==> ByteAt(l, Resized(s, i, n), j, x) == ByteAt(l, s, j, x)
  {
    hide Owned, Tab, SlotVal;
    ResizedOk(l, s, i, n);
  }

  /** Bytes `src` laid over `c` at `off`, extending it if they reach past its end. */
  ghost function Overlay(c: seq<nat>, off: nat, src: seq<nat>): seq<nat>
    requires off <= |c|
  {
    c[..off] + src + if off + |src| < |c| then c[off + |src|..] else []
  }

  /** Inode `j` is unaffected. */
  ghost predicate SameFile(l: Layout, s: Fs, t: Fs, j: nat)
    requires Wf(l, s) && Wf(l, t) && j < |s.inodes| == |t.inodes|
  {
    HoleFree(l, s, j) ==> HoleFree(l, t, j) && Contents(l, t, j) == Contents(l, s, j)
  }

  ghost function AfterWrite(s: Fs, i: nat, end: nat): Fs
    requires i < |s.inodes|
  {
    if end > s.inodes[i].size then Resized(s, i, end) else s
  }

  lemma DoneOthers(l: Layout, s0: Fs, s: Fs, i: nat, off: nat, src: seq<nat>, j: nat)
    requires Writing(l, s0, s, i, off, src, |src|) && j < |s.inodes| && j != i
    ensures Ok(l, AfterWrite(s, i, off + |src|)) && SameFile(l, s0, AfterWrite(s, i, off + |src|), j)
  {
    hide Owned, Tab, SlotVal, Mapped, ByteAt;
    ResizedOk(l, s, i, off + |src|);
    var t := AfterWrite(s, i, off + |src|);
    if HoleFree(l, s0, j) {
      forall x: nat | x < t.inodes[j].size ensures Mapped(l, t, j, x) && ByteAt(l, t, j, x) == ByteAt(l, s0, j, x) {
        assert SameByte(l, s0, s, j, x);
        ResizedByte(l, s, i, off + |src|, j, x);
      }
      assert Contents(l, t, j) == Contents(l, s0, j);
    }
  }

  lemma DoneByte(l: Layout, s0: Fs, s: Fs, i: nat, off: nat, src: seq<nat>, x: nat)
    requires Writing(l, s0, s, i, off, src, |src|) && HoleFree(l, s0, i)
    requires x < off + |src| || x < s0.inodes[i].size
    requires off <= s0.inodes[i].size
    ensures Ok(l, AfterWrite(s, i, off + |src|)) && Mapped(l, AfterWrite(s, i, off + |src|), i, x)
    ensures ByteAt(l, AfterWrite(s, i, off + |src|), i, x)
            == if off <= x < off + |src| then src[x - off] else Contents(l, s0, i)[x]
  {
    hide Owned, Tab, SlotVal, Mapped, ByteAt;
    ResizedByte(l, s, i, off + |src|, i, x);
    assert PlacedByte(l, s0, s, i, off, src, |src|, x);
  }

  /** The whole effect of a completed write. */
  lemma WritingDone(l: Layout, s0: Fs, s: Fs, i: nat, off: nat, src: seq<nat>)
    requires Writing(l, s0, s, i, off, src, |src|) && HoleFree(l, s0, i)
    requires off <= s0.inodes[i].size && off + |src| <= MAXFILE * BSIZE
    ensures var t := AfterWrite(s, i, off + |src|);
            && Ok(l, t) && HoleFree(l, t, i)
            && Contents(l, t, i) == Overlay(Contents(l, s0, i), off, src)
            && forall j: nat :: j < |s.inodes| && j != i ==> SameFile(l, s0, t, j)
  {
    hide Owned, Tab, SlotVal, Mapped, ByteAt;
    var t := AfterWrite(s, i, off + |src|);
    ResizedOk(l, s, i, off + |src|);
    var c, d := Contents(l, s0, i), Overlay(Contents(l, s0, i), off, src);
    assert t.inodes[i].size == |d|;
    forall x: nat | x < t.inodes[i].size ensures Mapped(l, t, i, x) && ByteAt(l, t, i, x) == d[x] {
      DoneByte(l, s0, s, i, off, src, x);
    }
    forall j: nat | j < |s.inodes| && j != i ensures SameFile(l, s0, t, j) {
      DoneOthers(l, s0, s, i, off, src, j);
    }
  }
}
