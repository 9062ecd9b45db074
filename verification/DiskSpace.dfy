/**
 How many blocks a write takes. Each clear bit of the bitmap is one block to be had; each empty slot
 that the write needs, the one of the indirect block included, takes one.
 */
module DiskSpace {
  import opened Counting
  import opened Ownership
  import opened FsState

  /** The blocks that balloc can hand out. */
  ghost function Clear(l: Layout, s: Fs): set<nat>
    requires Wf(l, s)
  {
    set b: nat | b < l.size && !Bit(s.bits, b)
  }

  /** A write of file blocks `lo..hi` uses slot `k`. */
  predicate Needed(lo: nat, hi: nat, k: nat) {
    if k < NDIRECT then lo <= k < hi else if k == NDIRECT then lo < hi && NDIRECT < hi else lo <= k - 1 < hi
  }

  /** The slots it uses that are still empty. */
  ghost function Lacking(l: Layout, s: Fs, i: nat, lo: nat, hi: nat): set<nat>
    requires Wf(l, s) && i < |s.inodes|
  {
    set k: nat | k < NSLOTS && Needed(lo, hi, k) && SlotVal(l, s, i, k) == 0
  }

  /** One past the last file block of `n` bytes at `off`. */
  function EndBlock(off: nat, n: nat): nat { if n == 0 then off / BSIZE else (off + n - 1) / BSIZE + 1 }

  /** There are enough blocks for writing `n` bytes at `off`. */
  ghost predicate Room(l: Layout, s: Fs, i: nat, off: nat, n: nat)
    requires Wf(l, s) && i < |s.inodes|
  {
    |Lacking(l, s, i, off / BSIZE, EndBlock(off, n))| <= |Clear(l, s)|
  }

  /** Slots of inode `i` that are empty in `s` and not in `t`. */
  ghost function Filled(l: Layout, s: Fs, t: Fs, i: nat): set<nat>
    requires Wf(l, s) && Wf(l, t) && i < |s.inodes| == |t.inodes|
  {
    set k: nat | k < NSLOTS && SlotVal(l, s, i, k) == 0 && SlotVal(l, t, i, k) != 0
  }

  /** From `s` to `t`, as many blocks were taken as slots were filled, all of them needed. */
  ghost predicate Drew(l: Layout, s: Fs, t: Fs, i: nat, lo: nat, hi: nat) {
    && Wf(l, s) && Wf(l, t) && i < |s.inodes| == |t.inodes|
    && (forall k: nat :: k < NSLOTS && SlotVal(l, s, i, k) != 0 ==> SlotVal(l, t, i, k) != 0)
    && (forall k :: k in Filled(l, s, t, i) ==> Needed(lo, hi, k))
    && |Clear(l, s)| == |Clear(l, t)| + |Filled(l, s, t, i)|
  }

  lemma DrewSame(l: Layout, s: Fs, t: Fs, i: nat, lo: nat, hi: nat)
    requires Wf(l, s) && Wf(l, t) && i < |s.inodes| == |t.inodes| && t.bits == s.bits
    requires forall k: nat :: k < NSLOTS ==> SlotVal(l, t, i, k) == SlotVal(l, s, i, k)
    ensures Drew(l, s, t, i, lo, hi)
  {
    hide SlotVal, Bit;
    assert Filled(l, s, t, i) == {};
    assert Clear(l, t) == Clear(l, s);
  }

  lemma DrewWiden(l: Layout, s: Fs, t: Fs, i: nat, lo: nat, hi: nat, lo': nat, hi': nat)
    requires Drew(l, s, t, i, lo, hi) && lo' <= lo && hi <= hi'
    ensures Drew(l, s, t, i, lo', hi')
  {
    hide SlotVal, Bit;
  }

  lemma DrewTrans(l: Layout, s: Fs, t: Fs, u: Fs, i: nat, lo: nat, hi: nat)
    requires Drew(l, s, t, i, lo, hi) && Drew(l, t, u, i, lo, hi)
    ensures Drew(l, s, u, i, lo, hi) && Wf(l, u) && i < |u.inodes|
  {
    hide SlotVal, Clear;
    var a, b := Filled(l, s, t, i), Filled(l, t, u, i);
    assert a !! b && Filled(l, s, u, i) == a + b;
  }

  /** Taking block `b` into empty slot `k`. */
  lemma DrewClaim(l: Layout, s: Fs, i: nat, k: nat, b: nat, lo: nat, hi: nat)
    requires CanClaim(l, s, i, k, b) && b != 0 && Needed(lo, hi, k)
    ensures Drew(l, s, Claimed(l, s, i, k, b), i, lo, hi)
  {
    hide Owned, Tab, SlotVal, Bit, SetBit, Claimed;
    var t := Claimed(l, s, i, k, b);
    ClaimWf(l, s, i, k, b);
    ClaimCount(l, s, i, k, b);
    forall k': nat | k' < NSLOTS ensures SlotVal(l, t, i, k') == if k' == k then b else SlotVal(l, s, i, k') {
      ClaimSlot(l, s, i, k, b, i, k');
    }
    assert Filled(l, s, t, i) == {k};
    forall c: nat | c < l.size ensures Bit(t.bits, c) <==> b == c || Bit(s.bits, c) {
      BitAfter(s.bits, b, c);
    }
    assert Clear(l, s) == Clear(l, t) + {b};
  }

  /** Writing into a file block, and setting a size, take none. */
  lemma DrewWritten(l: Layout, s: Fs, i: nat, bn: nat, c: Block, lo: nat, hi: nat)
    requires Ok(l, s) && i < |s.inodes| && bn < MAXFILE && BlockOf(l, s, i, bn) != 0 && c.Sized()
    ensures BlockOf(l, s, i, bn) < l.size && Drew(l, s, Written(l, s, BlockOf(l, s, i, bn), c), i, lo, hi)
    ensures BlockOf(l, Written(l, s, BlockOf(l, s, i, bn), c), i, bn) == BlockOf(l, s, i, bn)
  {
    hide Owned, Tab, SlotVal, Bit, Drew;
    WriteSlot(l, s, i, bn, c, i, SlotOf(bn));
    var t := Written(l, s, BlockOf(l, s, i, bn), c);
    forall k: nat | k < NSLOTS ensures SlotVal(l, t, i, k) == SlotVal(l, s, i, k) {
      WriteSlot(l, s, i, bn, c, i, k);
    }
    DrewSame(l, s, t, i, lo, hi);
  }

  lemma DrewResized(l: Layout, s: Fs, i: nat, end: nat, lo: nat, hi: nat)
    requires Wf(l, s) && i < |s.inodes|
    ensures Drew(l, s, AfterWrite(s, i, end), i, lo, hi)
    ensures Lacking(l, AfterWrite(s, i, end), i, lo, hi) == Lacking(l, s, i, lo, hi)
  {
    hide Bit, Drew;
    DrewSame(l, s, AfterWrite(s, i, end), i, lo, hi);
  }

  /** What is lacking shrinks by what was filled. */
  lemma DrewLacks(l: Layout, s: Fs, t: Fs, i: nat, lo: nat, hi: nat)
    requires Drew(l, s, t, i, lo, hi)
    ensures |Lacking(l, s, i, lo, hi)| == |Lacking(l, t, i, lo, hi)| + |Clear(l, s)| - |Clear(l, t)|
  {
    hide SlotVal, Clear;
    var a, b := Filled(l, s, t, i), Lacking(l, t, i, lo, hi);
    assert a !! b && Lacking(l, s, i, lo, hi) == a + b;
  }

  /** It came to its end, so there was enough; it ended for want of a block, so there was not. */
  lemma DrewAll(l: Layout, s: Fs, t: Fs, i: nat, lo: nat, hi: nat)
    requires Drew(l, s, t, i, lo, hi)
    ensures Wf(l, t) && i < |t.inodes|
    ensures Lacking(l, t, i, lo, hi) == {} ==> |Lacking(l, s, i, lo, hi)| <= |Clear(l, s)|
    ensures Clear(l, t) == {} && Lacking(l, t, i, lo, hi) != {} ==> |Lacking(l, s, i, lo, hi)| > |Clear(l, s)|
  {
    hide Clear, Lacking;
    DrewLacks(l, s, t, i, lo, hi);
  }

  lemma LackingNone(l: Layout, s: Fs, i: nat, lo: nat)
    requires Wf(l, s) && i < |s.inodes|
    ensures Lacking(l, s, i, lo, lo) == {}
  {
  }

  /** One mapped block more. */
  lemma LackingNext(l: Layout, s: Fs, i: nat, lo: nat, hi: nat)
    requires Wf(l, s) && i < |s.inodes| && lo <= hi < MAXFILE && Lacking(l, s, i, lo, hi) == {}
    requires BlockOf(l, s, i, hi) != 0
    ensures Lacking(l, s, i, lo, hi + 1) == {}
  {
    hide WordAt;
    forall k: nat | k < NSLOTS && Needed(lo, hi + 1, k) ensures SlotVal(l, s, i, k) != 0 {
      if Needed(lo, hi, k) {
        assert k !in Lacking(l, s, i, lo, hi);
      }
    }
  }

  lemma LackingWider(l: Layout, s: Fs, i: nat, lo: nat, hi: nat, lo': nat, hi': nat)
    requires Wf(l, s) && i < |s.inodes| && lo <= lo' && hi' <= hi && Lacking(l, s, i, lo', hi') != {}
    ensures Lacking(l, s, i, lo, hi) != {}
  {
    hide SlotVal;
    var k :| k in Lacking(l, s, i, lo', hi');
    assert k in Lacking(l, s, i, lo, hi);
  }

  lemma LackingJoin(l: Layout, s: Fs, i: nat, lo: nat, hi: nat, lo': nat, hi': nat)
    requires Wf(l, s) && i < |s.inodes| && lo <= lo' <= hi && lo' < hi'
    requires Lacking(l, s, i, lo, hi) == {} && Lacking(l, s, i, lo', hi') == {}
    ensures Lacking(l, s, i, lo, hi') == {}
  {
    hide SlotVal;
    forall k: nat | k < NSLOTS && Needed(lo, hi', k) ensures SlotVal(l, s, i, k) != 0 {
      assert k !in Lacking(l, s, i, lo, hi) && k !in Lacking(l, s, i, lo', hi');
    }
  }

  /** What has been filled stays filled. */
  lemma LackingStays(l: Layout, s: Fs, t: Fs, i: nat, lo: nat, hi: nat, lo': nat, hi': nat)
    requires Drew(l, s, t, i, lo', hi') && Lacking(l, s, i, lo, hi) == {}
    ensures Lacking(l, t, i, lo, hi) == {}
  {
    hide SlotVal, Clear;
    forall k: nat | k < NSLOTS && Needed(lo, hi, k) ensures SlotVal(l, t, i, k) != 0 {
      assert k !in Lacking(l, s, i, lo, hi);
    }
  }

  lemma LacksBlock(l: Layout, s: Fs, i: nat, lo: nat, hi: nat, bn: nat)
    requires Wf(l, s) && i < |s.inodes| && lo <= bn < hi && bn < MAXFILE && BlockOf(l, s, i, bn) == 0
    ensures SlotOf(bn) in Lacking(l, s, i, lo, hi)
  {
    hide SlotVal;
  }
}
