/**
 fs.c below the directory layer: the block allocator, the block map of an inode, and
 reading, writing and truncating its contents. `ok` is false where the C code panics.
 */
module FileSystem {
  import opened Counting
  import opened Ownership
  import opened FsState
  import opened DiskSpace

  const BPB := BSIZE * 8
  const IPB := BSIZE / 64

  /** The bitmap block of block `b`, and the block of inode `i`. */
  function BBlock(l: Layout, b: nat): nat { b / BPB + l.bmapstart }
  function IBlock(l: Layout, i: nat): nat { i / IPB + l.inodestart }

  ghost predicate IsMapBlock(l: Layout, c: nat) {
    exists b: nat :: b < l.size && c == BBlock(l, b)
  }

  /** Block `b` may be logged while file blocks `lo..hi` of inode `i` are mapped and written. */
  ghost predicate Touches(l: Layout, s: Fs, i: nat, lo: nat, hi: nat, b: nat)
    requires Wf(l, s) && i < |s.inodes|
  {
    || IsMapBlock(l, b)
    || (b != 0 && b == s.inodes[i].addrs[NDIRECT])
    || (b != 0 && exists bn: nat :: lo <= bn < hi && bn < MAXFILE && b == BlockOf(l, s, i, bn))
  }

  /** The blocks in `now` that were not in `before` are ones a write of file blocks `lo..hi` may log. */
  ghost predicate LogsOnly(l: Layout, s: Fs, i: nat, lo: nat, hi: nat, before: set<nat>, now: set<nat>)
    requires Wf(l, s) && i < |s.inodes|
  {
    forall b :: b in now ==> b in before || b == IBlock(l, i) || Touches(l, s, i, lo, hi, b)
  }

  /**
   Every disk block whose contents differ between `s` and `t` has been logged. Inode `i` may still
   wait for its iupdate; -1 stands for none.
   */
  ghost predicate Covers(l: Layout, s: Fs, t: Fs, i: int, logged: set<nat>) {
    && |t.disk| == |s.disk| && |t.bits| == |s.bits| && |t.inodes| == |s.inodes|
    && (forall b: nat :: b < |s.disk| && t.disk[b] != s.disk[b] ==> b in logged)
    && (forall k: nat :: k < |s.bits| && t.bits[k] != s.bits[k] ==> BBlock(l, 8 * k) in logged)
    && (forall j: nat :: j < |s.inodes| && j != i && t.inodes[j] != s.inodes[j] ==> IBlock(l, j) in logged)
  }

  lemma CoversTrans(l: Layout, s: Fs, t: Fs, u: Fs, i: int, was: set<nat>, now: set<nat>)
    requires Covers(l, s, t, i, was) && Covers(l, t, u, i, now) && was <= now
    ensures Covers(l, s, u, i, now)
  {
    hide BBlock, IBlock;
  }

  /** iupdate makes up for the inode's changes. */
  lemma CoversUpdated(l: Layout, s: Fs, t: Fs, i: nat, ip: Inode, logged: set<nat>)
    requires Covers(l, s, t, i, logged) && i < |t.inodes|
    ensures Covers(l, s, t.(inodes := t.inodes[i := ip]), -1, logged + {IBlock(l, i)})
  {
    hide BBlock, IBlock;
  }

  /** No iupdate is due when no inode has changed. */
  lemma CoversAll(l: Layout, s: Fs, t: Fs, i: nat, logged: set<nat>)
    requires Covers(l, s, t, i, logged) && t.inodes == s.inodes
    ensures Covers(l, s, t, -1, logged)
  {
    hide BBlock, IBlock;
  }

  lemma CoversLoose(l: Layout, s: Fs, t: Fs, i: int, logged: set<nat>)
    requires Covers(l, s, t, -1, logged)
    ensures Covers(l, s, t, i, logged)
  {
    hide BBlock, IBlock;
  }

  /** Inode `i` may change while its iupdate is due. */
  lemma CoversInode(l: Layout, s: Fs, t: Fs, i: nat, ip: Inode, logged: set<nat>)
    requires Covers(l, s, t, i, logged) && i < |t.inodes|
    ensures Covers(l, s, t.(inodes := t.inodes[i := ip]), i, logged)
  {
    hide BBlock, IBlock;
  }

  /** Only bitmap blocks have been logged since `before`. */
  ghost predicate MapOnly(l: Layout, before: set<nat>, now: set<nat>) {
    before <= now && forall b :: b in now ==> b in before || IsMapBlock(l, b)
  }

  lemma MapNothing(l: Layout, logged: set<nat>)
    ensures MapOnly(l, logged, logged)
  {
  }

  lemma MapMore(l: Layout, before: set<nat>, was: set<nat>, b: nat)
    requires MapOnly(l, before, was) && b < l.size
    ensures MapOnly(l, before, was + {BBlock(l, b)})
  {
  }

  lemma MapTrans(l: Layout, before: set<nat>, was: set<nat>, now: set<nat>)
    requires MapOnly(l, before, was) && MapOnly(l, was, now)
    ensures MapOnly(l, before, now) && was <= now
  {
    hide IsMapBlock;
  }

  lemma MapUpdated(l: Layout, before: set<nat>, now: set<nat>, c: nat)
    requires MapOnly(l, before, now)
    ensures MapOnly(l, before + {c}, now + {c})
  {
    hide IsMapBlock;
  }

  /** A byte below the size of a hole-free file is in a block that bmap finds. */
  lemma StillMapped(l: Layout, s0: Fs, s: Fs, i: nat, from: nat, src: seq<nat>, tot: nat)
    requires Writing(l, s0, s, i, from, src, tot) && HoleFree(l, s0, i) && from + tot < s0.inodes[i].size
    requires (from + tot) / BSIZE < MAXFILE
    ensures BlockOf(l, s, i, (from + tot) / BSIZE) != 0
  {
    hide Owned, Tab, SlotVal;
    var x := from + tot;
    assert Mapped(l, s0, i, x);
    assert PlacedByte(l, s0, s, i, from, src, tot, x);
  }

  lemma CoversSame(l: Layout, s: Fs, i: int, logged: set<nat>)
    ensures Covers(l, s, s, i, logged)
  {
  }

  /** Byte `b / 8` of the bitmap lies in the bitmap block of block `b`. */
  lemma MapByte(l: Layout, b: nat)
    ensures BBlock(l, 8 * (b / 8)) == BBlock(l, b)
  {
    var q, m := b / BPB, b / 8;
    assert q * BSIZE <= m < q * BSIZE + BSIZE;
    BlockNumber(8 * m, q);
  }

  lemma BlockNumber(c: nat, q: nat)
    requires q * BPB <= c < q * BPB + BPB
    ensures c / BPB == q
  {
  }

  class Device {
    const l: Layout
    var bits: seq<bv8>
    var disk: seq<Block>
    var inodes: seq<Inode>
    var logged: set<nat>  // the blocks passed to log_write

    function Abs(): Fs
      reads this
    {
      Fs(bits, disk, inodes)
    }

    constructor (l: Layout, bits: seq<bv8>, disk: seq<Block>, inodes: seq<Inode>)
      requires Ok(l, Fs(bits, disk, inodes))
      ensures this.l == l && Abs() == Fs(bits, disk, inodes) && logged == {}
    {
      this.l, this.bits, this.disk, this.inodes, logged := l, bits, disk, inodes, {};
    }

    /** One bitmap block of balloc's scan. */
    method ScanBlock(b: nat) returns (bi: nat)
      requires Wf(l, Abs()) && StartsBlock(b) && b < l.size
      ensures bi <= BPB && b + bi <= l.size && (bi < BPB && b + bi < l.size ==> !Bit(bits, b + bi))
      ensures forall c :: b <= c < b + bi ==> Bit(bits, c)
    {
      hide HasBit;
      bi := 0;
      while bi < BPB && b + bi < l.size
        invariant bi <= BPB && b + bi <= l.size
        invariant forall c :: b <= c < b + bi ==> Bit(bits, c)
      {
        SameByteOfMap(b, bi);
        if !HasBit(bits[b / 8 + bi / 8], bi % 8) {
          return;
        }
        bi := bi + 1;
      }
    }

    /** The scan of balloc: bitmap block by bitmap block, bit by bit. */
    method FindFree() returns (b: nat)
      requires Wf(l, Abs())
      ensures b <= l.size && (b < l.size ==> !Bit(bits, b)) && forall c :: 0 <= c < b ==> Bit(bits, c)
    {
      hide Bit, StartsBlock;
      b := 0;
      StartsNext(0);
      while b < l.size
        invariant StartsBlock(b)
        invariant forall c :: 0 <= c < b && c < l.size ==> Bit(bits, c)
      {
        var bi := ScanBlock(b);
        if bi < BPB && b + bi < l.size {
          return b + bi;
        }
        StartsNext(b);
        b := b + BPB;
      }
      return l.size;
    }

    method Balloc() returns (ok: bool, b: nat)
      requires Wf(l, Abs())
      modifies this`bits, this`disk, this`logged
      ensures ok ==> logged == old(logged) + {BBlock(l, b), b}
      ensures ok ==> b < l.size && !Bit(old(bits), b) && Abs() == Allocated(l, old(Abs()), b)
      ensures ok ==> forall c :: 0 <= c < b ==> Bit(old(bits), c)
      ensures ok ==> Covers(l, old(Abs()), Abs(), -1, logged)
      ensures !ok ==> unchanged(this) && forall c :: 0 <= c < l.size ==> Bit(bits, c)
    {
      hide Bit, WithBit, BBlock;
      b := FindFree();
      ok := b < l.size;
      if ok {
        bits := bits[b / 8 := WithBit(bits[b / 8], b % 8)];
        disk := disk[b := Zero()];
        logged := logged + {BBlock(l, b), b};
        MapByte(l, b);
      }
    }

    /** `ip->addrs[k] = balloc(dev)` for an address that is 0. */
    method AllocAddr(i: nat, k: nat, ghost lo: nat, ghost hi: nat) returns (ok: bool, addr: nat)
      requires Ok(l, Abs()) && i < |inodes| && k <= NDIRECT && inodes[i].addrs[k] == 0 && Needed(lo, hi, k)
      modifies this
      ensures ok ==> Grown(l, old(Abs()), Abs()) && 0 < addr < l.size && inodes[i].addrs[k] == addr
      ensures ok ==> logged == old(logged) + {BBlock(l, addr), addr} && Covers(l, old(Abs()), Abs(), i, logged)
      ensures ok ==> Drew(l, old(Abs()), Abs(), i, lo, hi)
      ensures !ok ==> unchanged(this) && forall c :: 0 <= c < l.size ==> Bit(bits, c)
    {
      hide Owned, Tab, Bit, SetBit, Zero, Grown, Drew;
      ghost var s := Abs();
      ok, addr := Balloc();
      if ok {
        inodes := inodes[i := inodes[i].(addrs := inodes[i].addrs[k := addr])];
        assert CanClaim(l, s, i, k, addr);
        assert Abs() == Claimed(l, s, i, k, addr);
        ClaimGrows(l, s, i, k, addr);
        DrewClaim(l, s, i, k, addr, lo, hi);
      }
    }

    /** `a[j] = balloc(dev)` for an entry of the indirect block that is 0. */
    method AllocEntry(i: nat, j: nat, ghost lo: nat, ghost hi: nat) returns (ok: bool, addr: nat)
      requires Ok(l, Abs()) && i < |inodes| && j < NINDIRECT && inodes[i].addrs[NDIRECT] != 0
      requires WordAt(disk[inodes[i].addrs[NDIRECT]], j) == 0 && Needed(lo, hi, NDIRECT + 1 + j)
      modifies this
      ensures ok ==> Grown(l, old(Abs()), Abs()) && 0 < addr < l.size
      ensures ok ==> inodes == old(inodes) && SlotVal(l, Abs(), i, NDIRECT + 1 + j) == addr
      ensures ok ==> logged == old(logged) + {BBlock(l, addr), addr, inodes[i].addrs[NDIRECT]}
      ensures ok ==> Covers(l, old(Abs()), Abs(), i, logged) && Drew(l, old(Abs()), Abs(), i, lo, hi)
      ensures !ok ==> unchanged(this) && forall c :: 0 <= c < l.size ==> Bit(bits, c)
    {
      hide Owned, Tab, Bit, SetBit, Zero, Grown, PutWord, WordAt, Drew;
      ghost var s := Abs();
      var ind := inodes[i].addrs[NDIRECT];
      ok, addr := Balloc();
      if ok {
        assert CanClaim(l, s, i, NDIRECT + 1 + j, addr);
        FreeIsUnheld(l, s, addr, i, NDIRECT);
        disk := disk[ind := PutWord(disk[ind], j, addr)];
        logged := logged + {ind};
        assert Abs() == Claimed(l, s, i, NDIRECT + 1 + j, addr);
        ClaimGrows(l, s, i, NDIRECT + 1 + j, addr);
        DrewClaim(l, s, i, NDIRECT + 1 + j, addr, lo, hi);
      }
    }

    /** bmap of a direct block. */
    method BmapDirect(i: nat, bn: nat) returns (ok: bool, addr: nat)
      requires Ok(l, Abs()) && i < |inodes| && bn < NDIRECT
      modifies this
      ensures ok ==> Grown(l, old(Abs()), Abs()) && addr == BlockOf(l, Abs(), i, bn) && 0 < addr < l.size
      ensures ok ==> LogsOnly(l, Abs(), i, bn, bn + 1, old(logged), logged)
      ensures ok ==> old(logged) <= logged && Covers(l, old(Abs()), Abs(), i, logged)
      ensures BlockOf(l, old(Abs()), i, bn) != 0 ==> ok && unchanged(this)
      ensures Drew(l, old(Abs()), Abs(), i, bn, bn + 1)
      ensures !ok ==> unchanged(this) && DiskFull(l, bits)
    {
      hide Owned, Tab, Bit, Grown, WordAt, BBlock, Covers, Drew;
      ghost var s := Abs();
      GrownRefl(l, s);
      CoversSame(l, s, i, logged);
      DrewSame(l, s, s, i, bn, bn + 1);
      addr := inodes[i].addrs[bn];
      ok := true;
      if addr == 0 {
        ok, addr := AllocAddr(i, bn, bn, bn + 1);
      } else {
        SlotInData(l, s, i, bn);
      }
    }

    /** bmap's indirect block, allocated if missing. */
    method BmapIndirect(i: nat, ghost bn: nat) returns (ok: bool, addr: nat)
      requires Ok(l, Abs()) && i < |inodes| && NDIRECT <= bn < MAXFILE
      modifies this
      ensures ok ==> Grown(l, old(Abs()), Abs()) && Ok(l, Abs()) && i < |inodes|
      ensures ok ==> addr == inodes[i].addrs[NDIRECT] && 0 < addr < l.size
      ensures ok ==> old(logged) <= logged && Covers(l, old(Abs()), Abs(), i, logged)
      ensures ok ==> logged == old(logged) || logged == old(logged) + {BBlock(l, addr), addr}
      ensures old(inodes)[i].addrs[NDIRECT] != 0 ==> ok && unchanged(this)
      ensures Drew(l, old(Abs()), Abs(), i, bn, bn + 1)
      ensures !ok ==> unchanged(this) && DiskFull(l, bits)
    {
      hide Owned, Tab, Bit, Grown, WordAt, BBlock, Covers, Drew;
      ghost var s := Abs();
      GrownRefl(l, s);
      CoversSame(l, s, i, logged);
      DrewSame(l, s, s, i, bn, bn + 1);
      addr := inodes[i].addrs[NDIRECT];
      ok := true;
      if addr == 0 {
        ok, addr := AllocAddr(i, NDIRECT, bn, bn + 1);
      } else {
        SlotInData(l, s, i, NDIRECT);
      }
      if ok {
        GrownFacts(l, s, Abs());
      }
    }

    method Bmap(i: nat, bn: nat) returns (ok: bool, addr: nat)
      requires Ok(l, Abs()) && i < |inodes|
      modifies this
      ensures ok ==>
                bn < MAXFILE && Grown(l, old(Abs()), Abs()) && addr == BlockOf(l, Abs(), i, bn) && 0 < addr < l.size
      ensures ok ==> LogsOnly(l, Abs(), i, bn, bn + 1, old(logged), logged)
      ensures ok ==> old(logged) <= logged && Covers(l, old(Abs()), Abs(), i, logged)
      ensures bn < MAXFILE && BlockOf(l, old(Abs()), i, bn) != 0 ==> ok && unchanged(this)
      ensures !ok && bn < MAXFILE ==> DiskFull(l, bits)
      ensures bn < MAXFILE ==> Drew(l, old(Abs()), Abs(), i, bn, bn + 1)
      ensures !ok && bn < MAXFILE ==> Wf(l, Abs()) && i < |inodes| && BlockOf(l, Abs(), i, bn) == 0
    {
      hide Owned, Tab, Bit, Grown, WordAt, BBlock, Covers, Drew;
      if bn < NDIRECT {
        ok, addr := BmapDirect(i, bn);
        return;
      }
      var j := bn - NDIRECT;
      if j < NINDIRECT {
        ghost var s, first := Abs(), logged;
        ok, addr := BmapIndirect(i, bn);
        if !ok {
          return;
        }
        ghost var t, was := Abs(), logged;
        addr := WordAt(disk[addr], j);
        if addr == 0 {
          ok, addr := AllocEntry(i, j, bn, bn + 1);
          if ok {
            GrownTrans(l, s, t, Abs());
            DrewTrans(l, s, t, Abs(), i, bn, bn + 1);
            CoversTrans(l, s, t, Abs(), i, was, logged);
          }
        } else {
          SlotInData(l, t, i, bn + 1);
        }
        return;
      }
      ok, addr := false, 0;
    }

    method Readi(i: nat, from: nat, count: nat) returns (r: int, dst: seq<nat>)
      requires Ok(l, Abs()) && i < |inodes| && HoleFree(l, Abs(), i) && from < WORD && count < WORD
      modifies this
      ensures unchanged(this)
      ensures from > inodes[i].size || (from + count) % WORD < from ==> r == -1 && dst == []
      ensures from <= inodes[i].size && from <= (from + count) % WORD ==>
                r == |dst| && dst == Contents(l, Abs(), i)[from..Min(from + count, inodes[i].size)]
    {
      hide Owned, Tab, SlotVal, Grown, LogsOnly, HoleFree, Contents;
      ghost var s := Abs();
      ContentsSize(l, s, i);
      ghost var c := Contents(l, s, i);
      var off, n := from, count;
      dst := [];
      if off > inodes[i].size || (off + n) % WORD < off {
        return -1, dst;
      }
      if (off + n) % WORD > inodes[i].size {
        n := inodes[i].size - off;
      }
      var tot := 0;
      while tot < n
        invariant 0 <= tot <= n && off == from + tot && unchanged(this)
        invariant dst == c[from..off]
      {
        var m := Min(n - tot, BSIZE - off % BSIZE);
        ReadChunk(l, s, i, off, m);
        var ok, addr := Bmap(i, off / BSIZE);
        assert c[from..off] + c[off..off + m] == c[from..off + m];
        dst := dst + disk[addr].bytes[off % BSIZE..off % BSIZE + m];
        tot, off := tot + m, off + m;
      }
      r := n;
    }

    /** One turn of the loop in writei. */
    method WriteChunk(i: nat, src: seq<nat>, from: nat, tot: nat, m: nat, ghost s0: Fs,
                      ghost before: set<nat>) returns (ok: bool)
      requires Writing(l, s0, Abs(), i, from, src, tot) && 0 < m && tot + m <= |src| && from + |src| <= MAXFILE * BSIZE
      requires (from + tot) % BSIZE + m <= BSIZE
      requires LogsOnly(l, Abs(), i, from / BSIZE, (from + tot) / BSIZE, before, logged)
               || LogsOnly(l, Abs(), i, from / BSIZE, (from + tot) / BSIZE + 1, before, logged)
      modifies this
      ensures ok ==> Writing(l, s0, Abs(), i, from, src, tot + m)
      ensures ok ==> LogsOnly(l, Abs(), i, from / BSIZE, (from + tot) / BSIZE + 1, before, logged)
      ensures ok ==> old(logged) <= logged && Covers(l, old(Abs()), Abs(), i, logged)
      ensures ok && BlockOf(l, old(Abs()), i, (from + tot) / BSIZE) != 0 ==> inodes == old(inodes)
      ensures var bn := (from + tot) / BSIZE;
              Drew(l, old(Abs()), Abs(), i, bn, bn + 1) && (ok <==> BlockOf(l, Abs(), i, bn) != 0)
      ensures !ok ==> DiskFull(l, bits)
    {
      hide Owned, Tab, SlotVal, Grown, LogsOnly, Bit, Patched, BBlock, IBlock, Drew;
      ghost var s, was := Abs(), logged;
      var addr;
      ok, addr := Bmap(i, (from + tot) / BSIZE);
      if ok {
        ghost var t, now := Abs(), logged;
        WritingGrows(l, s0, s, t, i, from, src, tot);
        WritingMore(l, s0, t, i, from, src, tot, m);
        var data := Patched(disk[addr], (from + tot) % BSIZE, src[tot..tot + m]);
        LogsMore(l, s, t, data, i, from / BSIZE, (from + tot) / BSIZE, before, was, now);
        ghost var bn := (from + tot) / BSIZE;
        DrewWritten(l, t, i, bn, data, bn, bn + 1);
        disk := disk[addr := data];
        logged := logged + {addr};
        assert Abs() == Written(l, t, addr, data);
        DrewTrans(l, s, t, Abs(), i, bn, bn + 1);
      }
    }

    /** The loop of writei. */
    method WriteAll(i: nat, src: seq<nat>, from: nat, ghost s0: Fs) returns (ok: bool)
      requires Ok(l, Abs()) && i < |inodes| && s0 == Abs() && from + |src| <= MAXFILE * BSIZE
      modifies this
      ensures ok ==> Writing(l, s0, Abs(), i, from, src, |src|) && Ok(l, Abs()) && |inodes| == |s0.inodes|
      ensures ok && 0 < |src| ==>
                LogsOnly(l, Abs(), i, from / BSIZE, (from + |src| - 1) / BSIZE + 1, old(logged), logged)
      ensures ok ==> old(logged) <= logged && Covers(l, s0, Abs(), i, logged)
      ensures ok && HoleFree(l, s0, i) && from + |src| <= s0.inodes[i].size ==> inodes == s0.inodes
      ensures |src| == 0 ==> ok && unchanged(this)
      ensures Drew(l, s0, Abs(), i, from / BSIZE, EndBlock(from, |src|))
      ensures ok <==> Lacking(l, Abs(), i, from / BSIZE, EndBlock(from, |src|)) == {}
      ensures !ok ==> DiskFull(l, bits)
    {
      hide Owned, Tab, SlotVal, LogsOnly, Bit, Writing, Covers, HoleFree, Drew, Lacking;
      ghost var lo, end := from / BSIZE, EndBlock(from, |src|);
      DrewSame(l, s0, s0, i, lo, end);
      LackingNone(l, s0, i, lo);
      CoversSame(l, s0, i, logged);
      ghost var before := logged;
      var n := |src|;
      WritingStart(l, s0, i, from, src);
      LogsNothing(l, s0, i, from / BSIZE, from / BSIZE, before);
      var tot := 0;
      ghost var hi := from / BSIZE;
      while tot < n
        invariant 0 <= tot <= n && Writing(l, s0, Abs(), i, from, src, tot)
        invariant Ok(l, Abs()) && |inodes| == |s0.inodes|
        invariant hi == if tot == 0 then from / BSIZE else (from + tot - 1) / BSIZE + 1
        invariant tot == 0 || tot == n || (from + tot) % BSIZE == 0
        invariant LogsOnly(l, Abs(), i, from / BSIZE, hi, before, logged)
        invariant Drew(l, s0, Abs(), i, lo, end) && Lacking(l, Abs(), i, lo, hi) == {}
        invariant before <= logged && Covers(l, s0, Abs(), i, logged) && (n == 0 ==> unchanged(this))
        invariant HoleFree(l, s0, i) && from + |src| <= s0.inodes[i].size ==> inodes == s0.inodes
      {
        var m := Min(n - tot, BSIZE - (from + tot) % BSIZE);
        ghost var s, was := Abs(), logged;
        if HoleFree(l, s0, i) && from + |src| <= s0.inodes[i].size {
          StillMapped(l, s0, s, i, from, src, tot);
        }
        ok := WriteChunk(i, src, from, tot, m, s0, before);
        ghost var bn := (from + tot) / BSIZE;
        BlockBefore(from, tot, n);
        DrewWiden(l, s, Abs(), i, bn, bn + 1, lo, end);
        DrewTrans(l, s0, s, Abs(), i, lo, end);
        if !ok {
          LacksBlock(l, Abs(), i, lo, end, bn);
          return;
        }
        LackingStays(l, s, Abs(), i, lo, hi, bn, bn + 1);
        LackingNext(l, Abs(), i, lo, bn);
        CoversTrans(l, s0, s, Abs(), i, was, logged);
        hi := (from + tot) / BSIZE + 1;
        SameChunk(from + tot, m);
        tot := tot + m;
        WritingFacts(l, s0, Abs(), i, from, src, tot);
      }
      ok := true;
    }

    method Writei(i: nat, src: seq<nat>, from: nat) returns (ok: bool, r: int)
      requires Ok(l, Abs()) && i < |inodes| && HoleFree(l, Abs(), i) && from < WORD && |src| < WORD
      modifies this
      ensures ok && r == -1 <==> Refused(old(inodes)[i].size, from, |src|)
      ensures ok && r == -1 ==> unchanged(this)
      ensures ok && r != -1 ==> r == |src| && Ok(l, Abs()) && |inodes| == old(|inodes|) && from <= old(inodes)[i].size
      ensures ok && r != -1 ==>
                HoleFree(l, Abs(), i) && Contents(l, Abs(), i) == Overlay(old(Contents(l, Abs(), i)), from, src)
      ensures ok && r != -1 ==> forall j: nat :: j < |inodes| && j != i ==> SameFile(l, old(Abs()), Abs(), j)
      ensures ok && r > 0 ==> LogsOnly(l, Abs(), i, from / BSIZE, (from + |src| - 1) / BSIZE + 1, old(logged), logged)
      ensures ok ==> old(logged) <= logged && Covers(l, old(Abs()), Abs(), -1, logged)
      ensures ok && r == 0 ==> unchanged(this)
      ensures ok <==> Refused(old(inodes)[i].size, from, |src|) || Room(l, old(Abs()), i, from, |src|)
      ensures Drew(l, old(Abs()), Abs(), i, from / BSIZE, EndBlock(from, |src|))
      ensures (ok && r == -1) || (ok <==> Lacking(l, Abs(), i, from / BSIZE, EndBlock(from, |src|)) == {})
      ensures !ok ==> DiskFull(l, bits)
    {
      hide Owned, Tab, SlotVal, Mapped, ByteAt, LogsOnly, Bit, Writing, HoleFree, Contents, Overlay, SameFile, Covers;
      hide IBlock, Drew, Lacking, Clear;
      ghost var lo, end := from / BSIZE, EndBlock(from, |src|);
      DrewSame(l, Abs(), Abs(), i, lo, end);
      ghost var s0 := Abs();
      CoversSame(l, s0, -1, logged);
      var n := |src|;
      if from > inodes[i].size || (from + n) % WORD < from {
        return true, -1;
      }
      if (from + n) % WORD > MAXFILE * BSIZE {
        return true, -1;
      }
      ok := WriteAll(i, src, from, s0);
      ghost var s := Abs();
      DrewAll(l, s0, s, i, lo, end);
      if !ok {
        FullIsClear(l, s);
        r := 0;
        return;
      }
      DrewResized(l, s, i, from + n, lo, end);
      WritingFacts(l, s0, s, i, from, src, n);
      WritingDone(l, s0, s, i, from, src);
      ghost var now := logged;
      if n > 0 && from + n > inodes[i].size {
        LogsResized(l, s, i, from + n, from / BSIZE, (from + n - 1) / BSIZE + 1, old(logged), logged);
        inodes := inodes[i := inodes[i].(size := from + n)];
        logged := logged + {IBlock(l, i)};
        CoversUpdated(l, s0, s, i, inodes[i], now);
        assert Abs() == s.(inodes := s.inodes[i := inodes[i]]);
      } else {
        CoversAll(l, s0, s, i, logged);
      }
      assert Abs() == AfterWrite(s, i, from + n);
      DrewTrans(l, s0, s, Abs(), i, lo, end);
      ok, r := true, n;
    }

    method Bfree(b: nat) returns (ok: bool)
      requires b < 8 * |bits|
      modifies this`bits, this`logged
      ensures ok <==> Bit(old(bits), b)
      ensures if ok then bits == ClearBit(old(bits), b) else bits == old(bits)
      ensures Covers(l, old(Abs()), Abs(), -1, logged)
      ensures logged == if ok then old(logged) + {BBlock(l, b)} else old(logged)
    {
      hide HasBit, WithoutBit, BBlock;
      MapByte(l, b);
      ok := HasBit(bits[b / 8], b % 8);
      if ok {
        bits := bits[b / 8 := WithoutBit(bits[b / 8], b % 8)];
        logged := logged + {BBlock(l, b)};
      }
    }

    /** The direct addresses of itrunc. */
    method TruncDirect(i: nat) returns (ok: bool)
      requires Ok(l, Abs()) && i < |inodes|
      modifies this
      ensures ok && Ok(l, Abs()) && disk == old(disk) && |inodes| == |old(inodes)|
      ensures Emptying(Tab(l, old(Abs())), i, Tab(l, Abs()), 0, NDIRECT)
      ensures inodes == old(inodes)[i := Inode(inodes[i].addrs, old(inodes)[i].size)]
      ensures Covers(l, old(Abs()), Abs(), i, logged) && MapOnly(l, old(logged), logged)
    {
      hide Owned, Tab, SlotVal, Bit, ClearBit, Covers, MapOnly;
      CoversSame(l, Abs(), i, logged);
      MapNothing(l, logged);
      ghost var tab0 := Tab(l, Abs());
      EmptyingNone(tab0, i, 0);
      var k := 0;
      while k < NDIRECT
        invariant 0 <= k <= NDIRECT && Ok(l, Abs()) && disk == old(disk) && |inodes| == |old(inodes)|
        invariant inodes == old(inodes)[i := Inode(inodes[i].addrs, old(inodes)[i].size)]
        invariant Emptying(tab0, i, Tab(l, Abs()), 0, k)
        invariant Covers(l, old(Abs()), Abs(), i, logged) && MapOnly(l, old(logged), logged)
      {
        ghost var s, was := Abs(), logged;
        if inodes[i].addrs[k] != 0 {
          DropAddr(l, s, i, k);
          ok := Bfree(inodes[i].addrs[k]);
          MapMore(l, old(logged), was, inodes[i].addrs[k]);
          ghost var t := Abs();
          CoversLoose(l, s, t, i, logged);
          CoversTrans(l, old(Abs()), s, t, i, was, logged);
          inodes := inodes[i := inodes[i].(addrs := inodes[i].addrs[k := 0])];
          CoversInode(l, old(Abs()), t, i, inodes[i], logged);
          EmptyingMore(tab0, i, Tab(l, s), 0, k);
        } else {
          EmptyingSkip(l, s, tab0, i, k);
        }
        k := k + 1;
      }
      ok := true;
    }

    /** The indirect block of itrunc: its entries are freed first, then the block itself. */
    method TruncIndirect(i: nat) returns (ok: bool)
      requires Ok(l, Abs()) && i < |inodes| && inodes[i].addrs[NDIRECT] != 0
      modifies this
      ensures ok && Ok(l, Abs()) && disk == old(disk) && |inodes| == |old(inodes)|
      ensures Emptying(Tab(l, old(Abs())), i, Tab(l, Abs()), NDIRECT, NSLOTS)
      ensures inodes == old(inodes)[i := Inode(old(inodes)[i].addrs[NDIRECT := 0], old(inodes)[i].size)]
      ensures Covers(l, old(Abs()), Abs(), i, logged) && MapOnly(l, old(logged), logged)
    {
      hide Owned, Tab, Bit, ClearBit, WordAt, Covers, MapOnly;
      CoversSame(l, Abs(), i, logged);
      MapNothing(l, logged);
      ghost var s := Abs();
      ghost var tab1, tab := Tab(l, s), Tab(l, s);
      EmptyingNone(tab1, i, NDIRECT + 1);
      var ind := inodes[i].addrs[NDIRECT];
      var a := disk[ind];
      var j := 0;
      while j < NINDIRECT
        invariant 0 <= j <= NINDIRECT && disk == s.disk && inodes == s.inodes
        invariant Owned(bits, tab, l.first, l.size) && Emptying(tab1, i, tab, NDIRECT + 1, NDIRECT + 1 + j)
        invariant Covers(l, s, Abs(), i, logged) && MapOnly(l, old(logged), logged)
      {
        ghost var r, was := Abs(), logged;
        SlotHeld(l, s, i, NDIRECT + 1 + j);
        if WordAt(a, j) != 0 {
          ReleaseOwned(bits, tab, l.first, l.size, i, NDIRECT + 1 + j);
          OwnedFacts(bits, tab, l.first, l.size);
          ok := Bfree(WordAt(a, j));
          MapMore(l, old(logged), was, WordAt(a, j));
          CoversLoose(l, r, Abs(), i, logged);
          CoversTrans(l, s, r, Abs(), i, was, logged);
          EmptyingMore(tab1, i, tab, NDIRECT + 1, NDIRECT + 1 + j);
          tab := Put(tab, i, NDIRECT + 1 + j, 0);
        } else {
          EmptyingZero(tab1, i, tab, NDIRECT + 1, NDIRECT + 1 + j);
        }
        j := j + 1;
      }
      SlotHeld(l, s, i, NDIRECT);
      ReleaseOwned(bits, tab, l.first, l.size, i, NDIRECT);
      OwnedFacts(bits, tab, l.first, l.size);
      ghost var r, was := Abs(), logged;
      ok := Bfree(ind);
      MapMore(l, old(logged), was, ind);
      ghost var t := Abs();
      CoversLoose(l, r, t, i, logged);
      CoversTrans(l, s, r, t, i, was, logged);
      tab := Put(tab, i, NDIRECT, 0);
      inodes := inodes[i := inodes[i].(addrs := inodes[i].addrs[NDIRECT := 0])];
      CoversInode(l, s, t, i, inodes[i], logged);
      OwnedFacts(bits, tab, l.first, l.size);
      CutIndirect(l, s, Abs(), i, tab1, tab);
    }

    method Itrunc(i: nat) returns (ok: bool)
      requires Ok(l, Abs()) && i < |inodes|
      modifies this
      ensures ok && Ok(l, Abs()) && disk == old(disk) && |inodes| == |old(inodes)|
      ensures inodes[i].size == 0 && forall k: nat :: k < NSLOTS ==> SlotVal(l, Abs(), i, k) == 0
      ensures forall j: nat :: j < |inodes| && j != i ==>
                inodes[j] == old(inodes)[j] && SameFile(l, old(Abs()), Abs(), j)
      ensures forall b: nat :: 0 < b < l.size ==>
                (Bit(bits, b) <==> Bit(old(bits), b) && !HeldBy(l, old(Abs()), i, b))
      ensures Covers(l, old(Abs()), Abs(), -1, logged) && MapOnly(l, old(logged) + {IBlock(l, i)}, logged)
    {
      hide Owned, Tab, Bit, WordAt, SlotVal, Emptying, Covers, MapOnly, IBlock;
      ghost var s := Abs();
      ok := TruncDirect(i);
      ghost var t, was := Abs(), logged;
      if inodes[i].addrs[NDIRECT] != 0 {
        ok := TruncIndirect(i);
        TruncBoth(l, s, t, Abs(), i);
        MapTrans(l, old(logged), was, logged);
        CoversTrans(l, s, t, Abs(), i, was, logged);
      } else {
        TruncShort(l, s, t, i);
      }
      ghost var u := Abs();
      ResizedOk(l, u, i, 0);
      inodes := inodes[i := inodes[i].(size := 0)];
      CoversUpdated(l, s, u, i, inodes[i], logged);
      MapUpdated(l, old(logged), logged, IBlock(l, i));
      logged := logged + {IBlock(l, i)};
      TruncDone(l, s, u, i);
    }
  }

  /** No block is free. */
  /** Inode `i` holds block `b`. */
  ghost predicate HeldBy(l: Layout, s: Fs, i: nat, b: nat)
    requires Wf(l, s) && i < |s.inodes|
  {
    exists k: nat :: k < NSLOTS && SlotVal(l, s, i, k) == b
  }

  lemma FullIsClear(l: Layout, s: Fs)
    requires Wf(l, s) && DiskFull(l, s.bits)
    ensures Clear(l, s) == {}
  {
    hide Bit;
  }

  /** The block of byte `tot` of a write is one of its blocks. */
  lemma BlockBefore(from: nat, tot: nat, n: nat)
    requires tot < n
    ensures from / BSIZE <= (from + tot) / BSIZE < EndBlock(from, n)
  {
  }

  /** The checks on which writei returns -1. */
  predicate Refused(size: nat, off: nat, n: nat) {
    off > size || (off + n) % WORD < off || off + n > MAXFILE * BSIZE
  }

  ghost predicate DiskFull(l: Layout, bits: seq<bv8>) {
    l.size <= 8 * |bits| && forall b :: 0 <= b < l.size ==> Bit(bits, b)
  }

  lemma OwnedFacts(bits: seq<bv8>, tab: Table, first: nat, size: nat)
    requires Owned(bits, tab, first, size)
    ensures Shaped(tab) && 1 <= first <= size <= 8 * |bits|
  {
  }

  lemma EmptyingZero(tab: Table, i: nat, tab': Table, lo: nat, hi: nat)
    requires Emptying(tab, i, tab', lo, hi) && hi < NSLOTS && tab[i][hi] == 0
    ensures Emptying(tab, i, tab', lo, hi + 1)
  {
  }

  /** With the indirect address gone, the table in memory is the one with its entries emptied. */
  lemma CutIndirect(l: Layout, s: Fs, t: Fs, i: nat, tab1: Table, tab: Table)
    requires Wf(l, s) && i < |s.inodes| && tab1 == Tab(l, s)
    requires t.disk == s.disk && l.size <= 8 * |t.bits|
    requires t.inodes == s.inodes[i := s.inodes[i].(addrs := s.inodes[i].addrs[NDIRECT := 0])]
    requires Owned(t.bits, tab, l.first, l.size)
    requires exists tab2 :: Emptying(tab1, i, tab2, NDIRECT + 1, NSLOTS) && tab == Put(tab2, i, NDIRECT, 0)
    ensures Ok(l, t) && Tab(l, t) == tab && Emptying(tab1, i, tab, NDIRECT, NSLOTS)
  {
    hide Owned, WordAt;
    var tab2 :| Emptying(tab1, i, tab2, NDIRECT + 1, NSLOTS) && tab == Put(tab2, i, NDIRECT, 0);
    forall j | 0 <= j < |s.inodes| ensures Tab(l, t)[j] == tab[j] {
      forall k | 0 <= k < NSLOTS ensures Tab(l, t)[j][k] == tab[j][k] {
        SlotHeld(l, s, j, k);
        assert j != i ==> t.inodes[j] == s.inodes[j];
      }
    }
    assert Tab(l, t) == tab;
  }

  lemma TruncBoth(l: Layout, s: Fs, t: Fs, u: Fs, i: nat)
    requires Wf(l, s) && Wf(l, t) && Wf(l, u)
    requires Emptying(Tab(l, s), i, Tab(l, t), 0, NDIRECT) && Emptying(Tab(l, t), i, Tab(l, u), NDIRECT, NSLOTS)
    ensures Emptied(Tab(l, s), i, Tab(l, u))
  {
    hide Tab;
  }

  /** Without an indirect block the remaining slots are empty anyway. */
  lemma TruncShort(l: Layout, s: Fs, t: Fs, i: nat)
    requires Wf(l, s) && Wf(l, t) && i < |s.inodes| == |t.inodes| && t.inodes[i].addrs[NDIRECT] == 0
    requires Emptying(Tab(l, s), i, Tab(l, t), 0, NDIRECT)
    ensures Emptied(Tab(l, s), i, Tab(l, t))
  {
    forall k: nat | k < NSLOTS ensures Tab(l, t)[i][k] == 0 {
      SlotHeld(l, t, i, k);
    }
  }

  lemma TruncDone(l: Layout, s: Fs, u: Fs, i: nat)
    requires Ok(l, s) && Ok(l, u) && i < |s.inodes| == |u.inodes| && u.disk == s.disk
    requires Emptied(Tab(l, s), i, Tab(l, u))
    requires forall j :: 0 <= j < |s.inodes| && j != i ==> u.inodes[j] == s.inodes[j]
    ensures Ok(l, Resized(u, i, 0))
    ensures forall k: nat :: k < NSLOTS ==> SlotVal(l, Resized(u, i, 0), i, k) == 0
    ensures forall j: nat :: j < |s.inodes| && j != i ==> SameFile(l, s, Resized(u, i, 0), j)
    ensures forall b: nat :: 0 < b < l.size ==>
              (Bit(u.bits, b) <==> Bit(s.bits, b) && !HeldBy(l, s, i, b))
  {
    hide Owned, Tab, Bit, SlotVal;
    ResizedOk(l, u, i, 0);
    var v := Resized(u, i, 0);
    forall k: nat | k < NSLOTS ensures SlotVal(l, v, i, k) == 0 {
      SlotHeld(l, u, i, k);
    }
    forall j: nat | j < |s.inodes| && j != i ensures SameFile(l, s, v, j) {
      SameSlotsSameFile(l, s, v, j);
    }
    forall b: nat | 0 < b < l.size
      ensures Bit(u.bits, b) <==> Bit(s.bits, b) && !HeldBy(l, s, i, b)
    {
      OwnedFacts(s.bits, Tab(l, s), l.first, l.size);
      EmptiedBits(s.bits, Tab(l, s), u.bits, Tab(l, u), l.first, l.size, i, b);
      HoldsIffSlot(l, s, i, b);
    }
  }

  lemma HoldsIffSlot(l: Layout, s: Fs, i: nat, b: nat)
    requires Wf(l, s) && i < |s.inodes|
    ensures (exists k :: Holds(Tab(l, s), i, k, b)) <==> HeldBy(l, s, i, b)
  {
    hide SlotVal;
    if exists k :: Holds(Tab(l, s), i, k, b) {
      var k :| Holds(Tab(l, s), i, k, b);
      SlotHeld(l, s, i, k);
    }
    if HeldBy(l, s, i, b) {
      var k: nat :| k < NSLOTS && SlotVal(l, s, i, k) == b;
      SlotHeld(l, s, i, k);
    }
  }

  lemma SameSlotsSameFile(l: Layout, s: Fs, v: Fs, j: nat)
    requires Wf(l, s) && Wf(l, v) && j < |s.inodes| == |v.inodes| && v.inodes[j] == s.inodes[j] && v.disk == s.disk
    ensures SameFile(l, s, v, j)
  {
    if HoleFree(l, s, j) {
      forall x: nat | x < s.inodes[j].size ensures Mapped(l, v, j, x) && ByteAt(l, v, j, x) == ByteAt(l, s, j, x) {
        assert Mapped(l, s, j, x);
      }
      assert Contents(l, v, j) == Contents(l, s, j);
    }
  }

  /** Slots `lo..hi` of inode `i` are empty in `tab'`; everything else is as in `tab`. */
  ghost predicate Emptying(tab: Table, i: nat, tab': Table, lo: nat, hi: nat) {
    && Shaped(tab) && Shaped(tab') && i < |tab| == |tab'| && lo <= hi <= NSLOTS
    && (forall j :: 0 <= j < |tab| && j != i ==> tab'[j] == tab[j])
    && (forall k :: 0 <= k < NSLOTS ==> tab'[i][k] == if lo <= k < hi then 0 else tab[i][k])
  }

  lemma EmptyingNone(tab: Table, i: nat, lo: nat)
    requires Shaped(tab) && i < |tab| && lo <= NSLOTS
    ensures Emptying(tab, i, tab, lo, lo)
  {
  }

  lemma EmptyingMore(tab: Table, i: nat, tab': Table, lo: nat, hi: nat)
    requires Emptying(tab, i, tab', lo, hi) && hi < NSLOTS
    ensures Emptying(tab, i, Put(tab', i, hi, 0), lo, hi + 1)
  {
  }

  lemma EmptyingSkip(l: Layout, s: Fs, tab: Table, i: nat, k: nat)
    requires Wf(l, s) && Emptying(tab, i, Tab(l, s), 0, k) && k < NDIRECT && s.inodes[i].addrs[k] == 0
    ensures Emptying(tab, i, Tab(l, s), 0, k + 1)
  {
    SlotHeld(l, s, i, k);
  }

  /** Freeing the block of a direct address and clearing the address. */
  lemma DropAddr(l: Layout, s: Fs, i: nat, k: nat)
    requires Ok(l, s) && i < |s.inodes| && k < NDIRECT && s.inodes[i].addrs[k] != 0
    ensures s.inodes[i].addrs[k] < l.size && Bit(s.bits, s.inodes[i].addrs[k])
    ensures var t := WithAddr(l, s.(bits := ClearBit(s.bits, s.inodes[i].addrs[k])), i, k, 0);
            Ok(l, t) && Tab(l, t) == Put(Tab(l, s), i, k, 0)
  {
    hide Owned, Bit;
    SlotHeld(l, s, i, k);
    ReleaseOwned(s.bits, Tab(l, s), l.first, l.size, i, k);
    SetLength(s.bits, s.inodes[i].addrs[k]);
    hide ClearBit;
    var t := WithAddr(l, s.(bits := ClearBit(s.bits, s.inodes[i].addrs[k])), i, k, 0);
    forall j | 0 <= j < |s.inodes| ensures Tab(l, t)[j] == Put(Tab(l, s), i, k, 0)[j] {
      forall x | 0 <= x < NSLOTS ensures Tab(l, t)[j][x] == Put(Tab(l, s), i, k, 0)[j][x] {
      }
    }
    assert Tab(l, t) == Put(Tab(l, s), i, k, 0);
  }

  lemma WritingFacts(l: Layout, s0: Fs, s: Fs, i: nat, off: nat, src: seq<nat>, tot: nat)
    requires Writing(l, s0, s, i, off, src, tot)
    ensures Ok(l, s) && |s.inodes| == |s0.inodes| && s.inodes[i].size == s0.inodes[i].size
  {
    hide Owned, Tab, SlotVal, Mapped, ByteAt;
  }

  lemma SameChunk(at: nat, m: nat)
    requires 0 < m && at % BSIZE + m <= BSIZE
    ensures (at + m - 1) / BSIZE == at / BSIZE
    ensures at % BSIZE + m == BSIZE ==> (at + m) % BSIZE == 0
  {
  }

  lemma LogsNothing(l: Layout, s: Fs, i: nat, lo: nat, hi: nat, logged: set<nat>)
    requires Wf(l, s) && i < |s.inodes|
    ensures LogsOnly(l, s, i, lo, hi, logged, logged)
  {
  }

  lemma LogsResized(l: Layout, s: Fs, i: nat, n: nat, lo: nat, hi: nat, before: set<nat>, now: set<nat>)
    requires Ok(l, s) && i < |s.inodes| && LogsOnly(l, s, i, lo, hi, before, now)
    ensures Ok(l, Resized(s, i, n)) && LogsOnly(l, Resized(s, i, n), i, lo, hi, before, now + {IBlock(l, i)})
  {
    hide Owned, Tab, SlotVal, IsMapBlock;
    ResizedOk(l, s, i, n);
    var t := Resized(s, i, n);
    forall b | b in now && b !in before && b != IBlock(l, i) ensures Touches(l, t, i, lo, hi, b) {
      assert Touches(l, s, i, lo, hi, b);
      if !IsMapBlock(l, b) && b != s.inodes[i].addrs[NDIRECT] {
        var bn: nat :| lo <= bn < hi && bn < MAXFILE && b == BlockOf(l, s, i, bn);
        assert b == BlockOf(l, t, i, bn);
      }
    }
  }

  lemma LogsMore(l: Layout, s: Fs, t: Fs, c: Block, i: nat, lo: nat, bn: nat, before: set<nat>, was: set<nat>,
                 now: set<nat>)
    requires Grown(l, s, t) && i < |s.inodes| && lo <= bn < MAXFILE && c.Sized()
    requires LogsOnly(l, s, i, lo, bn, before, was) || LogsOnly(l, s, i, lo, bn + 1, before, was)
    requires LogsOnly(l, t, i, bn, bn + 1, was, now) && 0 < BlockOf(l, t, i, bn) < l.size
    ensures var u := Written(l, t, BlockOf(l, t, i, bn), c);
            Wf(l, u) && LogsOnly(l, u, i, lo, bn + 1, before, now + {BlockOf(l, t, i, bn)})
  {
    hide Owned, Tab, SlotVal, Mapped, ByteAt, IsMapBlock;
    var addr := BlockOf(l, t, i, bn);
    WriteSlot(l, t, i, bn, c, i, SlotOf(bn));
    forall b | b in now + {addr}
      ensures b in before || b == IBlock(l, i) || Touches(l, Written(l, t, addr, c), i, lo, bn + 1, b)
    {
      if b == addr {
        assert BlockOf(l, Written(l, t, addr, c), i, bn) == addr;
      } else if b !in before && b != IBlock(l, i) {
        if b in was {
          assert Touches(l, s, i, lo, bn, b) || Touches(l, s, i, lo, bn + 1, b);
          TouchesKept(l, s, t, i, lo, bn + 1, b);
        }
        assert Touches(l, t, i, lo, bn + 1, b) || Touches(l, t, i, bn, bn + 1, b);
        TouchesWritten(l, t, i, bn, c, lo, bn + 1, b);
      }
    }
  }

  lemma TouchesWritten(l: Layout, t: Fs, i: nat, bn: nat, c: Block, lo: nat, hi: nat, b: nat)
    requires Ok(l, t) && i < |t.inodes| && bn < MAXFILE && 0 < BlockOf(l, t, i, bn) < l.size && c.Sized()
    requires Touches(l, t, i, lo, hi, b)
    ensures Wf(l, Written(l, t, BlockOf(l, t, i, bn), c))
    ensures Touches(l, Written(l, t, BlockOf(l, t, i, bn), c), i, lo, hi, b)
  {
    hide Owned, Tab, IsMapBlock;
    var u := Written(l, t, BlockOf(l, t, i, bn), c);
    WriteSlot(l, t, i, bn, c, i, NDIRECT);
    if !IsMapBlock(l, b) && b != t.inodes[i].addrs[NDIRECT] {
      var k: nat :| lo <= k < hi && k < MAXFILE && b == BlockOf(l, t, i, k);
      WriteSlot(l, t, i, bn, c, i, SlotOf(k));
      assert b == BlockOf(l, u, i, k);
    }
  }

  lemma TouchesKept(l: Layout, s: Fs, t: Fs, i: nat, lo: nat, hi: nat, b: nat)
    requires Grown(l, s, t) && i < |s.inodes| && Touches(l, s, i, lo, hi, b)
    ensures Touches(l, t, i, lo, hi, b)
  {
    hide Owned, Tab, Mapped, ByteAt, IsMapBlock;
    if !IsMapBlock(l, b) {
      assert KeptSlot(l, s, t, i, NDIRECT);
      if b != s.inodes[i].addrs[NDIRECT] {
        var bn: nat :| lo <= bn < hi && bn < MAXFILE && b == BlockOf(l, s, i, bn);
        assert KeptSlot(l, s, t, i, SlotOf(bn));
        assert b == BlockOf(l, t, i, bn);
      }
    }
  }

  lemma ReadChunk(l: Layout, s: Fs, i: nat, off: nat, m: nat)
    requires Ok(l, s) && i < |s.inodes| && HoleFree(l, s, i) && 0 < m && off + m <= s.inodes[i].size
    requires off % BSIZE + m <= BSIZE
    ensures off / BSIZE < MAXFILE && 0 < BlockOf(l, s, i, off / BSIZE) < l.size
    ensures s.disk[BlockOf(l, s, i, off / BSIZE)].bytes[off % BSIZE..off % BSIZE + m] == Contents(l, s, i)[off..off + m]
  {
    hide Owned, Tab, SlotVal;
    assert Mapped(l, s, i, off);
    var bytes := s.disk[BlockOf(l, s, i, off / BSIZE)].bytes;
    var a, c := bytes[off % BSIZE..off % BSIZE + m], Contents(l, s, i)[off..off + m];
    forall k | 0 <= k < m ensures a[k] == c[k] {
      assert Mapped(l, s, i, off + k);
      InChunk(off, m, off + k);
    }
  }

  lemma ContentsSize(l: Layout, s: Fs, i: nat)
    requires Wf(l, s) && i < |s.inodes| && HoleFree(l, s, i)
    ensures |Contents(l, s, i)| == s.inodes[i].size
  {
  }

  lemma GrownRefl(l: Layout, s: Fs)
    requires Ok(l, s)
    ensures Grown(l, s, s)
  {
    hide Owned, Tab, SlotVal, Mapped, ByteAt;
  }

  lemma GrownFacts(l: Layout, s: Fs, t: Fs)
    requires Grown(l, s, t)
    ensures Ok(l, t) && |t.inodes| == |s.inodes|
  {
    hide Owned, Tab, SlotVal, Mapped, ByteAt;
  }

  predicate StartsBlock(b: nat) { b % BPB == 0 }

  lemma StartsNext(b: nat)
    ensures StartsBlock(0) && (StartsBlock(b) ==> StartsBlock(b + BPB))
  {
  }

  lemma SameByteOfMap(b: nat, bi: nat)
    requires StartsBlock(b)
    ensures (b + bi) / 8 == b / 8 + bi / 8 && (b + bi) % 8 == bi % 8
  {
    var q := b / BPB;
    assert b == 8 * (512 * q);
    AddBytes(512 * q, bi);
    AddBytes(512 * q, 0);
  }

  lemma AddBytes(k: nat, bi: nat)
    ensures (8 * k + bi) / 8 == k + bi / 8 && (8 * k + bi) % 8 == bi % 8
  {
  }
}
