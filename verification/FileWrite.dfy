/**
 file.c's filewrite: a long write goes down in chunks, each its own log transaction. The
 chunks together lay the whole buffer over the file, and each stays well below the
 MAXOPBLOCKS blocks that a transaction may log.
 */
module FileWrite {
  import opened Counting
  import opened Ownership
  import opened FsState
  import opened DiskSpace
  import opened FileSystem
  import LogProtocol

  const MAXOPBLOCKS := LogProtocol.MAXOPBLOCKS
  const CHUNK := ((MAXOPBLOCKS - 1 - 1 - 2) / 2) * 512

  lemma OverlayTwice(c: seq<nat>, off: nat, a: seq<nat>, b: seq<nat>)
    requires off <= |c|
    ensures off + |a| <= |Overlay(c, off, a)|
    ensures Overlay(Overlay(c, off, a), off + |a|, b) == Overlay(c, off, a + b)
  {
    var x, y := Overlay(Overlay(c, off, a), off + |a|, b), Overlay(c, off, a + b);
    assert |x| == |y|;
    forall k | 0 <= k < |x| ensures x[k] == y[k] {
    }
  }

  /** The disk blocks of file blocks `lo..hi`. */
  ghost function DataBlocks(l: Layout, s: Fs, i: nat, lo: nat, hi: nat): set<nat>
    requires Wf(l, s) && i < |s.inodes|
    decreases hi - lo
  {
    if lo >= hi || lo >= MAXFILE then {} else {BlockOf(l, s, i, lo)} + DataBlocks(l, s, i, lo + 1, hi)
  }

  lemma {:induction false} DataBlocksSize(l: Layout, s: Fs, i: nat, lo: nat, hi: nat)
    requires Wf(l, s) && i < |s.inodes| && lo <= hi
    ensures |DataBlocks(l, s, i, lo, hi)| <= hi - lo
    ensures forall bn: nat :: lo <= bn < hi && bn < MAXFILE ==> BlockOf(l, s, i, bn) in DataBlocks(l, s, i, lo, hi)
    decreases hi - lo
  {
    hide BlockOf;
    if lo < hi && lo < MAXFILE {
      DataBlocksSize(l, s, i, lo + 1, hi);
    }
  }

  /** With one bitmap block, a write of `n` file blocks logs at most `n + 3` blocks. */
  lemma LogBudget(l: Layout, s: Fs, i: nat, lo: nat, hi: nat, now: set<nat>)
    requires Wf(l, s) && i < |s.inodes| && lo <= hi && l.size <= BPB && LogsOnly(l, s, i, lo, hi, {}, now)
    ensures |now| <= hi - lo + 3
  {
    hide BlockOf, DataBlocks, IsMapBlock, IBlock;
    DataBlocksSize(l, s, i, lo, hi);
    var few := {l.bmapstart, IBlock(l, i), s.inodes[i].addrs[NDIRECT]};
    var all := few + DataBlocks(l, s, i, lo, hi);
    forall b | b in now ensures b in all {
      assert b == IBlock(l, i) || Touches(l, s, i, lo, hi, b);
      if IsMapBlock(l, b) {
        OneMapBlock(l, b);
      }
    }
    SubsetSize(now, all);
    assert |few| <= 3;
    assert |all| <= |few| + |DataBlocks(l, s, i, lo, hi)|;
  }

  lemma OneMapBlock(l: Layout, b: nat)
    requires l.size <= BPB && IsMapBlock(l, b)
    ensures b == l.bmapstart
  {
    var c: nat :| c < l.size && b == BBlock(l, c);
  }

  /** A chunk covers at most four file blocks, however it is aligned. */
  lemma ChunkBlocks(off: nat, n: nat)
    requires 0 < n <= CHUNK
    ensures (off + n - 1) / BSIZE + 1 - off / BSIZE <= 4
  {
  }

  /** One transaction: writei of one chunk, with the blocks it logs counted from nothing. */
  method WriteOne(fs: Device, i: nat, src: seq<nat>, off: nat) returns (ok: bool, r: int)
    requires Ok(fs.l, fs.Abs()) && i < |fs.inodes| && HoleFree(fs.l, fs.Abs(), i) && off < WORD && 0 < |src| <= CHUNK
    modifies fs
    ensures ok && r == -1 <==> off > old(fs.inodes)[i].size || off + |src| > MAXFILE * BSIZE
    ensures ok && r == -1 ==> fs.Abs() == old(fs.Abs())
    ensures ok && r != -1 ==>
              r == |src| && Ok(fs.l, fs.Abs()) && |fs.inodes| == old(|fs.inodes|) && off <= old(fs.inodes)[i].size
    ensures ok && r != -1 ==> HoleFree(fs.l, fs.Abs(), i)
    ensures ok && r != -1 ==> Contents(fs.l, fs.Abs(), i) == Overlay(old(Contents(fs.l, fs.Abs(), i)), off, src)
    ensures ok && r != -1 ==> forall j: nat :: j < |fs.inodes| && j != i ==> SameFile(fs.l, old(fs.Abs()), fs.Abs(), j)
    ensures ok && r != -1 && fs.l.size <= BPB ==> |fs.logged| < MAXOPBLOCKS
    ensures ok <==>
              off > old(fs.inodes)[i].size || off + |src| > MAXFILE * BSIZE || Room(fs.l, old(fs.Abs()), i, off, |src|)
    ensures Drew(fs.l, old(fs.Abs()), fs.Abs(), i, off / BSIZE, EndBlock(off, |src|))
    ensures (ok && r == -1) || (ok <==> Lacking(fs.l, fs.Abs(), i, off / BSIZE, EndBlock(off, |src|)) == {})
    ensures !ok ==> DiskFull(fs.l, fs.bits)
  {
    hide Owned, Tab, SlotVal, Mapped, ByteAt, LogsOnly, Bit, Contents, Overlay, SameFile, Drew, Lacking, Clear;
    assert fs.inodes[i].size <= MAXFILE * BSIZE;
    hide HoleFree;
    fs.logged := {};
    ok, r := fs.Writei(i, src, off);
    if ok && r != -1 && fs.l.size <= BPB {
      ChunkBlocks(off, |src|);
      LogBudget(fs.l, fs.Abs(), i, off / BSIZE, (off + |src| - 1) / BSIZE + 1, fs.logged);
    }
  }

  /** How many of `n` bytes go down at `off`: all, or the whole chunks that fit a file of the largest size. */
  function Taken(off: nat, n: nat, size: nat): nat
    requires size <= MAXFILE * BSIZE
  {
    if off > size then 0
    else if off + n <= MAXFILE * BSIZE then n
    else WholeChunks(MAXFILE * BSIZE - off) * CHUNK
  }

  function WholeChunks(n: nat): (q: nat)
    ensures q * CHUNK <= n < q * CHUNK + CHUNK
  {
    n / CHUNK
  }

  /** The first chunk that does not fit is where the count of bytes taken ends. */
  lemma TakenAt(off: nat, n: nat, size: nat, j: nat)
    requires size <= MAXFILE * BSIZE && j * CHUNK < n
    ensures Taken(off, n, size) <= n
    ensures var n1 := if n - j * CHUNK > CHUNK then CHUNK else n - j * CHUNK;
            && (off <= size && off + j * CHUNK + n1 <= MAXFILE * BSIZE <==> j * CHUNK < Taken(off, n, size))
            && (j * CHUNK < Taken(off, n, size) ==> j * CHUNK + n1 <= Taken(off, n, size))
  {
    hide WholeChunks;
    if off <= size && off + n > MAXFILE * BSIZE && off <= MAXFILE * BSIZE {
      var room := MAXFILE * BSIZE - off;
      ChunksFit(room, WholeChunks(room), j);
    }
  }

  lemma ChunksFit(room: nat, q: nat, j: nat)
    requires q * CHUNK <= room < q * CHUNK + CHUNK
    ensures j < q <==> j * CHUNK + CHUNK <= room
    ensures j < q ==> j * CHUNK + CHUNK <= q * CHUNK
    ensures j >= q ==> j * CHUNK >= q * CHUNK
  {
  }

  lemma SameFileTrans(l: Layout, s: Fs, t: Fs, u: Fs, j: nat)
    requires Wf(l, s) && Wf(l, t) && Wf(l, u) && j < |s.inodes| == |t.inodes| == |u.inodes|
    requires SameFile(l, s, t, j) && SameFile(l, t, u, j)
    ensures SameFile(l, s, u, j)
  {
    hide HoleFree, Contents;
  }

  /** What filewrite has done after laying `k` bytes of `addr` over the file. */
  ghost predicate Laid(l: Layout, s0: Fs, s: Fs, i: nat, addr: seq<nat>, off: nat, k: nat) {
    && Ok(l, s0) && Ok(l, s) && i < |s.inodes| == |s0.inodes| && k <= |addr|
    && HoleFree(l, s0, i) && HoleFree(l, s, i)
    && (if k == 0 then Contents(l, s, i) == Contents(l, s0, i)
        else off <= |Contents(l, s0, i)| && Contents(l, s, i) == Overlay(Contents(l, s0, i), off, addr[..k]))
    && forall j: nat :: j < |s.inodes| && j != i ==> SameFile(l, s0, s, j)
  }

  lemma LaidMore(l: Layout, s0: Fs, s: Fs, t: Fs, i: nat, addr: seq<nat>, off: nat, k: nat, n: nat)
    requires Laid(l, s0, s, i, addr, off, k) && 0 < n && k + n <= |addr|
    requires Ok(l, t) && |t.inodes| == |s.inodes| && HoleFree(l, t, i) && off + k <= |Contents(l, s, i)|
    requires Contents(l, t, i) == Overlay(Contents(l, s, i), off + k, addr[k..k + n])
    requires forall j: nat :: j < |t.inodes| && j != i ==> SameFile(l, s, t, j)
    ensures Laid(l, s0, t, i, addr, off, k + n)
  {
    hide Owned, Tab, SlotVal, HoleFree, Contents, Overlay, SameFile, Ok;
    LaidOk(l, s0, s);
    LaidOk(l, s, t);
    forall j: nat | j < |t.inodes| && j != i ensures SameFile(l, s0, t, j) {
      SameFileTrans(l, s0, s, t, j);
    }
    assert addr[..k + n] == addr[..k] + addr[k..k + n];
    if 0 < k {
      OverlayTwice(Contents(l, s0, i), off, addr[..k], addr[k..k + n]);
    } else {
      assert addr[..n] == addr[k..k + n];
    }
  }

  lemma LaidOk(l: Layout, s: Fs, t: Fs)
    requires Ok(l, s) && Ok(l, t)
    ensures Wf(l, s) && Wf(l, t)
  {
  }

  /** Where filewrite stands after `k` bytes. */
  ghost predicate Going(l: Layout, s0: Fs, s: Fs, i: nat, addr: seq<nat>, off: nat, k: nat) {
    && Laid(l, s0, s, i, addr, off, k) && s0.inodes[i].size <= MAXFILE * BSIZE
    && var all := Taken(off, |addr|, s0.inodes[i].size);
       k <= all && (k > 0 ==> off <= s0.inodes[i].size) && Drawing(l, s0, s, i, off, k, all)
  }

  lemma GoingFacts(l: Layout, s0: Fs, s: Fs, i: nat, addr: seq<nat>, off: nat, k: nat)
    requires Going(l, s0, s, i, addr, off, k)
    ensures Ok(l, s0) && Ok(l, s) && i < |s.inodes| == |s0.inodes| && HoleFree(l, s, i)
    ensures s0.inodes[i].size <= MAXFILE * BSIZE
    ensures k <= Taken(off, |addr|, s0.inodes[i].size)
    ensures (off + k <= s.inodes[i].size <==> off <= s0.inodes[i].size) && (k > 0 ==> off + k <= MAXFILE * BSIZE)
    ensures |Contents(l, s, i)| == s.inodes[i].size
  {
    hide Owned, Tab, SlotVal, HoleFree, Drawing, Taken, SameFile, Contents, Overlay;
    LaidSize(l, s0, s, i, addr, off, k);
    FileSize(l, s, i);
  }

  lemma FileSize(l: Layout, s: Fs, i: nat)
    requires Wf(l, s) && i < |s.inodes| && HoleFree(l, s, i)
    ensures s.inodes[i].size <= MAXFILE * BSIZE
  {
    hide Mapped;
  }

  lemma GoingMore(l: Layout, s0: Fs, s: Fs, t: Fs, i: nat, addr: seq<nat>, off: nat, k: nat, n: nat)
    requires Going(l, s0, s, i, addr, off, k) && 0 < n && k + n <= |addr| && off <= s0.inodes[i].size
    requires k + n <= Taken(off, |addr|, s0.inodes[i].size)
    requires Ok(l, t) && |t.inodes| == |s.inodes| && HoleFree(l, t, i) && off + k <= |Contents(l, s, i)|
    requires Contents(l, t, i) == Overlay(Contents(l, s, i), off + k, addr[k..k + n])
    requires forall j: nat :: j < |t.inodes| && j != i ==> SameFile(l, s, t, j)
    requires Drew(l, s, t, i, (off + k) / BSIZE, EndBlock(off + k, n))
    requires Lacking(l, t, i, (off + k) / BSIZE, EndBlock(off + k, n)) == {}
    ensures Going(l, s0, t, i, addr, off, k + n)
  {
    hide Laid, Drawing, Taken, Drew, Lacking, Overlay, HoleFree, Contents, SameFile, Ok;
    GoingFacts(l, s0, s, i, addr, off, k);
    LaidMore(l, s0, s, t, i, addr, off, k, n);
    DrawingMore(l, s0, s, t, i, off, k, n, Taken(off, |addr|, s0.inodes[i].size));
  }

  /** One turn of the loop in filewrite. */
  method WriteNext(fs: Device, i: nat, addr: seq<nat>, off: nat, k: nat, ghost j: nat, ghost s0: Fs) returns (ok: bool,
                   r: int)
    requires Going(fs.l, s0, fs.Abs(), i, addr, off, k) && k == j * CHUNK < |addr| < WORD / 2 && off < WORD
    modifies fs
    ensures ok && r < 0 ==> fs.Abs() == old(fs.Abs()) && k == Taken(off, |addr|, s0.inodes[i].size)
    ensures ok && r >= 0 ==> r == Min(CHUNK, |addr| - k) && Going(fs.l, s0, fs.Abs(), i, addr, off, k + r)
    ensures !ok ==> DiskFull(fs.l, fs.bits) && !Room(fs.l, s0, i, off, Taken(off, |addr|, s0.inodes[i].size))
  {
    hide Going, Taken, Room, DiskFull, Drew, Lacking, Drawing, Laid, HoleFree, Contents, Overlay, SameFile, Owned, Tab;
    hide SlotVal;
    ghost var s := fs.Abs();
    GoingFacts(fs.l, s0, s, i, addr, off, k);
    var n1 := |addr| - k;
    if n1 > CHUNK {
      n1 := CHUNK;
    }
    TakenAt(off, |addr|, s0.inodes[i].size, j);
    ok, r := WriteOne(fs, i, addr[k..k + n1], off + k);
    if !ok {
      GoingFails(fs.l, s0, s, fs.Abs(), i, addr, off, k, n1);
    } else if r >= 0 {
      GoingMore(fs.l, s0, s, fs.Abs(), i, addr, off, k, n1);
    }
  }

  lemma GoingFails(l: Layout, s0: Fs, s: Fs, t: Fs, i: nat, addr: seq<nat>, off: nat, k: nat, n: nat)
    requires Going(l, s0, s, i, addr, off, k) && 0 < n && k + n <= Taken(off, |addr|, s0.inodes[i].size)
    requires Drew(l, s, t, i, (off + k) / BSIZE, EndBlock(off + k, n)) && DiskFull(l, t.bits)
    requires Lacking(l, t, i, (off + k) / BSIZE, EndBlock(off + k, n)) != {}
    ensures !Room(l, s0, i, off, Taken(off, |addr|, s0.inodes[i].size))
  {
    hide Laid, Drawing, Taken, Drew, Lacking, Room, DiskFull;
    GoingFacts(l, s0, s, i, addr, off, k);
    DrawingFails(l, s0, s, t, i, off, k, n, Taken(off, |addr|, s0.inodes[i].size));
  }

  lemma GoingStart(l: Layout, s: Fs, i: nat, addr: seq<nat>, off: nat)
    requires Ok(l, s) && i < |s.inodes| && HoleFree(l, s, i)
    ensures s.inodes[i].size <= MAXFILE * BSIZE && Going(l, s, s, i, addr, off, 0)
  {
    hide Laid, Drawing;
    LaidNothing(l, s, i, addr, off);
    DrawingNothing(l, s, i, off, Taken(off, |addr|, s.inodes[i].size));
  }

  lemma GoingDone(l: Layout, s0: Fs, s: Fs, i: nat, addr: seq<nat>, off: nat, k: nat)
    requires Going(l, s0, s, i, addr, off, k) && k == Taken(off, |addr|, s0.inodes[i].size)
    ensures Wf(l, s0) && Laid(l, s0, s, i, addr, off, k) && Room(l, s0, i, off, k)
  {
    hide Laid, Drawing, Room, Taken;
    DrawingDone(l, s0, s, i, off, k);
  }

  /**
   filewrite: everything when it fits the largest file, else the whole chunks that do, and -1. Other
   files stay. !ok where the kernel panics, exactly when too few blocks are left for these bytes.
   */
  method Filewrite(fs: Device, i: nat, addr: seq<nat>, off: nat) returns (ok: bool, r: int, off': nat)
    requires Ok(fs.l, fs.Abs()) && i < |fs.inodes| && HoleFree(fs.l, fs.Abs(), i) && off < WORD && |addr| < WORD / 2
    modifies fs
    ensures old(fs.inodes)[i].size <= MAXFILE * BSIZE
    ensures ok ==> off' == off + Taken(off, |addr|, old(fs.inodes)[i].size)
    ensures ok ==> Laid(fs.l, old(fs.Abs()), fs.Abs(), i, addr, off, off' - off)
    ensures ok ==> r == if off' == off + |addr| then |addr| else -1
    ensures ok <==> Room(fs.l, old(fs.Abs()), i, off, Taken(off, |addr|, old(fs.inodes)[i].size))
    ensures !ok ==> DiskFull(fs.l, fs.bits)
  {
    hide Ok, HoleFree, Taken, Laid, Going, Room, DiskFull;
    ghost var s0 := fs.Abs();
    GoingStart(fs.l, s0, i, addr, off);
    var n, k := |addr|, 0;
    ghost var j := 0;
    off' := off;
    while k < n
      invariant 0 <= k <= n && off' == off + k && (k < n ==> k == j * CHUNK)
      invariant Going(fs.l, s0, fs.Abs(), i, addr, off, k)
    {
      ok, r := WriteNext(fs, i, addr, off, k, j, s0);
      if !ok {
        return;
      }
      if r < 0 {
        break;
      }
      off' := off' + r;
      k := k + r;
      j := j + 1;
    }
    TakenMost(off, n, s0.inodes[i].size);
    GoingFacts(fs.l, s0, fs.Abs(), i, addr, off, k);
    GoingDone(fs.l, s0, fs.Abs(), i, addr, off, k);
    ok := true;
    r := if k == n then n else -1;
  }

  lemma TakenMost(off: nat, n: nat, size: nat)
    requires size <= MAXFILE * BSIZE
    ensures Taken(off, n, size) <= n
  {
  }

  /** `k` of `all` bytes at `off` have the blocks they need, taken from the clear ones. */
  ghost predicate Drawing(l: Layout, s0: Fs, s: Fs, i: nat, off: nat, k: nat, all: nat) {
    && Drew(l, s0, s, i, off / BSIZE, EndBlock(off, all))
    && Lacking(l, s, i, off / BSIZE, EndBlock(off, k)) == {}
  }

  lemma DrawingNothing(l: Layout, s: Fs, i: nat, off: nat, all: nat)
    requires Wf(l, s) && i < |s.inodes|
    ensures Drawing(l, s, s, i, off, 0, all)
  {
    hide SlotVal, Bit, Drew;
    DrewSame(l, s, s, i, off / BSIZE, EndBlock(off, all));
    LackingNone(l, s, i, off / BSIZE);
  }

  lemma DrawingMore(l: Layout, s0: Fs, s: Fs, t: Fs, i: nat, off: nat, k: nat, n: nat, all: nat)
    requires Drawing(l, s0, s, i, off, k, all) && 0 < n && k + n <= all
    requires Drew(l, s, t, i, (off + k) / BSIZE, EndBlock(off + k, n))
    requires Lacking(l, t, i, (off + k) / BSIZE, EndBlock(off + k, n)) == {}
    ensures Drawing(l, s0, t, i, off, k + n, all)
  {
    hide Drew, Lacking;
    ChunkRange(off, k, n, all);
    var lo, lo', hi' := off / BSIZE, (off + k) / BSIZE, EndBlock(off + k, n);
    DrewWiden(l, s, t, i, lo', hi', lo, EndBlock(off, all));
    DrewTrans(l, s0, s, t, i, lo, EndBlock(off, all));
    LackingStays(l, s, t, i, lo, EndBlock(off, k), lo', hi');
    LackingJoin(l, t, i, lo, EndBlock(off, k), lo', hi');
  }

  lemma ChunkRange(off: nat, k: nat, n: nat, all: nat)
    requires 0 < n && k + n <= all
    ensures off / BSIZE <= (off + k) / BSIZE <= EndBlock(off, k)
    ensures EndBlock(off + k, n) == EndBlock(off, k + n) <= EndBlock(off, all)
    ensures (off + k) / BSIZE < EndBlock(off + k, n)
  {
  }

  /** A chunk that finds no block means there were not enough for all. */
  lemma DrawingFails(l: Layout, s0: Fs, s: Fs, t: Fs, i: nat, off: nat, k: nat, n: nat, all: nat)
    requires Drawing(l, s0, s, i, off, k, all) && 0 < n && k + n <= all
    requires Drew(l, s, t, i, (off + k) / BSIZE, EndBlock(off + k, n)) && DiskFull(l, t.bits)
    requires Lacking(l, t, i, (off + k) / BSIZE, EndBlock(off + k, n)) != {}
    ensures !Room(l, s0, i, off, all)
  {
    hide Drew, Lacking, Clear, DiskFull;
    ChunkRange(off, k, n, all);
    var lo, hi, lo', hi' := off / BSIZE, EndBlock(off, all), (off + k) / BSIZE, EndBlock(off + k, n);
    DrewWiden(l, s, t, i, lo', hi', lo, hi);
    DrewTrans(l, s0, s, t, i, lo, hi);
    FullIsClear(l, t);
    LackingWider(l, t, i, lo, hi, lo', hi');
    DrewAll(l, s0, t, i, lo, hi);
  }

  lemma DrawingDone(l: Layout, s0: Fs, s: Fs, i: nat, off: nat, all: nat)
    requires Drawing(l, s0, s, i, off, all, all)
    ensures Wf(l, s0) && i < |s0.inodes| && Room(l, s0, i, off, all)
  {
    hide Lacking, Clear;
    DrewAll(l, s0, s, i, off / BSIZE, EndBlock(off, all));
  }

  lemma LaidNothing(l: Layout, s: Fs, i: nat, addr: seq<nat>, off: nat)
    requires Ok(l, s) && i < |s.inodes| && HoleFree(l, s, i)
    ensures Laid(l, s, s, i, addr, off, 0)
  {
    hide Owned, Tab;
  }

  lemma LaidSize(l: Layout, s0: Fs, s: Fs, i: nat, addr: seq<nat>, off: nat, k: nat)
    requires Laid(l, s0, s, i, addr, off, k)
    ensures Ok(l, s) && i < |s.inodes| == |s0.inodes| && HoleFree(l, s, i) && |Contents(l, s, i)| == s.inodes[i].size
    ensures if k == 0 then s.inodes[i].size == s0.inodes[i].size else off + k <= s.inodes[i].size
  {
    hide Owned, Tab, SlotVal, SameFile, HoleFree, Contents;
    LaidOk(l, s0, s);
    ContentsSize(l, s, i);
    ContentsSize(l, s0, i);
  }
}
