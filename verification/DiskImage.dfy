/**
 The blocks of the disk that a file system state stands for: bitmap blocks, inode blocks and
 data blocks, as the log carries them.
 */
module DiskImage {
  import opened Ownership
  import opened FsState
  import opened FileSystem
  import LogProtocol

  type Words = LogProtocol.Block

  /** An inode on disk: its 13 addresses, then its size. */
  const IWORDS := NDIRECT + 2

  function MapBlocks(s: Fs): nat { (|s.bits| + BSIZE - 1) / BSIZE }

  function InodeBlocks(s: Fs): nat { (|s.inodes| + IPB - 1) / IPB }

  predicate InMap(l: Layout, s: Fs, b: int) { l.bmapstart <= b < l.bmapstart + MapBlocks(s) }

  predicate InInodes(l: Layout, s: Fs, b: int) { l.inodestart <= b < l.inodestart + InodeBlocks(s) }

  /** The log, the inodes, the bitmap and the data lie apart. */
  ghost predicate Placed(ll: LogProtocol.Layout, l: Layout, s: Fs) {
    && ll.Valid() && ll.total == l.size
    && l.bmapstart + MapBlocks(s) <= l.first && l.inodestart + InodeBlocks(s) <= l.first
    && ll.start + ll.size <= l.first
    && (forall b :: InMap(l, s, b) ==> !InInodes(l, s, b) && ll.Home(b))
    && (forall b :: InInodes(l, s, b) ==> ll.Home(b))
  }

  function MapWord(s: Fs, j: int): int {
    if 0 <= j < |s.bits| then s.bits[j] as int else 0
  }

  function InodeWord(s: Fs, j: int, f: int): int {
    if 0 <= j < |s.inodes| && 0 <= f <= |s.inodes[j].addrs| then
      (if f < |s.inodes[j].addrs| then s.inodes[j].addrs[f] else s.inodes[j].size)
    else 0
  }

  /** Bitmap block `q` and inode block `q`. */
  function MapImage(s: Fs, q: int): (r: seq<int>)
    ensures |r| == BSIZE && forall j :: 0 <= j < BSIZE ==> r[j] == MapWord(s, q * BSIZE + j)
  {
    seq(BSIZE, j => MapWord(s, q * BSIZE + j))
  }

  function InodeImage(s: Fs, q: int): (r: seq<int>)
    ensures |r| == IPB * IWORDS && forall j :: 0 <= j < IPB * IWORDS ==>
              r[j] == InodeWord(s, q * IPB + j / IWORDS, j % IWORDS)
  {
    seq(IPB * IWORDS, j => InodeWord(s, q * IPB + j / IWORDS, j % IWORDS))
  }

  /** What block `b` of the disk holds in state `s`. */
  function Image(l: Layout, s: Fs, b: int): Words
    requires 0 <= b < |s.disk|
  {
    if InMap(l, s, b) then LogProtocol.Block(MapImage(s, b - l.bmapstart))
    else if InInodes(l, s, b) then LogProtocol.Block(InodeImage(s, b - l.inodestart))
    else LogProtocol.Block(s.disk[b].bytes)
  }

  /** A block that was not logged looks as before. */
  lemma Unlogged(l: Layout, s: Fs, t: Fs, logged: set<nat>, b: nat)
    requires Covers(l, s, t, -1, logged) && b < |s.disk| && b !in logged
    ensures Image(l, t, b) == Image(l, s, b)
  {
    hide MapImage, InodeImage, BBlock, IBlock;
    if InMap(l, s, b) {
      var x, y := MapImage(s, b - l.bmapstart), MapImage(t, b - l.bmapstart);
      forall j | 0 <= j < BSIZE ensures x[j] == y[j] {
        MapByteBlock(l, b, j);
      }
      assert x == y;
    } else if InInodes(l, s, b) {
      var x, y := InodeImage(s, b - l.inodestart), InodeImage(t, b - l.inodestart);
      forall j | 0 <= j < IPB * IWORDS ensures x[j] == y[j] {
        InodeInBlock(l, b, j);
      }
      assert x == y;
    }
  }

  lemma MapByteBlock(l: Layout, b: nat, j: int)
    requires l.bmapstart <= b && 0 <= j < BSIZE
    ensures var k := (b - l.bmapstart) * BSIZE + j; k >= 0 && BBlock(l, 8 * k) == b
  {
    var q := b - l.bmapstart;
    assert 8 * (q * BSIZE + j) == q * BPB + 8 * j;
  }

  lemma InodeInBlock(l: Layout, b: nat, j: int)
    requires l.inodestart <= b && 0 <= j < IPB * IWORDS
    ensures var k := (b - l.inodestart) * IPB + j / IWORDS; k >= 0 && IBlock(l, k) == b
  {
    var q := b - l.inodestart;
    assert 0 <= j / IWORDS < IPB;
  }

  // The image says everything about the files.

  lemma SameByteValue(x: bv8, y: bv8)
    ensures x as int == y as int ==> x == y
  {
  }

  lemma MapFromImage(l: Layout, s: Fs, t: Fs, k: nat)
    requires |s.bits| == |t.bits| && |s.inodes| == |t.inodes| && |s.disk| == |t.disk| && k < |s.bits|
    requires l.bmapstart + MapBlocks(s) <= |s.disk|
    requires forall b :: InMap(l, s, b) && 0 <= b < |s.disk| ==> Image(l, t, b) == Image(l, s, b)
    ensures t.bits[k] == s.bits[k]
  {
    hide MapImage;
    var b, j := l.bmapstart + k / BSIZE, k % BSIZE;
    assert InMap(l, s, b) && InMap(l, t, b);
    assert Image(l, t, b) == Image(l, s, b);
    assert (b - l.bmapstart) * BSIZE + j == k;
    assert MapImage(s, b - l.bmapstart)[j] == MapWord(s, k) && MapImage(t, b - l.bmapstart)[j] == MapWord(t, k);
    SameByteValue(s.bits[k], t.bits[k]);
  }

  lemma InodeFromImage(l: Layout, s: Fs, t: Fs, i: nat, f: nat)
    requires |s.bits| == |t.bits| && |s.inodes| == |t.inodes| && |s.disk| == |t.disk| && i < |s.inodes| && f < IWORDS
    requires |s.inodes[i].addrs| == |t.inodes[i].addrs| == NDIRECT + 1
    requires l.inodestart + InodeBlocks(s) <= |s.disk| && forall b :: InInodes(l, s, b) ==> !InMap(l, s, b)
    requires forall b :: InInodes(l, s, b) && 0 <= b < |s.disk| ==> Image(l, t, b) == Image(l, s, b)
    ensures InodeWord(t, i, f) == InodeWord(s, i, f)
  {
    hide InodeImage, InodeWord, MapImage;
    var q, j := i / IPB, (i % IPB) * IWORDS + f;
    var b := l.inodestart + q;
    assert InInodes(l, s, b) && InInodes(l, t, b);
    assert Image(l, t, b) == Image(l, s, b);
    InodeWordIn(s, i, f);
    InodeWordIn(t, i, f);
  }

  /** Where inode `i`'s word `f` lies in its block. */
  lemma InodeWordIn(s: Fs, i: nat, f: nat)
    requires f < IWORDS
    ensures (i % IPB) * IWORDS + f < IPB * IWORDS
    ensures InodeImage(s, i / IPB)[(i % IPB) * IWORDS + f] == InodeWord(s, i, f)
  {
    hide InodeImage, InodeWord;
    var j := (i % IPB) * IWORDS + f;
    assert j / IWORDS == i % IPB && j % IWORDS == f;
    assert (i / IPB) * IPB + j / IWORDS == i;
  }

  /** Two states with the same blocks outside the log have the same bitmap, inodes and data. */
  lemma ImageDetermines(ll: LogProtocol.Layout, l: Layout, s: Fs, t: Fs)
    requires Wf(l, s) && Wf(l, t) && |s.bits| == |t.bits| && |s.inodes| == |t.inodes| && Placed(ll, l, s)
    requires forall b :: ll.Home(b) ==> Image(l, t, b) == Image(l, s, b)
    ensures t.bits == s.bits && t.inodes == s.inodes && forall b :: l.first <= b < l.size ==> t.disk[b] == s.disk[b]
  {
    hide Image, InodeWord;
    forall k: nat | k < |s.bits| ensures t.bits[k] == s.bits[k] {
      MapFromImage(l, s, t, k);
    }
    forall i: nat | i < |s.inodes| ensures t.inodes[i] == s.inodes[i] {
      InodeDetermined(ll, l, s, t, i);
    }
    forall b | l.first <= b < l.size ensures t.disk[b] == s.disk[b] {
      DataDetermined(ll, l, s, t, b);
    }
  }

  lemma InodeDetermined(ll: LogProtocol.Layout, l: Layout, s: Fs, t: Fs, i: nat)
    requires Wf(l, s) && Wf(l, t) && |s.bits| == |t.bits| && |s.inodes| == |t.inodes| && Placed(ll, l, s)
    requires i < |s.inodes|
    requires forall b :: ll.Home(b) ==> Image(l, t, b) == Image(l, s, b)
    ensures t.inodes[i] == s.inodes[i]
  {
    hide Image;
    forall f: nat | f < IWORDS ensures InodeWord(t, i, f) == InodeWord(s, i, f) {
      InodeFromImage(l, s, t, i, f);
    }
    var a, c := s.inodes[i].addrs, t.inodes[i].addrs;
    forall f: nat | f < NDIRECT + 1 ensures a[f] == c[f] {
      assert InodeWord(t, i, f) == InodeWord(s, i, f);
    }
    assert InodeWord(t, i, NDIRECT + 1) == InodeWord(s, i, NDIRECT + 1);
  }

  lemma DataDetermined(ll: LogProtocol.Layout, l: Layout, s: Fs, t: Fs, b: int)
    requires Wf(l, s) && Wf(l, t) && |s.bits| == |t.bits| && |s.inodes| == |t.inodes| && Placed(ll, l, s)
    requires l.first <= b < l.size
    requires forall b :: ll.Home(b) ==> Image(l, t, b) == Image(l, s, b)
    ensures t.disk[b] == s.disk[b]
  {
    assert ll.Home(b);
    assert Image(l, t, b) == Image(l, s, b);
  }
}
