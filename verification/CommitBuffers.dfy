/**
 The log and the buffer cache together. A logged block stays pinned in its buffer until the commit
 has copied it, and the commit needs one more buffer to copy it with. There are as many buffers as
 the log header has entries.
 */
module CommitBuffers {
  import opened Counting
  import opened BufferRing
  import opened BufferCache
  import L = LogProtocol
  import R = LogRuns

  /** When bget finds a buffer for the block. */
  ghost predicate Finds(bufs: seq<Buf>, key: Key) {
    || (exists i :: 0 <= i < |bufs| && bufs[i].key == key)
    || (exists i :: 0 <= i < |bufs| && Idle(bufs[i]))
  }

  function Dirty(bufs: seq<Buf>): set<int> { set i | 0 <= i < |bufs| && bufs[i].dirty }

  function HeldClean(bufs: seq<Buf>): set<int> { set i | 0 <= i < |bufs| && bufs[i].refcnt > 0 && !bufs[i].dirty }

  ghost predicate Pinned(bufs: seq<Buf>, dev: int, b: int) {
    exists i :: 0 <= i < |bufs| && bufs[i].dirty && bufs[i].key == Key(dev, b)
  }

  /** The dirty buffers are those that log_write pinned. */
  ghost predicate Pins(bufs: seq<Buf>, dev: int, s: L.State) {
    && (forall i :: 0 <= i < |bufs| && bufs[i].dirty ==> bufs[i].key.dev == dev && bufs[i].key.blockno in s.dirty)
    && (forall b :: b in s.dirty ==> Pinned(bufs, dev, b))
  }

  function Range(n: nat): (r: set<int>)
    ensures |r| == n && forall i :: i in r <==> 0 <= i < n
  {
    if n == 0 then {} else Range(n - 1) + {n - 1}
  }

  /** A buffer is idle exactly when the pinned and the held ones are not all. */
  lemma IdleIffRoom(bufs: seq<Buf>)
    ensures (exists i :: 0 <= i < |bufs| && Idle(bufs[i])) <==> |Dirty(bufs)| + |HeldClean(bufs)| < |bufs|
  {
    var busy := Dirty(bufs) + HeldClean(bufs);
    assert Dirty(bufs) !! HeldClean(bufs);
    assert |busy| == |Dirty(bufs)| + |HeldClean(bufs)|;
    if i :| 0 <= i < |bufs| && Idle(bufs[i]) {
      SubsetSize(busy + {i}, Range(|bufs|));
    } else {
      SubsetSize(Range(|bufs|), busy);
    }
  }

  /** Buffers that hold the blocks of `lh`. */
  function HoldersOf(bufs: seq<Buf>, dev: int, lh: seq<int>): set<int> {
    set i | 0 <= i < |bufs| && bufs[i].key.dev == dev && bufs[i].key.blockno in lh
  }

  lemma {:induction false} HoldersCount(bufs: seq<Buf>, dev: int, lh: seq<int>)
    requires Unique(bufs) && dev != 0 && L.Distinct(lh) && forall k :: 0 <= k < |lh| ==> Pinned(bufs, dev, lh[k])
    ensures |HoldersOf(bufs, dev, lh)| == |lh|
    decreases |lh|
  {
    if lh == [] {
      assert HoldersOf(bufs, dev, lh) == {};
    } else {
      var rest, b := lh[..|lh| - 1], lh[|lh| - 1];
      HoldersCount(bufs, dev, rest);
      OneMoreHolder(bufs, dev, rest, b);
      assert rest + [b] == lh;
    }
  }

  lemma OneMoreHolder(bufs: seq<Buf>, dev: int, lh: seq<int>, b: int)
    requires Unique(bufs) && dev != 0 && b !in lh && Pinned(bufs, dev, b)
    ensures |HoldersOf(bufs, dev, lh + [b])| == |HoldersOf(bufs, dev, lh)| + 1
  {
    var j :| 0 <= j < |bufs| && bufs[j].dirty && bufs[j].key == Key(dev, b);
    assert HoldersOf(bufs, dev, lh + [b]) == HoldersOf(bufs, dev, lh) + {j};
  }

  /** As many buffers are pinned as the header has entries. */
  lemma PinnedCount(l: L.Layout, base: L.Disk, s: L.State, bufs: seq<Buf>, disk: map<Key, Data>, dev: int)
    requires L.Inv(l, base, s) && s.pc.WritingLog? && Inv(bufs, disk) && Pins(bufs, dev, s)
    ensures |Dirty(bufs)| == |s.lh|
  {
    PinnedKeys(l, base, s);
    hide L.Inv;
    assert Pinned(bufs, dev, s.lh[0]);
    forall i | 0 <= i < |bufs| && bufs[i].key.dev == dev && bufs[i].key.blockno in s.lh ensures bufs[i].dirty {
      assert Pinned(bufs, dev, bufs[i].key.blockno);
    }
    assert Dirty(bufs) == HoldersOf(bufs, dev, s.lh);
    HoldersCount(bufs, dev, s.lh);
  }

  lemma PinnedKeys(l: L.Layout, base: L.Disk, s: L.State)
    requires L.Inv(l, base, s) && s.pc.WritingLog?
    ensures L.WellSized(l, s) && L.Distinct(s.lh) && s.pc.k < |s.lh| && forall b :: b in s.dirty <==> b in s.lh
  {
  }

  /**
   write_log's bread of a log block that is not cached finds a buffer exactly when the pinned
   buffers and those in other hands are not all. With none in other hands, it finds one, cached or
   not, exactly when the header has fewer than LOGSIZE entries.
   */
  lemma CommitBread(l: L.Layout, base: L.Disk, s: L.State, bufs: seq<Buf>, disk: map<Key, Data>, dev: int)
    requires L.Inv(l, base, s) && s.pc.WritingLog? && Inv(bufs, disk) && Pins(bufs, dev, s)
    ensures var key := Key(dev, l.start + s.pc.k + 1);
            (forall i :: 0 <= i < |bufs| ==> bufs[i].key != key) ==>
              (Finds(bufs, key) <==> |s.lh| + |HeldClean(bufs)| < NBUF)
    ensures var key := Key(dev, l.start + s.pc.k + 1);
            HeldClean(bufs) == {} ==> (Finds(bufs, key) <==> |s.lh| < L.LOGSIZE)
  {
    hide L.Inv, L.WellSized, L.Distinct, Dirty, HeldClean, Pins, Unique, BufOk;
    PinnedCount(l, base, s, bufs, disk, dev);
    IdleIffRoom(bufs);
    var key := Key(dev, l.start + s.pc.k + 1);
    if i :| 0 <= i < |bufs| && bufs[i].key == key {
      LogBlockClean(l, base, s, bufs, dev, i);
      SomeClean(bufs, i);
    }
  }

  lemma SomeClean(bufs: seq<Buf>, i: int)
    requires 0 <= i < |bufs| && !bufs[i].dirty
    ensures |Dirty(bufs)| < |bufs|
  {
    SubsetSize(Dirty(bufs) + {i}, Range(|bufs|));
  }

  /** The log's own blocks are not pinned. */
  lemma LogBlockClean(l: L.Layout, base: L.Disk, s: L.State, bufs: seq<Buf>, dev: int, i: int)
    requires L.Inv(l, base, s) && s.pc.WritingLog? && Pins(bufs, dev, s)
    requires 0 <= i < |bufs| && bufs[i].key == Key(dev, l.start + s.pc.k + 1)
    ensures !bufs[i].dirty
  {
    hide L.Inv, L.Distinct, Pinned;
    PinnedKeys(l, base, s);
    assert !l.Home(l.start + s.pc.k + 1);
  }

  // Which logs leave the commit a buffer.

  /** In every run, a commit starts with fewer entries than there are buffers. */
  ghost predicate CommitRoom(l: L.Layout, d: L.Disk) {
    forall es :: R.IsRun(l, R.Boot(d), es) && R.End(l, R.Boot(d), es).pc.WritingLog? ==>
      |R.End(l, R.Boot(d), es).lh| < NBUF
  }

  /** Three calls, each within its reservation, whose commit has LOGSIZE entries to write. */
  lemma FullCommit(l: L.Layout, base: L.Disk, d: L.Disk, v: L.Block) returns (es: seq<L.Step>)
    requires R.InitOk(l, base, d) && L.HeadN(d[l.start]) == 0 && LogEnough(l)
    ensures R.IsRun(l, R.Boot(d), es) && R.Behaved(l, R.Boot(d), es)
    ensures var s := R.End(l, R.Boot(d), es); s.pc == L.WritingLog(0) && |s.lh| == L.LOGSIZE
  {
    hide R.InitOk, R.IsRun, R.Behaved;
    es := R.Fill(l, base, d, L.LOGSIZE, v);
    var s := R.End(l, R.Boot(d), es);
    R.BootInv(l, base, d);
    R.RunKeeps(l, base, R.Boot(d), es);
    R.InvSized(l, base, s);
    var rs := EndAll(l, s);
    R.RunConcat(l, R.Boot(d), es, rs);
    R.BehavedConcat(l, R.Boot(d), es, rs);
    es := es + rs;
  }

  ghost predicate LogEnough(l: L.Layout) {
    L.LOGSIZE < l.size && l.start + l.size + L.LOGSIZE <= l.total
  }

  /** The three calls end. */
  lemma EndAll(l: L.Layout, s: L.State) returns (rs: seq<L.Step>)
    requires L.WellSized(l, s) && R.Filled(l, s, L.LOGSIZE)
    ensures R.IsRun(l, s, rs) && R.Behaved(l, s, rs)
    ensures var t := R.End(l, s, rs); t.pc == L.WritingLog(0) && t.lh == s.lh
  {
    rs := [L.EndOp(0), L.EndOp(0), L.EndOp(0)];
    var s1 := L.Apply(l, s, L.EndOp(0));
    var s2 := L.Apply(l, s1, L.EndOp(0));
    var s3 := L.Apply(l, s2, L.EndOp(0));
    assert rs[1..][1..] == [L.EndOp(0)] && [L.EndOp(0)][1..] == [];
    assert R.IsRun(l, s2, [L.EndOp(0)]) && R.End(l, s2, [L.EndOp(0)]) == s3 && R.Behaved(l, s2, [L.EndOp(0)]);
    assert R.IsRun(l, s1, rs[1..]) && R.End(l, s1, rs[1..]) == s3 && R.Behaved(l, s1, rs[1..]);
  }

  /**
   A commit always starts with a buffer to spare exactly in a log area of at most LOGSIZE blocks,
   as mkfs makes it. These are the areas in which a new block within its reservation can panic
   log_write: no size serves both.
   */
  lemma CommitRoomIff(l: L.Layout, base: L.Disk, d: L.Disk)
    requires R.InitOk(l, base, d) && L.HeadN(d[l.start]) == 0 && l.start + l.size + L.LOGSIZE <= l.total
    ensures CommitRoom(l, d) <==> l.size <= L.LOGSIZE
    ensures CommitRoom(l, d) <==> !R.NewBlocksSafe(l, d)
  {
    R.NewBlocksSafeIff(l, base, d);
    hide R.NewBlocksSafe, R.IsRun;
    if l.size <= L.LOGSIZE {
      R.BootInv(l, base, d);
      forall es | R.IsRun(l, R.Boot(d), es) ensures |R.End(l, R.Boot(d), es).lh| < NBUF {
        R.RunKeeps(l, base, R.Boot(d), es);
        R.InvSized(l, base, R.End(l, R.Boot(d), es));
      }
    } else {
      var es := FullCommit(l, base, d, d[l.start]);
    }
  }
}
