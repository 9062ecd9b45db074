/**
 Every sequence of reads, writes and truncations against a plain model: each file is a
 sequence of bytes, and no operation on one file shows in another.
 */
module FsRuns {
  import opened Counting
  import opened Ownership
  import opened FsState
  import opened DiskSpace
  import opened FileSystem

  type Files = seq<seq<nat>>

  datatype Op = Write(i: nat, off: nat, src: seq<nat>) | Read(i: nat, off: nat, n: nat) | Trunc(i: nat)

  predicate OpOk(op: Op, count: nat) {
    && op.i < count
    && (op.Write? ==> op.off < WORD && |op.src| < WORD)
    && (op.Read? ==> op.off < WORD && op.n < WORD)
  }

  /** What the operation does to the byte sequences. */
  ghost function Spec(files: Files, op: Op): (r: Files)
    requires OpOk(op, |files|)
    ensures |r| == |files|
  {
    match op
    case Write(i, off, src) =>
      if Refused(|files[i]|, off, |src|) then files
      else files[i := Overlay(files[i], off, src)]
    case Read(_, _, _) => files
    case Trunc(i) => files[i := []]
  }

  /** What the caller gets: the count or -1, and the bytes read. */
  datatype Reply = Reply(r: int, bytes: seq<nat>)

  ghost function Answer(files: Files, op: Op): Reply
    requires OpOk(op, |files|)
  {
    match op
    case Write(i, off, src) =>
      Reply(if Refused(|files[i]|, off, |src|) then -1 else |src|, [])
    case Read(i, off, n) =>
      if off > |files[i]| || (off + n) % WORD < off then Reply(-1, [])
      else var bytes := files[i][off..Min(off + n, |files[i]|)]; Reply(|bytes|, bytes)
    case Trunc(_) => Reply(0, [])
  }

  ghost function SpecRun(files: Files, ops: seq<Op>): (r: Files)
    requires forall k :: 0 <= k < |ops| ==> OpOk(ops[k], |files|)
    ensures |r| == |files|
  {
    if ops == [] then files else Spec(SpecRun(files, ops[..|ops| - 1]), ops[|ops| - 1])
  }

  /** The disk holds exactly these files. */
  ghost predicate Stores(l: Layout, s: Fs, files: Files) {
    && Ok(l, s) && |files| == |s.inodes|
    && forall i: nat :: i < |files| ==> HoleFree(l, s, i) && Contents(l, s, i) == files[i]
  }

  lemma StoresSize(l: Layout, s: Fs, files: Files, i: nat)
    requires Stores(l, s, files) && i < |files|
    ensures HoleFree(l, s, i) && s.inodes[i].size == |files[i]|
  {
    hide Owned, Tab;
    ContentsSize(l, s, i);
  }

  /** What an operation may log: a write its file blocks, a truncation the bitmap and its inode. */
  ghost predicate LogsFor(l: Layout, s: Fs, op: Op, before: set<nat>, now: set<nat>)
    requires Wf(l, s) && op.i < |s.inodes|
  {
    match op
    case Write(i, off, src) =>
      now == before || (src != [] && LogsOnly(l, s, i, off / BSIZE, (off + |src| - 1) / BSIZE + 1, before, now))
    case Read(_, _, _) => now == before
    case Trunc(i) => MapOnly(l, before + {IBlock(l, i)}, now)
  }

  /** There are blocks enough for the operation. */
  ghost predicate Enough(l: Layout, s: Fs, op: Op)
    requires Wf(l, s) && op.i < |s.inodes|
  {
    op.Write? ==> Refused(s.inodes[op.i].size, op.off, |op.src|) || Room(l, s, op.i, op.off, |op.src|)
  }

  method Step(fs: Device, op: Op, ghost files: Files) returns (ok: bool, reply: Reply)
    requires Stores(fs.l, fs.Abs(), files) && OpOk(op, |files|)
    modifies fs
    ensures ok ==> Stores(fs.l, fs.Abs(), Spec(files, op)) && reply == Answer(files, op)
    ensures ok ==> Covers(fs.l, old(fs.Abs()), fs.Abs(), -1, fs.logged) && old(fs.logged) <= fs.logged
    ensures ok ==> LogsFor(fs.l, fs.Abs(), op, old(fs.logged), fs.logged)
    ensures ok <==> Enough(fs.l, old(fs.Abs()), op)
    ensures !ok ==> DiskFull(fs.l, fs.bits)
  {
    hide Owned, Tab, SlotVal, HoleFree, Contents, Overlay, LogsOnly, Bit, Covers, IsMapBlock, Room, Drew, Lacking;
    ghost var s, l := fs.Abs(), fs.l;
    CoversSame(l, s, -1, fs.logged);
    StoresSize(l, s, files, op.i);
    match op
    case Write(i, off, src) =>
      var r;
      ok, r := fs.Writei(i, src, off);
      reply := Reply(r, []);
      if ok && r != -1 {
        forall j: nat | j < |files| && j != i ensures HoleFree(l, fs.Abs(), j) && Contents(l, fs.Abs(), j) == files[j] {
          assert SameFile(l, s, fs.Abs(), j);
        }
      }
    case Read(i, off, n) =>
      var r, dst := fs.Readi(i, off, n);
      reply := Reply(r, dst);
      ok := true;
    case Trunc(i) =>
      ok := fs.Itrunc(i);
      reply := Reply(0, []);
      EmptyFile(l, fs.Abs(), i);
      forall j: nat | j < |files| && j != i ensures HoleFree(l, fs.Abs(), j) && Contents(l, fs.Abs(), j) == files[j] {
        assert SameFile(l, s, fs.Abs(), j);
      }
  }

  lemma EmptyFile(l: Layout, s: Fs, i: nat)
    requires Wf(l, s) && i < |s.inodes| && s.inodes[i].size == 0
    ensures HoleFree(l, s, i) && Contents(l, s, i) == []
  {
  }

  /**
   A whole run: unless the disk fills up, it ends with the files the plain model has and its callers got its
   answers.
   */
  method Run(fs: Device, ops: seq<Op>, ghost files: Files) returns (ok: bool, replies: seq<Reply>)
    requires Stores(fs.l, fs.Abs(), files) && forall k :: 0 <= k < |ops| ==> OpOk(ops[k], |files|)
    modifies fs
    ensures ok ==> Stores(fs.l, fs.Abs(), SpecRun(files, ops))
    ensures if ok then |replies| == |ops| else |replies| < |ops|
    ensures forall k :: 0 <= k < |replies| ==> replies[k] == Answer(SpecRun(files, ops[..k]), ops[k])
    ensures !ok ==> DiskFull(fs.l, fs.bits)
  {
    hide Stores, Spec, DiskFull, Answer, Enough;
    ok, replies := true, [];
    for k := 0 to |ops|
      invariant ok && Stores(fs.l, fs.Abs(), SpecRun(files, ops[..k])) && |replies| == k
      invariant forall j :: 0 <= j < k ==> replies[j] == Answer(SpecRun(files, ops[..j]), ops[j])
    {
      assert ops[..k + 1][..k] == ops[..k];
      var reply;
      ok, reply := Step(fs, ops[k], SpecRun(files, ops[..k]));
      if !ok {
        return;
      }
      replies := replies + [reply];
    }
    assert ops[..|ops|] == ops;
  }
}
