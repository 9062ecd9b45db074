/**
 File operations as log transactions. System calls begin and end as they please, as many at a time as
 begin_op admits. Between the two, each operation changes blocks in the cache and passes every block it
 changed to log_write; the last call to end commits all of them as one group. Whenever the machine
 stops, recovery leaves a disk that holds the files as they were after a whole number of operations:
 all those of the groups whose commit had ended, and perhaps of the one being committed.
 */
module Transactions {
  import opened Counting
  import opened Ownership
  import opened FsState
  import opened FileSystem
  import opened FileWrite
  import opened FsRuns
  import opened DiskImage
  import L = LogProtocol
  import R = LogRuns
  import Log

  /** One call of filewrite's loop, or a read, or a truncation. */
  predicate Small(op: Op) {
    op.Write? ==> |op.src| <= CHUNK
  }

  /** An operation logs at most MAXOPBLOCKS blocks. */
  lemma FewBlocks(l: Layout, s: Fs, op: Op, logged: set<nat>)
    requires Wf(l, s) && op.i < |s.inodes| && l.size <= BPB && Small(op) && LogsFor(l, s, op, {}, logged)
    ensures |logged| <= MAXOPBLOCKS
  {
    hide SlotVal, LogsOnly;
    match op
    case Write(i, off, src) =>
      if logged != {} {
        ChunkBlocks(off, |src|);
        LogBudget(l, s, i, off / BSIZE, (off + |src| - 1) / BSIZE + 1, logged);
      }
    case Read(_, _, _) =>
    case Trunc(i) =>
      var two := {l.bmapstart, IBlock(l, i)};
      forall b | b in logged ensures b in two {
        if IsMapBlock(l, b) {
          OneMapBlock(l, b);
        }
      }
      SubsetSize(logged, two);
  }

  lemma MapBlockHome(ll: L.Layout, l: Layout, s: Fs, b: nat)
    requires Wf(l, s) && Placed(ll, l, s) && IsMapBlock(l, b)
    ensures ll.Home(b)
  {
    var c: nat :| c < l.size && b == BBlock(l, c);
    assert c / BPB < MapBlocks(s);
    assert InMap(l, s, b);
  }

  lemma InodeBlockHome(ll: L.Layout, l: Layout, s: Fs, i: nat)
    requires Wf(l, s) && Placed(ll, l, s) && i < |s.inodes|
    ensures ll.Home(IBlock(l, i))
  {
    assert InInodes(l, s, IBlock(l, i));
  }

  /** What an operation logs lies outside the log. */
  lemma LoggedHome(ll: L.Layout, l: Layout, s: Fs, op: Op, logged: set<nat>, b: nat)
    requires Ok(l, s) && Placed(ll, l, s) && op.i < |s.inodes| && LogsFor(l, s, op, {}, logged) && b in logged
    ensures ll.Home(b)
  {
    hide Owned, Tab, SlotVal, IsMapBlock, IBlock, Placed;
    InodeBlockHome(ll, l, s, op.i);
    if IsMapBlock(l, b) {
      MapBlockHome(ll, l, s, b);
    } else if b != IBlock(l, op.i) {
      assert op.Write?;
      DataBlockHome(ll, l, s, op.i, op.off / BSIZE, (op.off + |op.src| - 1) / BSIZE + 1, b);
    }
  }

  lemma DataBlockHome(ll: L.Layout, l: Layout, s: Fs, i: nat, lo: nat, hi: nat, b: nat)
    requires Ok(l, s) && Placed(ll, l, s) && i < |s.inodes| && Touches(l, s, i, lo, hi, b) && !IsMapBlock(l, b)
    ensures ll.Home(b)
  {
    hide Owned, Tab, IsMapBlock, Bit, WordAt;
    if b == s.inodes[i].addrs[NDIRECT] {
      SlotInData(l, s, i, NDIRECT);
    } else {
      var bn: nat :| lo <= bn < hi && bn < MAXFILE && b == BlockOf(l, s, i, bn);
      SlotInData(l, s, i, SlotOf(bn));
    }
  }

  // What the log has made of the disk.

  /** With the groups `done` applied, the disk holds state `s`. */
  ghost predicate Shows(ll: L.Layout, base: L.Disk, done: seq<map<int, L.Block>>, l: Layout, s: Fs) {
    && |base| == |s.disk| == ll.total
    && forall b :: ll.Home(b) ==> L.Value(base, done, b) == Image(l, s, b)
  }

  /** One group more: the blocks logged, with their new contents. */
  lemma ShowsNext(ll: L.Layout, base: L.Disk, done: seq<map<int, L.Block>>, l: Layout, s: Fs, t: Fs, logged: set<nat>,
                  group: map<int, L.Block>)
    requires Shows(ll, base, done, l, s) && Covers(l, s, t, -1, logged)
    requires (forall b :: b in group <==> b in logged)
    requires (forall b :: b in group ==> ll.Home(b) && 0 <= b < |t.disk| && group[b] == Image(l, t, b))
    ensures Shows(ll, base, done + [group], l, t) && (logged == {} ==> Shows(ll, base, done, l, t))
  {
    hide Image, Covers;
    CoversSizes(l, s, t, logged);
    var done' := done + [group];
    assert done'[..|done|] == done && done'[|done|] == group;
    forall b | ll.Home(b)
      ensures L.Value(base, done', b) == Image(l, t, b) && (logged == {} ==> L.Value(base, done, b) == Image(l, t, b))
    {
      if b !in group {
        Unlogged(l, s, t, logged, b);
      }
    }
  }

  lemma CoversSizes(l: Layout, s: Fs, t: Fs, logged: set<nat>)
    requires Covers(l, s, t, -1, logged)
    ensures |t.disk| == |s.disk| && |t.bits| == |s.bits| && |t.inodes| == |s.inodes|
  {
  }

  // The history of a server.

  /** A point where nobody was in a system call: the log's steps and groups, the operations done, and the state. */
  datatype Mark = Mark(steps: nat, groups: nat, count: nat, state: Fs)

  /** At mark `m`, the groups show the state that holds the files after `m.count` operations. */
  ghost predicate MarkOk(ll: L.Layout, base: L.Disk, s0: L.State, steps: seq<L.Step>, l: Layout, files: Files,
                         ops: seq<Op>, m: Mark)
    requires AllOk(ops, |files|)
  {
    && m.steps <= |steps| && m.count <= |ops| && R.IsRun(ll, s0, steps[..m.steps])
    && |R.End(ll, s0, steps[..m.steps]).done| == m.groups
    && Shows(ll, base, R.End(ll, s0, steps[..m.steps]).done, l, m.state)
    && Placed(ll, l, m.state) && Stores(l, m.state, SpecRun(files, ops[..m.count]))
  }

  predicate AllOk(ops: seq<Op>, count: nat) { forall k :: 0 <= k < |ops| ==> OpOk(ops[k], count) }

  /** From one mark to the next there is at most one group more. */
  ghost predicate History(ll: L.Layout, base: L.Disk, s0: L.State, steps: seq<L.Step>, l: Layout, files: Files,
                          ops: seq<Op>, marks: seq<Mark>)
  {
    && marks != [] && R.IsRun(ll, s0, steps) && L.Inv(ll, base, s0) && AllOk(ops, |files|)
    && (forall j :: 0 <= j < |marks| ==> MarkOk(ll, base, s0, steps, l, files, ops, marks[j]))
    && (forall j :: 0 <= j < |marks| - 1 ==> Follows(marks[j], marks[j + 1]))
  }

  predicate Follows(m: Mark, n: Mark) {
    m.steps <= n.steps && m.count <= n.count && m.groups <= n.groups <= m.groups + 1
  }

  lemma PrefixRun(ll: L.Layout, s0: L.State, steps: seq<L.Step>, a: nat, b: nat)
    requires R.IsRun(ll, s0, steps) && a <= b <= |steps|
    ensures R.IsRun(ll, s0, steps[..a]) && R.IsRun(ll, s0, steps[..b])
    ensures R.End(ll, s0, steps[..a]).done <= R.End(ll, s0, steps[..b]).done
  {
    hide R.IsRun;
    RunCut(ll, s0, steps, b);
    RunCut(ll, s0, steps[..b], a);
    var es, rs := steps[..a], steps[a..b];
    assert steps[..b][..a] == es && es + rs == steps[..b];
    R.RunConcat(ll, s0, es, rs);
    R.HistoryIsGroups(ll, R.End(ll, s0, es), rs);
  }

  lemma {:induction false} RunCut(ll: L.Layout, s: L.State, es: seq<L.Step>, k: nat)
    requires R.IsRun(ll, s, es) && k <= |es|
    ensures R.IsRun(ll, s, es[..k])
    decreases k
  {
    hide L.Apply, L.Enabled, L.WellSized;
    if k > 0 {
      assert es[..k][0] == es[0] && es[..k][1..] == es[1..][..k - 1];
      RunCut(ll, L.Apply(ll, s, es[0]), es[1..], k - 1);
    }
  }

  /** Outside the log, disk `d` holds state `s`. */
  ghost predicate HoldsState(ll: L.Layout, d: L.Disk, l: Layout, s: Fs) {
    && |d| == |s.disk| == ll.total
    && forall b :: ll.Home(b) ==> d[b] == Image(l, s, b)
  }

  /** The last mark at or before step `m`. */
  lemma LastMark(marks: seq<Mark>, m: nat) returns (c: nat)
    requires marks != [] && marks[0].steps <= m
    requires forall j :: 0 <= j < |marks| - 1 ==> marks[j].steps <= marks[j + 1].steps
    ensures c < |marks| && marks[c].steps <= m && (c + 1 < |marks| ==> m < marks[c + 1].steps)
    ensures forall j :: c < j < |marks| ==> m < marks[j].steps
  {
    c := 0;
    while c + 1 < |marks| && marks[c + 1].steps <= m
      invariant c < |marks| && marks[c].steps <= m
    {
      c := c + 1;
    }
    var j := c + 1;
    while j < |marks|
      invariant c < j && (c + 1 < |marks| ==> j <= |marks|) && forall i :: c < i < j && i < |marks| ==>
                  m < marks[i].steps
    {
      assert j == c + 1 || marks[j - 1].steps <= marks[j].steps;
      j := j + 1;
    }
  }

  /** Between two marks, the groups are those of the one or of the other. */
  lemma GroupsBetween(ll: L.Layout, s0: L.State, steps: seq<L.Step>, a: nat, m: nat, b: nat)
    requires R.IsRun(ll, s0, steps) && a <= m <= b <= |steps|
    ensures R.IsRun(ll, s0, steps[..a]) && R.IsRun(ll, s0, steps[..m]) && R.IsRun(ll, s0, steps[..b])
    ensures var x, y := R.End(ll, s0, steps[..a]).done, R.End(ll, s0, steps[..m]).done;
            var z := R.End(ll, s0, steps[..b]).done;
            |z| <= |x| + 1 ==> y == x || y == z
  {
    hide R.IsRun;
    PrefixRun(ll, s0, steps, a, m);
    PrefixRun(ll, s0, steps, m, b);
  }

  /**
   Stop the machine after any `m` steps of the log and let recovery finish, itself interrupted or
   not: the disk holds the files as they were at mark `c`, after a whole number of operations. No
   later mark had been reached, and none but perhaps this one was still to come.
   */
  lemma CrashSafe(ll: L.Layout, base: L.Disk, s0: L.State, steps: seq<L.Step>, l: Layout, files: Files, ops: seq<Op>,
                  marks: seq<Mark>, m: nat, rs: seq<L.Step>) returns (c: nat)
    requires History(ll, base, s0, steps, l, files, ops, marks)
    requires marks[0].steps <= m <= |steps| && R.IsRun(ll, s0, steps[..m])
    requires m <= marks[|marks| - 1].steps || |R.End(ll, s0, steps[..m]).done| == marks[|marks| - 1].groups
    requires var s := R.End(ll, s0, steps[..m]); R.IsRun(ll, L.Rebooted(s), rs) && R.End(ll, L.Rebooted(s), rs).pc.Idle?
    requires forall i :: 0 <= i < |rs| ==> R.RecoveryStep(rs[i])
    ensures c < |marks| && marks[c].count <= |ops| && Placed(ll, l, marks[c].state)
    ensures Stores(l, marks[c].state, SpecRun(files, ops[..marks[c].count]))
    ensures HoldsState(ll, R.End(ll, L.Rebooted(R.End(ll, s0, steps[..m])), rs).disk, l, marks[c].state)
    ensures forall j :: 0 <= j < |marks| && marks[j].steps <= m ==> j <= c
    ensures c > 0 ==> marks[c - 1].steps <= m
  {
    hide R.IsRun, MarkOk, L.Inv, Image, Stores, SpecRun, R.HomeIs, L.Value, Spec, Placed, OpOk;
    var s := R.End(ll, s0, steps[..m]);
    R.RunKeeps(ll, base, s0, steps[..m]);
    R.RecoveredHome(ll, base, s, rs);
    var d := R.End(ll, L.Rebooted(s), rs).disk;
    var a := LastMark(marks, m);
    MarkFacts(ll, base, s0, steps, l, files, ops, marks[a]);
    if a + 1 < |marks| {
      MarkFacts(ll, base, s0, steps, l, files, ops, marks[a + 1]);
      assert Follows(marks[a], marks[a + 1]);
      GroupsBetween(ll, s0, steps, marks[a].steps, m, marks[a + 1].steps);
      c := if s.done == R.End(ll, s0, steps[..marks[a].steps]).done then a else a + 1;
    } else {
      PrefixRun(ll, s0, steps, marks[a].steps, m);
      assert s.done == R.End(ll, s0, steps[..marks[a].steps]).done;
      c := a;
    }
    ShownIsHeld(ll, base, s.done, l, marks[c].state, d);
  }

  lemma MarkFacts(ll: L.Layout, base: L.Disk, s0: L.State, steps: seq<L.Step>, l: Layout, files: Files, ops: seq<Op>,
                  m: Mark)
    requires AllOk(ops, |files|) && MarkOk(ll, base, s0, steps, l, files, ops, m)
    ensures m.steps <= |steps| && m.count <= |ops| && R.IsRun(ll, s0, steps[..m.steps])
    ensures |R.End(ll, s0, steps[..m.steps]).done| == m.groups
    ensures Shows(ll, base, R.End(ll, s0, steps[..m.steps]).done, l, m.state)
    ensures Placed(ll, l, m.state) && Stores(l, m.state, SpecRun(files, ops[..m.count]))
  {
    hide R.IsRun, Shows, Placed, Stores, SpecRun;
  }

  lemma ShownIsHeld(ll: L.Layout, base: L.Disk, done: seq<map<int, L.Block>>, l: Layout, s: Fs, d: L.Disk)
    requires Shows(ll, base, done, l, s) && R.HomeIs(ll, d, base, done)
    ensures HoldsState(ll, d, l, s)
  {
    hide Image, L.Value;
  }

  // Whoever reads the disk that recovery leaves reads these files.

  ghost predicate SameDisk(l: Layout, s: Fs, t: Fs) {
    && Wf(l, s) && Wf(l, t) && t.bits == s.bits && t.inodes == s.inodes
    && forall b :: l.first <= b < l.size ==> t.disk[b] == s.disk[b]
  }

  lemma SameSlot(l: Layout, s: Fs, t: Fs, i: nat, k: nat)
    requires Ok(l, s) && SameDisk(l, s, t) && i < |s.inodes| && k < NSLOTS
    ensures SlotVal(l, t, i, k) == SlotVal(l, s, i, k)
  {
    hide Owned, Tab;
    if s.inodes[i].addrs[NDIRECT] != 0 {
      SlotInData(l, s, i, NDIRECT);
    }
  }

  lemma SameTab(l: Layout, s: Fs, t: Fs)
    requires Ok(l, s) && SameDisk(l, s, t)
    ensures Tab(l, t) == Tab(l, s) && Ok(l, t)
  {
    hide Owned, SlotVal;
    forall i: nat | i < |s.inodes| ensures Row(l, t, i) == Row(l, s, i) {
      forall k: nat | k < NSLOTS ensures SlotVal(l, t, i, k) == SlotVal(l, s, i, k) {
        SameSlot(l, s, t, i, k);
      }
    }
  }

  lemma SameByte(l: Layout, s: Fs, t: Fs, i: nat, x: nat)
    requires Ok(l, s) && Ok(l, t) && SameDisk(l, s, t) && i < |s.inodes| && Mapped(l, s, i, x)
    ensures Mapped(l, t, i, x) && ByteAt(l, t, i, x) == ByteAt(l, s, i, x)
  {
    hide Owned, Tab, SlotVal;
    SameSlot(l, s, t, i, SlotOf(x / BSIZE));
    MappedIff(l, s, i, x);
    MappedIff(l, t, i, x);
    SlotInData(l, s, i, SlotOf(x / BSIZE));
  }

  lemma SameContents(l: Layout, s: Fs, t: Fs, i: nat)
    requires Ok(l, s) && Ok(l, t) && SameDisk(l, s, t) && i < |s.inodes| && HoleFree(l, s, i)
    ensures HoleFree(l, t, i) && Contents(l, t, i) == Contents(l, s, i)
  {
    hide Ok, Mapped, ByteAt;
    forall x: nat | x < s.inodes[i].size ensures Mapped(l, t, i, x) && ByteAt(l, t, i, x) == ByteAt(l, s, i, x) {
      SameByte(l, s, t, i, x);
    }
  }

  /** Any well-formed reading of a disk that holds state `s` has the files of `s`. */
  lemma DiskHasFiles(ll: L.Layout, d: L.Disk, l: Layout, s: Fs, t: Fs, files: Files)
    requires HoldsState(ll, d, l, s) && HoldsState(ll, d, l, t) && Stores(l, s, files) && Placed(ll, l, s)
    requires Wf(l, t) && |t.bits| == |s.bits| && |t.inodes| == |s.inodes|
    ensures Stores(l, t, files)
  {
    hide Image, Owned, Tab, HoleFree, Contents, Placed;
    ImageDetermines(ll, l, s, t);
    SameTab(l, s, t);
    forall i: nat | i < |files| ensures HoleFree(l, t, i) && Contents(l, t, i) == files[i] {
      SameContents(l, s, t, i);
    }
  }

  // Between two marks.

  /** The blocks `did` have gone into the log, with the contents they have in state `t`. */
  ghost predicate Logging(ll: L.Layout, s: L.State, l: Layout, t: Fs, did: set<nat>) {
    && s.pc.Idle?
    && (forall b :: b in s.pend <==> b in did)
    && (forall b :: b in s.pend ==> ll.Home(b) && 0 <= b < |t.disk| && s.pend[b] == Image(l, t, b))
  }

  /** Blocks `did` hold what they have in state `t`; the others of the group are still to be logged. */
  ghost predicate Halfway(ll: L.Layout, s0: L.State, s: L.State, l: Layout, t: Fs, did: set<nat>) {
    && s.pc.Idle? && s.done == s0.done && |s.ops| == |s0.ops| && |s.lh| <= |s0.lh| + |did|
    && (forall b :: b in s.pend <==> b in s0.pend || b in did)
    && (forall b :: b in did ==> ll.Home(b) && 0 <= b < |t.disk| && b in s.pend && s.pend[b] == Image(l, t, b))
    && (forall b :: b in s0.pend && b !in did ==> b in s.pend && s.pend[b] == s0.pend[b])
  }

  lemma HalfwayMore(ll: L.Layout, s0: L.State, s: L.State, l: Layout, t: Fs, did: set<nat>, i: nat, b: nat)
    requires L.WellSized(ll, s) && Halfway(ll, s0, s, l, t, did) && b !in did && b < |t.disk| && ll.Home(b)
    requires i < |s.ops| && !L.TooBig(ll, s)
    ensures L.Enabled(ll, s, L.LogWrite(i, b, Image(l, t, b)))
    ensures Halfway(ll, s0, L.Apply(ll, s, L.LogWrite(i, b, Image(l, t, b))), l, t, did + {b})
  {
    hide Image;
    assert |did + {b}| == |did| + 1;
  }

  /** All blocks an operation logged: the group has the contents of the new state. */
  lemma HalfwayDone(ll: L.Layout, s0: L.State, s: L.State, l: Layout, was: Fs, now: Fs, did: set<nat>, logged: set<nat>)
    requires Logging(ll, s0, l, was, did) && Halfway(ll, s0, s, l, now, logged) && Covers(l, was, now, -1, logged)
    ensures Logging(ll, s, l, now, did + logged)
  {
    hide Image, Covers;
    CoversSizes(l, was, now, logged);
    forall b | b in s.pend ensures ll.Home(b) && 0 <= b < |now.disk| && s.pend[b] == Image(l, now, b) {
      if b !in logged {
        Unlogged(l, was, now, logged, b);
      }
    }
  }

  lemma HomeInDisk(ll: L.Layout, l: Layout, s: Fs, b: nat)
    requires Ok(l, s) && Placed(ll, l, s) && ll.Home(b)
    ensures b < |s.disk|
  {
    hide Owned;
  }

  lemma MarkStays(ll: L.Layout, base: L.Disk, s0: L.State, steps: seq<L.Step>, steps': seq<L.Step>, l: Layout,
                  files: Files, ops: seq<Op>, ops': seq<Op>, m: Mark)
    requires AllOk(ops', |files|) && ops <= ops' && AllOk(ops, |files|) && steps <= steps'
    requires MarkOk(ll, base, s0, steps, l, files, ops, m)
    ensures MarkOk(ll, base, s0, steps', l, files, ops', m)
  {
    hide R.IsRun, Stores, Shows, SpecRun, Placed;
    assert steps'[..m.steps] == steps[..m.steps] && ops'[..m.count] == ops[..m.count];
  }

  /** The log went on, and so did the operations. */
  lemma HistoryStays(ll: L.Layout, base: L.Disk, s0: L.State, steps: seq<L.Step>, steps': seq<L.Step>, l: Layout,
                     files: Files, ops: seq<Op>, ops': seq<Op>, marks: seq<Mark>)
    requires History(ll, base, s0, steps, l, files, ops, marks) && AllOk(ops', |files|)
    requires steps <= steps' && ops <= ops' && R.IsRun(ll, s0, steps')
    ensures History(ll, base, s0, steps', l, files, ops', marks)
  {
    hide MarkOk, R.IsRun, L.Inv, OpOk;
    forall j | 0 <= j < |marks| ensures MarkOk(ll, base, s0, steps', l, files, ops', marks[j]) {
      MarkStays(ll, base, s0, steps, steps', l, files, ops, ops', marks[j]);
    }
  }

  /** The last call has ended. */
  lemma HistoryMore(ll: L.Layout, base: L.Disk, s0: L.State, steps: seq<L.Step>, l: Layout, files: Files, ops: seq<Op>,
                    marks: seq<Mark>, now: Fs)
    requires History(ll, base, s0, steps, l, files, ops, marks)
    requires var s := R.End(ll, s0, steps);
             var last := marks[|marks| - 1];
             && Shows(ll, base, s.done, l, now) && Placed(ll, l, now) && Stores(l, now, SpecRun(files, ops))
             && last.groups <= |s.done| <= last.groups + 1
    ensures History(ll, base, s0, steps, l, files, ops,
                    marks + [Mark(|steps|, |R.End(ll, s0, steps).done|, |ops|, now)])
  {
    hide MarkOk, R.IsRun, L.Inv, OpOk, Shows, Placed, Stores, SpecRun;
    var m := Mark(|steps|, |R.End(ll, s0, steps).done|, |ops|, now);
    NewMark(ll, base, s0, steps, l, files, ops, now);
    MarkFacts(ll, base, s0, steps, l, files, ops, marks[|marks| - 1]);
    var marks' := marks + [m];
    forall j | 0 <= j < |marks'| - 1 ensures Follows(marks'[j], marks'[j + 1]) {
      assert j < |marks| - 1 ==> Follows(marks[j], marks[j + 1]);
    }
  }

  lemma NewMark(ll: L.Layout, base: L.Disk, s0: L.State, steps: seq<L.Step>, l: Layout, files: Files, ops: seq<Op>,
                now: Fs)
    requires R.IsRun(ll, s0, steps) && AllOk(ops, |files|) && Placed(ll, l, now)
    requires Shows(ll, base, R.End(ll, s0, steps).done, l, now) && Stores(l, now, SpecRun(files, ops))
    ensures MarkOk(ll, base, s0, steps, l, files, ops, Mark(|steps|, |R.End(ll, s0, steps).done|, |ops|, now))
  {
    hide R.IsRun, Stores, Shows, SpecRun, Placed;
    assert steps[..|steps|] == steps && ops[..|ops|] == ops;
  }

  lemma PlacedStays(ll: L.Layout, l: Layout, s: Fs, t: Fs, logged: set<nat>)
    requires Placed(ll, l, s) && Covers(l, s, t, -1, logged)
    ensures Placed(ll, l, t)
  {
    CoversSizes(l, s, t, logged);
    hide Covers;
    assert MapBlocks(t) == MapBlocks(s) && InodeBlocks(t) == InodeBlocks(s);
    assert forall b :: (InMap(l, t, b) <==> InMap(l, s, b)) && (InInodes(l, t, b) <==> InInodes(l, s, b));
  }

  lemma SpecRunMore(files: Files, ops: seq<Op>, op: Op)
    requires AllOk(ops, |files|) && OpOk(op, |files|)
    ensures SpecRun(files, ops + [op]) == Spec(SpecRun(files, ops), op)
  {
    hide Spec;
    assert (ops + [op])[..|ops|] == ops;
  }

  /** What end_op makes of the group. */
  lemma Committed(ll: L.Layout, base: L.Disk, s: L.State, done: seq<map<int, L.Block>>, l: Layout, was: Fs, now: Fs,
                  did: set<nat>)
    requires L.Inv(ll, base, s) && Logging(ll, s, l, now, did) && Shows(ll, base, s.done, l, was)
    requires Covers(l, was, now, -1, did)
    requires done == if |s.lh| > 0 then s.done + [s.pend] else s.done
    ensures Shows(ll, base, done, l, now)
  {
    hide Image, Shows, Covers;
    ShowsNext(ll, base, s.done, l, was, now, did, s.pend);
    if s.lh == [] {
      NoneLogged(ll, base, s);
      assert did == {};
    }
  }

  lemma NoneLogged(ll: L.Layout, base: L.Disk, s: L.State)
    requires L.Inv(ll, base, s) && s.pc.Idle? && s.lh == []
    ensures forall b :: b !in s.pend
  {
  }

  lemma StoresOk(l: Layout, s: Fs, files: Files)
    requires Stores(l, s, files)
    ensures Ok(l, s) && |s.inodes| == |files|
  {
  }

  /** Where a server stands: the last mark, and what has been logged since. */
  ghost predicate Serving(ll: L.Layout, base: L.Disk, s0: L.State, steps: seq<L.Step>, s: L.State, l: Layout, t: Fs,
                          files: Files, ops: seq<Op>, marks: seq<Mark>, did: set<nat>)
  {
    && L.Inv(ll, base, s) && R.IsRun(ll, s0, steps) && R.End(ll, s0, steps) == s
    && History(ll, base, s0, steps, l, files, ops, marks) && Stores(l, t, SpecRun(files, ops)) && Placed(ll, l, t)
    && var last := marks[|marks| - 1];
       && |s.done| == last.groups && Shows(ll, base, s.done, l, last.state) && Covers(l, last.state, t, -1, did)
       && Logging(ll, s, l, t, did)
  }

  lemma ServingFacts(ll: L.Layout, base: L.Disk, s0: L.State, steps: seq<L.Step>, s: L.State, l: Layout, t: Fs,
                     files: Files, ops: seq<Op>, marks: seq<Mark>, did: set<nat>)
    requires Serving(ll, base, s0, steps, s, l, t, files, ops, marks, did)
    ensures AllOk(ops, |files|) && Stores(l, t, SpecRun(files, ops)) && s.pc.Idle? && Ok(l, t) && |t.inodes| == |files|
    ensures Placed(ll, l, t) && History(ll, base, s0, steps, l, files, ops, marks) && marks != []
    ensures marks[|marks| - 1].groups == |s.done|
  {
    hide MarkOk, R.IsRun, L.Inv, OpOk, Shows, Covers, Stores, SpecRun, Placed;
    StoresOk(l, t, SpecRun(files, ops));
  }

  /** Nothing logged and nothing done: after begin_op, or after a call has left the others in theirs. */
  lemma ServingIdle(ll: L.Layout, base: L.Disk, s0: L.State, steps: seq<L.Step>, s: L.State, steps': seq<L.Step>,
                    s': L.State, l: Layout, t: Fs, files: Files, ops: seq<Op>, marks: seq<Mark>, did: set<nat>)
    requires Serving(ll, base, s0, steps, s, l, t, files, ops, marks, did) && steps <= steps'
    requires L.Inv(ll, base, s') && R.IsRun(ll, s0, steps') && R.End(ll, s0, steps') == s'
    requires s'.pc.Idle? && s'.done == s.done && s'.pend == s.pend
    ensures Serving(ll, base, s0, steps', s', l, t, files, ops, marks, did)
  {
    hide MarkOk, R.IsRun, L.Inv, OpOk, Shows, Covers, Stores, SpecRun, Placed, Image, History;
    HistoryOps(ll, base, s0, steps, l, files, ops, marks);
    HistoryStays(ll, base, s0, steps, steps', l, files, ops, ops, marks);
  }

  lemma HistoryOps(ll: L.Layout, base: L.Disk, s0: L.State, steps: seq<L.Step>, l: Layout, files: Files, ops: seq<Op>,
                   marks: seq<Mark>)
    requires History(ll, base, s0, steps, l, files, ops, marks)
    ensures AllOk(ops, |files|) && marks != []
  {
    hide MarkOk;
  }

  /** One operation more, all of its blocks logged. */
  lemma ServingMore(ll: L.Layout, base: L.Disk, s0: L.State, steps: seq<L.Step>, s: L.State, steps': seq<L.Step>,
                    s': L.State,
                    l: Layout, t: Fs, t': Fs, files: Files, ops: seq<Op>, op: Op, marks: seq<Mark>, did: set<nat>,
                    logged: set<nat>)
    requires Serving(ll, base, s0, steps, s, l, t, files, ops, marks, did) && steps <= steps' && OpOk(op, |files|)
    requires L.Inv(ll, base, s') && R.IsRun(ll, s0, steps') && R.End(ll, s0, steps') == s'
    requires AllOk(ops, |files|) && Stores(l, t', Spec(SpecRun(files, ops), op)) && Covers(l, t, t', -1, logged)
    requires Halfway(ll, s, s', l, t', logged)
    ensures AllOk(ops + [op], |files|)
    ensures Serving(ll, base, s0, steps', s', l, t', files, ops + [op], marks, did + logged)
  {
    hide MarkOk, R.IsRun, L.Inv, OpOk, Shows, Covers, Stores, Spec, SpecRun, Placed, Image, History, Halfway, Logging;
    HistoryOps(ll, base, s0, steps, l, files, ops, marks);
    assert AllOk(ops + [op], |files|);
    SpecRunMore(files, ops, op);
    HistoryStays(ll, base, s0, steps, steps', l, files, ops, ops + [op], marks);
    PlacedStays(ll, l, t, t', logged);
    HalfwayDone(ll, s, s', l, t, t', did, logged);
    HalfwayFacts(ll, s, s', l, t', logged);
    CoversMore(l, t, t', logged, did + logged);
    CoversTrans(l, marks[|marks| - 1].state, t, t', -1, did, did + logged);
  }

  lemma CoversMore(l: Layout, s: Fs, t: Fs, logged: set<nat>, more: set<nat>)
    requires Covers(l, s, t, -1, logged) && logged <= more
    ensures Covers(l, s, t, -1, more)
  {
    hide BBlock, IBlock;
  }

  lemma HalfwayFacts(ll: L.Layout, s0: L.State, s: L.State, l: Layout, t: Fs, did: set<nat>)
    requires Halfway(ll, s0, s, l, t, did)
    ensures s.pc.Idle? && s.done == s0.done && |s.ops| == |s0.ops| && |s.lh| <= |s0.lh| + |did|
  {
    hide Image;
  }

  /** The last call has ended and the group is committed. */
  lemma ServingCommitted(ll: L.Layout, base: L.Disk, s0: L.State, steps: seq<L.Step>, s: L.State, steps': seq<L.Step>,
                         s': L.State, l: Layout, t: Fs, files: Files, ops: seq<Op>, marks: seq<Mark>, did: set<nat>)
    requires Serving(ll, base, s0, steps, s, l, t, files, ops, marks, did) && steps <= steps'
    requires L.Inv(ll, base, s') && R.IsRun(ll, s0, steps') && R.End(ll, s0, steps') == s' && s'.pc.Idle? && s'.lh == []
    requires s'.done == if |s.lh| > 0 then s.done + [s.pend] else s.done
    ensures Serving(ll, base, s0, steps', s', l, t, files, ops, marks + [Mark(|steps'|, |s'.done|, |ops|, t)], {})
  {
    hide MarkOk, R.IsRun, L.Inv, OpOk, Shows, Covers, Stores, SpecRun, Placed, Image, History;
    HistoryOps(ll, base, s0, steps, l, files, ops, marks);
    HistoryStays(ll, base, s0, steps, steps', l, files, ops, ops, marks);
    Committed(ll, base, s, s'.done, l, marks[|marks| - 1].state, t, did);
    HistoryMore(ll, base, s0, steps', l, files, ops, marks, t);
    NoneLogged(ll, base, s');
    CoversSame(l, t, -1, {});
  }

  /** The log has room for `n` blocks more. */
  predicate Fits(ll: L.Layout, s: L.State, n: nat) { |s.lh| + n <= L.LOGSIZE && |s.lh| + n < ll.size }

  /** A file system over a log, and what it has done so far. */
  class Server {
    const fs: Device
    const log: Log.Device
    ghost const files: Files
    ghost var ops: seq<Op>
    ghost var marks: seq<Mark>
    ghost var did: set<nat>  // the blocks logged since the last mark

    ghost predicate Valid()
      reads this, fs, log, log.block
    {
      && log.Valid() && AllOk(ops, |files|)
      && Serving(log.l, log.base, log.s0, log.steps, log.s, fs.l, fs.Abs(), files, ops, marks, did)
    }

    /** The kernel panicked in an operation: nothing since the last mark has reached the disk. */
    ghost predicate Stopped()
      reads this, log, log.block
    {
      && log.Valid() && History(log.l, log.base, log.s0, log.steps, fs.l, files, ops, marks)
      && |log.s.done| == marks[|marks| - 1].groups
    }

    /** A disk without a log to replay, holding `files`. */
    constructor (fs: Device, log: Log.Device, ghost files: Files)
      requires log.Valid() && R.Quiet(log.l, log.s) && Placed(log.l, fs.l, fs.Abs())
      requires Stores(fs.l, fs.Abs(), files) && Shows(log.l, log.base, log.s.done, fs.l, fs.Abs())
      ensures Valid() && this.fs == fs && this.log == log && this.files == files && ops == []
    {
      this.fs, this.log, this.files := fs, log, files;
      ops, marks, did := [], [Mark(|log.steps|, |log.s.done|, 0, fs.Abs())], {};
      new;
      hide Stores, Shows, R.IsRun, L.Inv, Placed, Covers, MarkOk;
      NewMark(log.l, log.base, log.s0, log.steps, fs.l, files, [], fs.Abs());
      NoneLogged(log.l, log.base, log.s);
      CoversSame(fs.l, fs.Abs(), -1, {});
    }

    /** begin_op. */
    method Begin() returns (started: bool)
      requires Valid()
      modifies log
      ensures Valid() && log.block == old(log.block) && old(log.steps) <= log.steps
      ensures started <==> |old(log.s.lh)| + (|old(log.s.ops)| + 1) * MAXOPBLOCKS <= L.LOGSIZE
      ensures |log.s.ops| == |old(log.s.ops)| + (if started then 1 else 0) && log.s.lh == old(log.s.lh)
    {
      hide L.Inv, R.IsRun, Serving, AllOk;
      ghost var s, steps := log.s, log.steps;
      ServingFacts(log.l, log.base, log.s0, steps, s, fs.l, fs.Abs(), files, ops, marks, did);
      R.InvSized(log.l, log.base, s);
      started := log.BeginOp();
      if started {
        ServingIdle(log.l, log.base, log.s0, steps, s, log.steps, log.s, fs.l, fs.Abs(), files, ops, marks, did);
      }
    }

    /** Passes the blocks changed to log_write; !ok where it panics. */
    method LogAll(ghost i: nat, ghost op: Op) returns (ok: bool)
      requires log.Valid() && log.s.pc.Idle? && i < |log.s.ops|
      requires Ok(fs.l, fs.Abs()) && Placed(log.l, fs.l, fs.Abs()) && op.i < |fs.inodes|
      requires LogsFor(fs.l, fs.Abs(), op, {}, fs.logged)
      modifies log, log.block
      ensures log.Valid() && old(log.steps) <= log.steps && log.block == old(log.block)
      ensures log.s.done == old(log.s.done) && (ok ==> Halfway(log.l, old(log.s), log.s, fs.l, fs.Abs(), fs.logged))
      ensures !ok ==> L.TooBig(log.l, log.s)
      ensures Fits(log.l, old(log.s), |fs.logged|) ==> ok
    {
      hide Ok, Placed, LogsFor, L.Inv, R.IsRun, L.Apply, L.Enabled, L.WellSized, Image, Halfway;
      ghost var s0 := log.s;
      var todo := fs.logged;
      ghost var sofar: set<nat> := {};
      HalfwayNone(log.l, s0, fs.l, fs.Abs());
      while todo != {}
        invariant log.Valid() && todo !! sofar && todo + sofar == fs.logged && log.block == old(log.block)
        invariant Halfway(log.l, s0, log.s, fs.l, fs.Abs(), sofar) && old(log.steps) <= log.steps
        decreases |todo|
      {
        var b :| b in todo;
        LoggedHome(log.l, fs.l, fs.Abs(), op, fs.logged, b);
        HomeInDisk(log.l, fs.l, fs.Abs(), b);
        R.InvSized(log.l, log.base, log.s);
        HalfwayFacts(log.l, s0, log.s, fs.l, fs.Abs(), sofar);
        assert |sofar| < |fs.logged| by { SubsetSize(sofar + {b}, fs.logged); assert |sofar + {b}| == |sofar| + 1; }
        if !L.TooBig(log.l, log.s) {
          HalfwayMore(log.l, s0, log.s, fs.l, fs.Abs(), sofar, i, b);
        }
        ok := log.LogWrite(i, b, Image(fs.l, fs.Abs(), b));
        if !ok {
          return;
        }
        todo, sofar := todo - {b}, sofar + {b};
      }
      assert sofar == fs.logged;
      HalfwayFacts(log.l, s0, log.s, fs.l, fs.Abs(), sofar);
      ok := true;
    }

    /**
     An operation of system call `i`, and log_write for what it changed. !ok where the kernel panics: for
     want of blocks on the disk or of room in the log.
     */
    method Do(ghost i: nat, op: Op) returns (ok: bool, reply: Reply)
      requires Valid() && OpOk(op, |files|) && i < |log.s.ops|
      modifies this, fs, log, log.block
      ensures ok ==> Valid() && ops == old(ops) + [op] && reply == Answer(SpecRun(files, old(ops)), op)
      ensures ok ==> |log.s.ops| == |old(log.s.ops)|
      ensures marks == old(marks) && old(log.steps) <= log.steps && log.block == old(log.block)
      ensures !ok ==> Stopped() && ops == old(ops) && (Enough(fs.l, old(fs.Abs()), op) ==> L.TooBig(log.l, log.s))
      ensures ok ==> Enough(fs.l, old(fs.Abs()), op)
      ensures Small(op) && fs.l.size <= BPB && Fits(log.l, old(log.s), MAXOPBLOCKS) ==>
                (ok <==> Enough(fs.l, old(fs.Abs()), op))
    {
      hide L.Inv, R.IsRun, Serving, Halfway, Stores, Covers, Placed, LogsFor, DiskFull, Answer, Spec, SpecRun, Enough;
      hide History;
      ghost var s, steps, was := log.s, log.steps, fs.Abs();
      ServingFacts(log.l, log.base, log.s0, steps, s, fs.l, was, files, ops, marks, did);
      fs.logged := {};
      ok, reply := Step(fs, op, SpecRun(files, ops));
      if !ok {
        return;
      }
      ghost var now := fs.Abs();
      StoresOk(fs.l, now, Spec(SpecRun(files, ops), op));
      PlacedStays(log.l, fs.l, was, now, fs.logged);
      if Small(op) && fs.l.size <= BPB {
        FewBlocks(fs.l, now, op, fs.logged);
      }
      ok := LogAll(i, op);
      if !ok {
        HistoryStays(log.l, log.base, log.s0, steps, log.steps, fs.l, files, ops, ops, marks);
        HistoryOps(log.l, log.base, log.s0, log.steps, fs.l, files, ops, marks);
        return;
      }
      HalfwayFacts(log.l, s, log.s, fs.l, now, fs.logged);
      ServingMore(log.l, log.base, log.s0, steps, s, log.steps, log.s, fs.l, was, now, files, ops, op, marks, did,
                  fs.logged);
      ops, did := ops + [op], did + fs.logged;
    }

    /** end_op; the last call to end commits what all of them have logged. */
    method End(i: nat)
      requires Valid() && i < |log.s.ops|
      modifies this, log, log.block
      ensures Valid() && ops == old(ops) && old(log.steps) <= log.steps && log.block == old(log.block)
      ensures |log.s.ops| == |old(log.s.ops)| - 1
      ensures |old(log.s.ops)| > 1 ==> marks == old(marks) && log.s.lh == old(log.s.lh)
      ensures |old(log.s.ops)| == 1 ==>
                marks == old(marks) + [Mark(|log.steps|, |log.s.done|, |ops|, fs.Abs())] && log.s.lh == []
    {
      hide L.Inv, R.IsRun, Serving, AllOk, R.HomeIs;
      ghost var s, steps := log.s, log.steps;
      ServingFacts(log.l, log.base, log.s0, steps, s, fs.l, fs.Abs(), files, ops, marks, did);
      log.EndOp(i);
      if |s.ops| > 1 {
        ServingIdle(log.l, log.base, log.s0, steps, s, log.steps, log.s, fs.l, fs.Abs(), files, ops, marks, did);
      } else {
        ServingCommitted(log.l, log.base, log.s0, steps, s, log.steps, log.s, fs.l, fs.Abs(), files, ops, marks, did);
        marks, did := marks + [Mark(|log.steps|, |log.s.done|, |ops|, fs.Abs())], {};
      }
    }

    /** A system call alone: begin_op, the operation and end_op. It fails only for want of blocks on the disk. */
    method Transact(op: Op) returns (ok: bool, reply: Reply)
      requires Valid() && OpOk(op, |files|) && Small(op) && log.s.ops == [] && log.s.lh == []
      requires fs.l.size <= BPB && MAXOPBLOCKS < log.l.size
      modifies this, fs, log, log.block
      ensures ok <==> Enough(fs.l, old(fs.Abs()), op)
      ensures ok ==> Valid() && ops == old(ops) + [op] && reply == Answer(SpecRun(files, old(ops)), op)
      ensures ok ==> log.s.ops == [] && log.s.lh == [] && marks[|marks| - 1].count == |ops|
      ensures !ok ==> Stopped() && ops == old(ops) && marks == old(marks)
    {
      hide L.Inv, R.IsRun, Serving, AllOk, Answer, SpecRun, Enough, Stopped, History;
      ServingFacts(log.l, log.base, log.s0, log.steps, log.s, fs.l, fs.Abs(), files, ops, marks, did);
      var started := Begin();
      ok, reply := Do(0, op);
      if ok {
        End(0);
      }
    }
  }

  lemma HalfwayNone(ll: L.Layout, s: L.State, l: Layout, t: Fs)
    requires s.pc.Idle?
    ensures Halfway(ll, s, s, l, t, {})
  {
    hide Image;
  }
}
