/**
 log.c itself: the in-memory header, the loops that move blocks and the counters that
 begin_op and end_op keep. Ghost field `steps` records every step the code takes; `Valid`
 says that this record is a run of the protocol and that the fields are its end state, so
 whatever LogRuns proves of all runs holds between any two block writes made here.
 */
module Log {
  import opened LogProtocol
  import opened LogRuns

  class Device {
    const l: Layout
    var disk: Disk
    var dirty: map<int, Block>  // buffers pinned in the cache by B_DIRTY
    var n: nat
    var block: array<int>
    var outstanding: nat
    var committing: bool
    ghost const base: Disk
    ghost const s0: State
    ghost var s: State
    ghost var steps: seq<Step>

    /** The fields hold state `t`. */
    ghost predicate Couples(t: State)
      reads this, block
    {
      && disk == t.disk && dirty == t.dirty
      && block.Length == LOGSIZE && n <= LOGSIZE && block[..n] == t.lh
      && outstanding == |t.ops| && committing == t.committing
    }

    /** The recorded steps are a run of the protocol that ends in `s`. */
    ghost predicate Traced()
      reads this
    {
      Inv(l, base, s0) && Inv(l, base, s) && IsRun(l, s0, steps) && End(l, s0, steps) == s
    }

    ghost predicate Valid()
      reads this, block
    {
      Traced() && Couples(s)
    }

    /** Power on: nothing but the disk. */
    constructor (l: Layout, ghost base: Disk, d: Disk)
      requires InitOk(l, base, d)
      ensures Valid() && fresh(block) && this.l == l && this.base == base && s == Boot(d) && steps == []
    {
      this.l, this.base, s0, s, steps := l, base, Boot(d), Boot(d), [];
      disk, dirty, n, outstanding, committing := d, map[], 0, 0, false;
      block := new int[LOGSIZE](_ => 0);
      BootInv(l, base, d);
    }

    /** One protocol step on the ghost side, once the fields hold its outcome. */
    ghost method Record(e: Step)
      requires Traced() && WellSized(l, s) && Enabled(l, s, e) && Couples(Apply(l, s, e))
      modifies this`s, this`steps
      ensures Valid()
      ensures s == Apply(l, old(s), e) && steps == old(steps) + [e]
    {
      hide Inv, Enabled, Apply;
      StepKeeps(l, base, s, e);
      assert [e][1..] == [];
      RunConcat(l, s0, steps, [e]);
      s, steps := Apply(l, s, e), steps + [e];
    }

    method Bread(b: int) returns (v: Block)
      requires 0 <= b < |disk|
      ensures v == if b in dirty then dirty[b] else disk[b]
    {
      v := if b in dirty then dirty[b] else disk[b];
    }

    method Bwrite(b: int, v: Block)
      requires 0 <= b < |disk|
      modifies this`disk, this`dirty
      ensures disk == old(disk)[b := v] && dirty == Unpin(old(dirty), b)
    {
      disk := disk[b := v];
      dirty := Unpin(dirty, b);
    }

    method BeginOp() returns (started: bool)
      requires Valid() && s.pc.Idle?
      modifies this`outstanding, this`s, this`steps
      ensures Valid()
      ensures started <==> n + (old(outstanding) + 1) * MAXOPBLOCKS <= LOGSIZE
      ensures if started then steps == old(steps) + [Step.BeginOp] && s == Apply(l, old(s), Step.BeginOp)
              else unchanged(this)
      ensures started ==> outstanding == old(outstanding) + 1
    {
      if committing {
        started := false;
      } else if n + (outstanding + 1) * MAXOPBLOCKS > LOGSIZE {
        started := false;
      } else {
        outstanding := outstanding + 1;
        Record(Step.BeginOp);
        started := true;
      }
    }

    /** log_write by call `i`; !ok where the kernel panics. */
    method LogWrite(ghost i: nat, b: int, v: Block) returns (ok: bool)
      requires Valid() && s.pc.Idle? && (s.ops != [] ==> i < |s.ops|) && l.Home(b)
      modifies this, block
      ensures Valid() && block == old(block)
      ensures ok <==> !old(TooBig(l, s)) && old(outstanding) >= 1
      ensures ok ==> steps == old(steps) + [Step.LogWrite(i, b, v)] && s == Apply(l, old(s), Step.LogWrite(i, b, v))
      ensures ok ==> dirty == old(dirty)[b := v] && disk == old(disk) && outstanding == old(outstanding)
      ensures block.Length == LOGSIZE && n <= LOGSIZE && old(n) <= LOGSIZE
      ensures ok ==> block[..n] == if b in old(block[..n]) then old(block[..n]) else old(block[..n]) + [b]
      ensures !ok ==> unchanged(this, block)
    {
      hide Inv, IsRun;
      InvSized(l, base, s);
      if n >= LOGSIZE || n >= l.size - 1 {
        return false;
      }
      if outstanding < 1 {
        return false;
      }
      var k := 0;
      while k < n
        invariant 0 <= k <= n && b !in block[..k]
      {
        if block[k] == b {
          break;
        }
        k := k + 1;
      }
      assert k < n ==> b in block[..n];
      assert k == n <==> b !in s.lh;
      ghost var lh := s.lh;
      block[k] := b;
      if k == n {
        n := n + 1;
      }
      dirty := dirty[b := v];
      Record(Step.LogWrite(i, b, v));
      assert block[..n] == s.lh;
      ok := true;
    }

    /** Writes the in-memory header over the header block; entries past `n` stay as they were. */
    method WriteHead()
      requires l.Valid() && |disk| == l.total && l.start !in dirty && disk[l.start].Sized()
      requires block.Length == LOGSIZE && n <= LOGSIZE
      modifies this`disk, this`dirty
      ensures disk == old(disk)[l.start := PutHead(old(disk)[l.start], block[..n])] && dirty == old(dirty)
    {
      var bp := Bread(l.start);
      var hb := bp.words[0 := n];
      for i := 0 to n
        invariant |hb| == BWORDS
        invariant hb == [n] + block[..i] + bp.words[1 + i..]
      {
        hb := hb[1 + i := block[i]];
      }
      Bwrite(l.start, Block(hb));
      assert dirty == old(dirty);
    }

    method ReadHead()
      requires HeaderOk(l, disk) && block.Length == LOGSIZE && l.start !in dirty
      modifies this`n, block
      ensures n <= LOGSIZE && block[..n] == HeadList(disk[l.start])
    {
      var lh := Bread(l.start);
      n := HeadN(lh);
      for i := 0 to n
        invariant n == HeadN(lh) <= LOGSIZE
        invariant block[..i] == lh.words[1..1 + i]
      {
        block[i] := lh.words[1 + i];
      }
    }

    /** One turn of the loop in write_log. */
    method WriteLogBlock(tail: nat)
      requires Valid() && tail < n && s.pc == WritingLog(tail)
      modifies this`disk, this`dirty, this`s, this`steps
      ensures Valid() && steps == old(steps) + [Step.WriteLog]
              && s.pc == if tail + 1 < n then WritingLog(tail + 1) else WritingHead
      ensures s.done == old(s.done) && s.pend == old(s.pend) && s.lh == old(s.lh) && s.ops == old(s.ops)
    {
      StepFacts(l, base, s);
      hide Inv, IsRun, End;
      assert block[..n][tail] == block[tail];
      var from := Bread(block[tail]);
      Bwrite(l.start + tail + 1, from);
      assert dirty == s.dirty;
      Record(Step.WriteLog);
    }

    method WriteLog()
      requires Valid() && s.pc == WritingLog(0) && n > 0
      modifies this`disk, this`dirty, this`s, this`steps
      ensures Valid() && s.pc.WritingHead? && old(steps) <= steps
      ensures s.done == old(s.done) && s.pend == old(s.pend) && s.lh == old(s.lh) && s.ops == old(s.ops)
    {
      hide Inv, IsRun, End;
      var tail := 0;
      while tail < n
        invariant Valid() && tail <= n && old(steps) <= steps
        invariant s.done == old(s.done) && s.pend == old(s.pend) && s.lh == old(s.lh) && s.ops == old(s.ops)
        invariant s.pc == if tail < n then WritingLog(tail) else WritingHead
      {
        WriteLogBlock(tail);
        tail := tail + 1;
      }
    }

    /** One turn of the loop in install_trans. */
    method InstallBlock(tail: nat, ghost rec: bool)
      requires Valid() && tail < n && s.pc == Installing(tail, rec)
      modifies this`disk, this`dirty, this`s, this`steps
      ensures Valid() && steps == old(steps) + [Step.Install] && s.pc == AfterInstall(s.lh, tail + 1, rec)
      ensures s.done == old(s.done) && s.pend == old(s.pend) && s.lh == old(s.lh) && s.ops == old(s.ops)
    {
      hide Unpin, Inv, IsRun, End, Apply, Enabled, WellSized, AfterInstall, Distinct, AtPc, HeaderOk;
      InstallReady(l, base, s);
      InstallEffect(l, s);
      assert block[tail] == s.lh[tail];
      var lbuf := Bread(l.start + tail + 1);
      Bwrite(block[tail], lbuf);
      Record(Step.Install);
    }

    method InstallTrans(ghost rec: bool)
      requires Valid() && s.pc == AfterInstall(s.lh, 0, rec)
      modifies this`disk, this`dirty, this`s, this`steps
      ensures Valid() && s.pc == Erasing(rec) && old(steps) <= steps
      ensures s.done == old(s.done) && s.pend == old(s.pend) && s.lh == old(s.lh) && s.ops == old(s.ops)
    {
      hide Inv, IsRun, End;
      var tail := 0;
      while tail < n
        invariant Valid() && tail <= n && old(steps) <= steps
        invariant s.done == old(s.done) && s.pend == old(s.pend) && s.lh == old(s.lh) && s.ops == old(s.ops)
        invariant s.pc == AfterInstall(s.lh, tail, rec)
      {
        InstallBlock(tail, rec);
        tail := tail + 1;
      }
    }

    /** The commit point. */
    method CommitHead()
      requires Valid() && s.pc.WritingHead?
      modifies this`disk, this`dirty, this`s, this`steps
      ensures Valid() && steps == old(steps) + [Step.WriteHead] && s.pc == AfterInstall(s.lh, 0, false)
      ensures s.done == old(s.done) + [old(s.pend)] && s.lh == old(s.lh) && s.ops == old(s.ops)
    {
      hide Inv, IsRun, End, Apply, Enabled, WellSized, HeaderOk, PutHead, AfterInstall;
      HeadEffect(l, base, s);
      WriteHead();
      Record(Step.WriteHead);
    }

    /** Clears the log: `n = 0` and the header rewritten. */
    method EraseLog()
      requires Valid() && s.pc.Erasing?
      modifies this`n, this`disk, this`dirty, this`s, this`steps
      ensures Valid() && steps == old(steps) + [Step.Erase] && s.pc == (if old(s.pc.rec) then Idle else Finishing)
      ensures s.lh == [] && s.done == old(s.done) && s.pend == old(s.pend) && s.ops == old(s.ops)
    {
      hide Inv, IsRun, End, Apply, Enabled, WellSized, HeaderOk, PutHead;
      EraseEffect(l, base, s);
      n := 0;
      assert block[..n] == [];
      WriteHead();
      Record(Step.Erase);
    }

    method Commit()
      requires Valid() && (if n > 0 then s.pc == WritingLog(0) else s.pc.Finishing?)
      modifies this, block
      ensures Valid() && block == old(block) && s.pc.Finishing? && s.ops == old(s.ops) && old(steps) <= steps
      ensures s.done == if old(n) > 0 then old(s.done) + [old(s.pend)] else old(s.done)
      ensures n == 0 && dirty == map[] && HomeIs(l, disk, base, s.done)
    {
      hide Inv, IsRun, End, HomeIs;
      if n > 0 {
        WriteLog();
        StepFacts(l, base, s);
        CommitHead();
        InstallTrans(false);
        StepFacts(l, base, s);
        EraseLog();
      }
      QuietHome(l, base, s);
      QuietFacts(l, base, s);
    }

    method BootHead()
      requires Valid() && s.pc.Booting?
      modifies this, block
      ensures Valid() && block == old(block) && steps == old(steps) + [Step.ReadHead]
      ensures s.pc == AfterInstall(s.lh, 0, true) && s.done == old(s.done) && s.ops == old(s.ops)
    {
      hide Inv, IsRun, End, Apply, Enabled, WellSized, HeaderOk, HeadList, AfterInstall;
      BootEffect(l, base, s);
      ReadHead();
      Record(Step.ReadHead);
    }

    method RecoverFromLog()
      requires Valid() && s.pc.Booting?
      modifies this, block
      ensures Valid() && block == old(block) && Quiet(l, s) && !committing
      ensures HomeIs(l, disk, base, old(s.done)) && s.done == old(s.done)
    {
      hide Inv, IsRun, End, HomeIs;
      StepFacts(l, base, s);
      BootHead();
      InstallTrans(true);
      StepFacts(l, base, s);
      EraseLog();
      QuietHome(l, base, s);
      QuietFacts(l, base, s);
    }

    method EndOp(i: nat)
      requires Valid() && s.pc.Idle? && i < |s.ops|
      modifies this, block
      ensures Valid() && block == old(block) && s.pc.Idle? && !committing && old(steps) <= steps
      ensures old(outstanding) > 1 ==> steps == old(steps) + [Step.EndOp(i)] && |s.ops| == |old(s.ops)| - 1
      ensures old(outstanding) > 1 ==> s.done == old(s.done) && s.pend == old(s.pend) && s.lh == old(s.lh)
      ensures old(outstanding) == 1 ==> outstanding == 0 && n == 0 && dirty == map[] && HomeIs(l, disk, base, s.done)
      ensures old(outstanding) == 1 ==> s.done == if old(n) > 0 then old(s.done) + [old(s.pend)] else old(s.done)
    {
      hide Inv, IsRun, End, HomeIs, Apply, Enabled, WellSized;
      EndEffect(l, base, s, i);
      outstanding := outstanding - 1;
      if outstanding == 0 {
        committing := true;
      }
      Record(Step.EndOp(i));
      if committing {
        Commit();
        FinishEffect(l, base, s);
        committing := false;
        Record(Step.Finish);
      }
    }
  }

  /** What the code relies on at each step. */
  lemma StepFacts(l: Layout, base: Disk, s: State)
    requires Inv(l, base, s)
    ensures WellSized(l, s) && HeaderOk(l, s.disk)
    ensures forall b :: b in s.dirty ==> l.Home(b)
    ensures !s.pc.Idle? ==> s.ops == []
    ensures s.pc.Installing? ==> s.pc.k < |s.lh|
  {
    if s.pc.Installing? && !s.pc.rec {
      assert forall b :: b in s.lh[s.pc.k..] ==> b in s.lh;
    }
  }

  lemma InstallReady(l: Layout, base: Disk, s: State)
    requires Inv(l, base, s) && s.pc.Installing?
    ensures WellSized(l, s) && Enabled(l, s, Install)
    ensures s.pc.k < |s.lh| && l.Home(s.lh[s.pc.k])
    ensures l.Valid() && |s.disk| == l.total && |s.lh| < l.size
    ensures l.start + s.pc.k + 1 !in s.dirty
  {
    StepFacts(l, base, s);
    hide Inv, HeaderOk;
    assert !l.Home(l.start + s.pc.k + 1);
  }

  lemma EndEffect(l: Layout, base: Disk, s: State, i: nat)
    requires Inv(l, base, s) && s.pc.Idle? && i < |s.ops|
    ensures WellSized(l, s) && Enabled(l, s, Step.EndOp(i)) && !s.committing
    ensures var t := Apply(l, s, Step.EndOp(i));
            && |t.ops| == |s.ops| - 1 && t.disk == s.disk && t.dirty == s.dirty && t.lh == s.lh && t.done == s.done
            && t.pend == s.pend
            && (if |s.ops| > 1 then t.pc.Idle? && !t.committing
                else t.committing && t.pc == if s.lh == [] then Finishing else WritingLog(0))
  {
    StepFacts(l, base, s);
    assert !s.committing;
    hide Inv, HeaderOk, WellSized;
  }

  lemma FinishEffect(l: Layout, base: Disk, s: State)
    requires Inv(l, base, s) && s.pc.Finishing?
    ensures WellSized(l, s) && Enabled(l, s, Step.Finish)
    ensures Apply(l, s, Step.Finish) == s.(committing := false, pc := Idle)
  {
    StepFacts(l, base, s);
    hide Inv, HeaderOk;
  }

  lemma HeadEffect(l: Layout, base: Disk, s: State)
    requires Inv(l, base, s) && s.pc.WritingHead?
    ensures WellSized(l, s) && Enabled(l, s, Step.WriteHead) && l.start !in s.dirty
    ensures l.Valid() && |s.disk| == l.total && s.disk[l.start].Sized() && |s.lh| <= LOGSIZE
    ensures Apply(l, s, Step.WriteHead) == s.(disk := s.disk[l.start := PutHead(s.disk[l.start], s.lh)],
                                              pc := AfterInstall(s.lh, 0, false), done := s.done + [s.pend],
                                              pend := map[])
  {
    StepFacts(l, base, s);
    hide Inv, HeaderOk, PutHead, AfterInstall;
  }

  lemma EraseEffect(l: Layout, base: Disk, s: State)
    requires Inv(l, base, s) && s.pc.Erasing?
    ensures WellSized(l, s) && Enabled(l, s, Erase) && l.start !in s.dirty
    ensures l.Valid() && |s.disk| == l.total && s.disk[l.start].Sized()
    ensures Apply(l, s, Erase) == s.(disk := s.disk[l.start := PutHead(s.disk[l.start], [])], lh := [],
                                     pc := if s.pc.rec then Idle else Finishing)
  {
    StepFacts(l, base, s);
    hide Inv, HeaderOk, PutHead;
  }

  lemma BootEffect(l: Layout, base: Disk, s: State)
    requires Inv(l, base, s) && s.pc.Booting?
    ensures WellSized(l, s) && Enabled(l, s, Step.ReadHead) && l.start !in s.dirty && HeaderOk(l, s.disk)
    ensures s.disk[l.start].Sized()
    ensures l.Valid() && |s.disk| == l.total
    ensures var lh := HeadList(s.disk[l.start]);
            Apply(l, s, Step.ReadHead) == s.(lh := lh, pc := AfterInstall(lh, 0, true))
  {
    StepFacts(l, base, s);
    hide Inv, HeaderOk, HeadList, AfterInstall;
  }

  lemma QuietFacts(l: Layout, base: Disk, s: State)
    requires Inv(l, base, s) && s.lh == [] && (s.pc.Finishing? || s.pc.Idle?)
    ensures s.dirty == map[] && (s.pc.Idle? && s.ops == [] ==> Quiet(l, s)) && (s.pc.Idle? ==> !s.committing)
  {
    if s.pc.Idle? {
      NoKeys(s.dirty);
    }
  }
}
