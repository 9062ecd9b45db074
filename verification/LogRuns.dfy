/**
 What holds of whole runs of the log: every interleaving of system calls, commit steps,
 crashes and recovery steps, from a disk that may itself still need recovery.
 */
module LogRuns {
  import opened LogProtocol

  ghost function Boot(d: Disk): State {
    State(d, map[], [], [], false, Booting, [], map[])
  }

  /** `base` gives the home blocks as recovery of `d` would leave them. */
  ghost predicate InitOk(l: Layout, base: Disk, d: Disk) {
    && |base| == l.total && HeaderOk(l, d)
    && forall b :: l.Home(b) ==> Recovers(l, d, b, base[b])
  }

  ghost predicate IsRun(l: Layout, s: State, es: seq<Step>)
    decreases |es|
  {
    es == [] || (WellSized(l, s) && Enabled(l, s, es[0]) && IsRun(l, Apply(l, s, es[0]), es[1..]))
  }

  ghost function End(l: Layout, s: State, es: seq<Step>): State
    requires IsRun(l, s, es)
    decreases |es|
  {
    if es == [] then s else End(l, Apply(l, s, es[0]), es[1..])
  }

  lemma {:induction false} RunKeeps(l: Layout, base: Disk, s: State, es: seq<Step>)
    requires Inv(l, base, s) && IsRun(l, s, es)
    ensures Inv(l, base, End(l, s, es))
    decreases |es|
  {
    hide Inv, Apply;
    if es != [] {
      StepKeeps(l, base, s, es[0]);
      RunKeeps(l, base, Apply(l, s, es[0]), es[1..]);
    }
  }

  lemma {:induction false} RunConcat(l: Layout, s: State, es: seq<Step>, rs: seq<Step>)
    requires IsRun(l, s, es)
    ensures IsRun(l, s, es + rs) <==> IsRun(l, End(l, s, es), rs)
    ensures IsRun(l, s, es + rs) ==> End(l, s, es + rs) == End(l, End(l, s, es), rs)
    decreases |es|
  {
    hide Enabled, Apply, WellSized;
    if es == [] {
      assert es + rs == rs;
    } else {
      assert (es + rs)[0] == es[0] && (es + rs)[1..] == es[1..] + rs;
      RunConcat(l, Apply(l, s, es[0]), es[1..], rs);
    }
  }

  // The groups of a run, read off its steps alone.

  datatype Scan = Scan(done: seq<map<int, Block>>, pend: map<int, Block>)

  ghost function Note(c: Scan, e: Step): Scan {
    match e
    case LogWrite(_, b, v) => c.(pend := c.pend[b := v])
    case WriteHead => Scan(c.done + [c.pend], map[])
    case Crash => c.(pend := map[])
    case _ => c
  }

  ghost function Groups(c: Scan, es: seq<Step>): Scan
    decreases |es|
  {
    if es == [] then c else Groups(Note(c, es[0]), es[1..])
  }

  /** The groups on record are exactly the steps' own, and groups on record stay on record. */
  lemma {:induction false} HistoryIsGroups(l: Layout, s: State, es: seq<Step>)
    requires IsRun(l, s, es)
    ensures Scan(End(l, s, es).done, End(l, s, es).pend) == Groups(Scan(s.done, s.pend), es)
    ensures s.done <= End(l, s, es).done
    decreases |es|
  {
    if es != [] {
      HistoryIsGroups(l, Apply(l, s, es[0]), es[1..]);
    }
  }

  // Crash atomicity.

  /** Every home block of `d` is `base` with `groups` applied in order. */
  ghost predicate HomeIs(l: Layout, d: Disk, base: Disk, groups: seq<map<int, Block>>) {
    && |d| == |base| == l.total
    && forall b :: l.Home(b) ==> d[b] == Value(base, groups, b)
  }

  /** The log is empty and nothing is under way. */
  ghost predicate Quiet(l: Layout, s: State) {
    && s.pc.Idle? && s.lh == [] && s.ops == [] && s.dirty == map[]
    && l.start < |s.disk| && s.disk[l.start].Sized() && HeadN(s.disk[l.start]) == 0
  }

  predicate RecoveryStep(e: Step) { e.Crash? || e.ReadHead? || e.Install? || e.Erase? }

  lemma {:induction false} RecoveryCommitsNothing(c: Scan, rs: seq<Step>)
    requires forall k :: 0 <= k < |rs| ==> RecoveryStep(rs[k])
    ensures Groups(c, rs).done == c.done
    decreases |rs|
  {
    if rs != [] {
      RecoveryCommitsNothing(Note(c, rs[0]), rs[1..]);
    }
  }

  lemma BootInv(l: Layout, base: Disk, d: Disk)
    requires InitOk(l, base, d)
    ensures Inv(l, base, Boot(d))
  {
  }

  /** A quiet log leaves every home block at its committed contents. */
  lemma QuietHome(l: Layout, base: Disk, s: State)
    requires Inv(l, base, s) && (s.pc.Idle? || s.pc.Finishing?)
    ensures HomeIs(l, s.disk, base, s.done)
  {
    forall b | l.Home(b) ensures s.disk[b] == Value(base, s.done, b) {
      assert Recovers(l, s.disk, b, Value(base, s.done, b));
    }
  }

  /** Recovery from any reachable state, itself interrupted by crashes or not, ends with the groups committed before. */
  lemma RecoveredHome(l: Layout, base: Disk, s: State, rs: seq<Step>)
    requires Inv(l, base, s) && IsRun(l, Rebooted(s), rs) && (forall k :: 0 <= k < |rs| ==> RecoveryStep(rs[k]))
    requires End(l, Rebooted(s), rs).pc.Idle?
    ensures HomeIs(l, End(l, Rebooted(s), rs).disk, base, s.done)
  {
    hide Inv, Value, HomeIs, IsRun, Groups, HeaderOk;
    CrashKeeps(l, base, s);
    var r := Rebooted(s);
    RunKeeps(l, base, r, rs);
    HistoryIsGroups(l, r, rs);
    RecoveryCommitsNothing(Scan(r.done, r.pend), rs);
    QuietHome(l, base, End(l, r, rs));
  }

  /**
   Stop any run `es` at any point and let recovery run, itself interrupted by any number
   of crashes, until it finishes: every home block holds what the groups committed by
   `es` put there, each group applied as a whole.
   */
  lemma CrashAtomicity(l: Layout, base: Disk, d: Disk, es: seq<Step>, rs: seq<Step>)
    requires InitOk(l, base, d) && IsRun(l, Boot(d), es)
    requires IsRun(l, Rebooted(End(l, Boot(d), es)), rs) && (forall k :: 0 <= k < |rs| ==> RecoveryStep(rs[k]))
    requires End(l, Rebooted(End(l, Boot(d), es)), rs).pc.Idle?
    ensures HomeIs(l, End(l, Rebooted(End(l, Boot(d), es)), rs).disk, base, Groups(Scan([], map[]), es).done)
  {
    hide Inv, Value, HomeIs, IsRun, Groups, HeaderOk;
    BootInv(l, base, d);
    RunKeeps(l, base, Boot(d), es);
    HistoryIsGroups(l, Boot(d), es);
    RecoveredHome(l, base, End(l, Boot(d), es), rs);
  }

  /** The first step of recovery. */
  lemma ReadHeadStarts(l: Layout, base: Disk, r: State)
    requires Inv(l, base, r) && r.pc.Booting?
    ensures WellSized(l, r) && Enabled(l, r, ReadHead) && Inv(l, base, Apply(l, r, ReadHead))
    ensures var t := Apply(l, r, ReadHead); (t.pc.Installing? && t.pc.rec) || (t.pc.Erasing? && t.pc.rec)
  {
    hide Durable, AtPc, Phased, Distinct, HeadList;
    StepKeeps(l, base, r, ReadHead);
  }

  /** Recovery that is left alone does finish, with an empty log. */
  lemma RecoveryFinishes(l: Layout, base: Disk, s: State) returns (rs: seq<Step>)
    requires Inv(l, base, s)
    ensures forall k :: 0 <= k < |rs| ==> RecoveryStep(rs[k])
    ensures IsRun(l, Rebooted(s), rs)
    ensures Quiet(l, End(l, Rebooted(s), rs))
  {
    hide Inv, Quiet, WellSized, Enabled;
    var r := Rebooted(s);
    CrashKeeps(l, base, s);
    ReadHeadStarts(l, base, r);
    var t := Apply(l, r, ReadHead);
    var more := InstallAll(l, base, t);
    rs := [ReadHead] + more;
    assert rs[0] == ReadHead && rs[1..] == more;
  }

  lemma CrashKeeps(l: Layout, base: Disk, s: State)
    requires Inv(l, base, s)
    ensures Inv(l, base, Rebooted(s)) && Rebooted(s).pc.Booting?
  {
    InvSized(l, base, s);
    StepKeeps(l, base, s, Crash);
    assert Apply(l, s, Crash) == Rebooted(s);
  }

  lemma {:induction false} InstallAll(l: Layout, base: Disk, s: State) returns (rs: seq<Step>)
    requires Inv(l, base, s) && ((s.pc.Installing? && s.pc.rec) || (s.pc.Erasing? && s.pc.rec))
    ensures forall k :: 0 <= k < |rs| ==> RecoveryStep(rs[k])
    ensures IsRun(l, s, rs)
    ensures Quiet(l, End(l, s, rs))
    decreases if s.pc.Installing? then |s.lh| - s.pc.k else 0
  {
    hide Inv, Apply, Enabled, WellSized, Quiet;
    InvSized(l, base, s);
    if s.pc.Erasing? {
      rs := [Erase];
      assert rs[1..] == [];
      EraseQuiet(l, base, s);
    } else {
      InstallGoesOn(l, base, s);
      var t := Apply(l, s, Install);
      rs := InstallAll(l, base, t);
      assert ([Install] + rs)[1..] == rs;
      rs := [Install] + rs;
    }
  }

  lemma EraseQuiet(l: Layout, base: Disk, s: State)
    requires Inv(l, base, s) && s.pc.Erasing? && s.pc.rec
    ensures WellSized(l, s) && Enabled(l, s, Erase) && Quiet(l, Apply(l, s, Erase))
  {
    hide Durable, Installed;
    HeadRoundTrip(s.disk[l.start], []);
  }

  lemma InstallGoesOn(l: Layout, base: Disk, s: State)
    requires Inv(l, base, s) && s.pc.Installing? && s.pc.rec
    ensures WellSized(l, s) && Enabled(l, s, Install) && Inv(l, base, Apply(l, s, Install))
    ensures var t := Apply(l, s, Install);
            && t.lh == s.lh && s.pc.k < |s.lh|
            && (t.pc == Installing(s.pc.k + 1, true) || t.pc == Erasing(true))
  {
    hide Durable, Phased, Installed, Distinct;
    assert Enabled(l, s, Install);
    InstallKeeps(l, base, s);
    InstallEffect(l, s);
  }

  /** Between crashes, a read sees the latest write, committed or not. */
  lemma ReadsLatest(l: Layout, base: Disk, s: State, b: int)
    requires Inv(l, base, s) && l.Home(b) && b < |s.disk| && !s.pc.Booting? && !(s.pc.Installing? && s.pc.rec)
    requires !(s.pc.Erasing? && s.pc.rec)
    ensures Read(s, b) == if b in s.pend then s.pend[b] else Value(base, s.done, b)
  {
    assert Recovers(l, s.disk, b, Value(base, s.done, b));
    if s.pc.Installing? && b in s.lh {
      var k :| 0 <= k < |s.lh| && s.lh[k] == b;
      assert k >= s.pc.k ==> s.lh[s.pc.k..][k - s.pc.k] == b;
    }
  }

  // Reservations and the panic of log_write.

  /** A run in which every write stays within its call's reservation. */
  ghost predicate Behaved(l: Layout, s: State, es: seq<Step>)
    requires IsRun(l, s, es)
    decreases |es|
  {
    es == [] || ((es[0].LogWrite? ==> Within(s, es[0].i, es[0].b)) && Behaved(l, Apply(l, s, es[0]), es[1..]))
  }

  lemma {:induction false} BehavedConcat(l: Layout, s: State, es: seq<Step>, rs: seq<Step>)
    requires IsRun(l, s, es) && IsRun(l, s, es + rs) && IsRun(l, End(l, s, es), rs)
    ensures Behaved(l, s, es + rs) <==> Behaved(l, s, es) && Behaved(l, End(l, s, es), rs)
    decreases |es|
  {
    hide Enabled, Apply, WellSized, Within;
    if es == [] {
      assert es + rs == rs;
    } else {
      assert (es + rs)[0] == es[0] && (es + rs)[1..] == es[1..] + rs;
      BehavedConcat(l, Apply(l, s, es[0]), es[1..], rs);
    }
  }

  lemma {:induction false} RunReserved(l: Layout, base: Disk, s: State, es: seq<Step>)
    requires Inv(l, base, s) && Reserved(s) && IsRun(l, s, es) && Behaved(l, s, es)
    ensures Inv(l, base, End(l, s, es)) && Reserved(End(l, s, es))
    decreases |es|
  {
    hide Apply, Reserved, Within, Durable, AtPc, Phased, Enabled;
    if es != [] {
      StepKeeps(l, base, s, es[0]);
      ReservedKeeps(l, s, es[0]);
      RunReserved(l, base, Apply(l, s, es[0]), es[1..]);
    }
  }

  lemma CommitAlone(l: Layout, base: Disk, s: State)
    requires Inv(l, base, s)
    ensures s.committing ==> s.ops == []
  {
  }

  /**
   In every run within reservations, entries plus unused reservations fit the header; in every run, a commit runs
   alone.
   */
  lemma ReservationBound(l: Layout, base: Disk, d: Disk, es: seq<Step>)
    requires InitOk(l, base, d) && IsRun(l, Boot(d), es)
    ensures var s := End(l, Boot(d), es); s.committing ==> s.ops == []
    ensures var s := End(l, Boot(d), es); Behaved(l, Boot(d), es) ==> Reserved(s) && |s.lh| + Unused(s.ops) <= LOGSIZE
  {
    BootInv(l, base, d);
    hide Inv, IsRun, Behaved, InitOk;
    RunKeeps(l, base, Boot(d), es);
    CommitAlone(l, base, End(l, Boot(d), es));
    if Behaved(l, Boot(d), es) {
      RunReserved(l, base, Boot(d), es);
    }
  }

  /** A call within its reservation would add or rewrite block `b`, and panics. */
  ghost predicate Panics(l: Layout, s: State, i: nat, b: int) {
    s.pc.Idle? && l.Home(b) && Within(s, i, b) && TooBig(l, s)
  }

  /**
   With a log area larger than LOGSIZE, a write within its reservation panics exactly when the
   log has LOGSIZE entries. Then every call has used up its reservation, so the write is one that
   would be absorbed: the size test comes before the search for the block.
   */
  lemma PanicIffFull(l: Layout, base: Disk, d: Disk, es: seq<Step>, i: nat, b: int)
    requires InitOk(l, base, d) && IsRun(l, Boot(d), es) && Behaved(l, Boot(d), es) && LOGSIZE < l.size
    requires Within(End(l, Boot(d), es), i, b)
    ensures var s := End(l, Boot(d), es); TooBig(l, s) <==> |s.lh| == LOGSIZE
    ensures var s := End(l, Boot(d), es);
            TooBig(l, s) ==> b in s.lh && forall j :: 0 <= j < |s.ops| ==> s.ops[j] == MAXOPBLOCKS
  {
    BootInv(l, base, d);
    hide IsRun, Behaved, InitOk, Durable, AtPc, Phased;
    RunReserved(l, base, Boot(d), es);
    var s := End(l, Boot(d), es);
    TooBigIff(l, s);
    forall j | 0 <= j < |s.ops| ensures |s.lh| == LOGSIZE ==> s.ops[j] == MAXOPBLOCKS {
      UnusedSplit(s.ops, j);
    }
  }

  /** `m` log entries spread over three system calls, none of them above its reservation. */
  ghost predicate Filled(l: Layout, s: State, m: nat) {
    && s.pc.Idle? && !s.committing && |s.lh| == m && |s.ops| == 3
    && (forall k :: 0 <= k < m ==> s.lh[k] == l.start + l.size + k)
    && (forall i :: 0 <= i < 3 ==> s.ops[i] == if m < i * MAXOPBLOCKS then 0
                                               else if m < (i + 1) * MAXOPBLOCKS then m - i * MAXOPBLOCKS
                                               else MAXOPBLOCKS)
  }

  /** Three system calls begun after a boot with an empty log. */
  lemma FillNone(l: Layout, base: Disk, d: Disk) returns (es: seq<Step>)
    requires InitOk(l, base, d) && HeadN(d[l.start]) == 0
    ensures IsRun(l, Boot(d), es) && Behaved(l, Boot(d), es) && Filled(l, End(l, Boot(d), es), 0)
  {
    es := [ReadHead, Erase, BeginOp, BeginOp, BeginOp];
    var s0 := Apply(l, Boot(d), ReadHead);
    var s1 := Apply(l, s0, Erase);
    var s2 := Apply(l, s1, BeginOp);
    var s3 := Apply(l, s2, BeginOp);
    var s4 := Apply(l, s3, BeginOp);
    assert es[1..][1..][1..][1..] == [BeginOp] && [BeginOp][1..] == [];
    assert IsRun(l, s3, [BeginOp]) && End(l, s3, [BeginOp]) == s4;
    assert IsRun(l, s2, es[1..][1..][1..]) && End(l, s2, es[1..][1..][1..]) == s4;
    assert IsRun(l, s1, es[1..][1..]) && End(l, s1, es[1..][1..]) == s4;
  }

  lemma FillOne(l: Layout, base: Disk, s: State, m: nat, v: Block) returns (e: Step)
    requires Inv(l, base, s) && Filled(l, s, m) && m + 1 <= LOGSIZE && m + 1 <= l.size - 1
    requires l.start + l.size + LOGSIZE <= l.total
    ensures WellSized(l, s) && Enabled(l, s, e) && e.LogWrite? && Within(s, e.i, e.b)
    ensures Filled(l, Apply(l, s, e), m + 1)
  {
    hide Durable, AtPc, Phased, Distinct;
    e := LogWrite(m / MAXOPBLOCKS, l.start + l.size + m, v);
  }

  lemma {:induction false} Fill(l: Layout, base: Disk, d: Disk, m: nat, v: Block) returns (es: seq<Step>)
    requires InitOk(l, base, d) && HeadN(d[l.start]) == 0
    requires m <= LOGSIZE && m <= l.size - 1 && l.start + l.size + LOGSIZE <= l.total
    ensures IsRun(l, Boot(d), es) && Behaved(l, Boot(d), es) && Filled(l, End(l, Boot(d), es), m)
    decreases m
  {
    hide Inv, Enabled, Apply, Filled, Within;
    if m == 0 {
      es := FillNone(l, base, d);
    } else {
      es := Fill(l, base, d, m - 1, v);
      var s := End(l, Boot(d), es);
      BootInv(l, base, d);
      RunKeeps(l, base, Boot(d), es);
      var e := FillOne(l, base, s, m - 1, v);
      assert [e][1..] == [] && [e][0] == e;
      RunConcat(l, Boot(d), es, [e]);
      BehavedConcat(l, Boot(d), es, [e]);
      es := es + [e];
    }
  }

  lemma InvSized(l: Layout, base: Disk, s: State)
    requires Inv(l, base, s)
    ensures WellSized(l, s)
  {
  }

  /**
   Whatever the size of the log area, there is a run within reservations that ends in front of a
   write within its reservation that panics. In an area of LOGSIZE blocks or fewer, as mkfs makes
   it, this is a new block; in a larger one, a block already in the log.
   */
  lemma EveryLogPanics(l: Layout, base: Disk, d: Disk, v: Block) returns (es: seq<Step>, i: nat, b: int)
    requires InitOk(l, base, d) && HeadN(d[l.start]) == 0 && l.start + l.size + LOGSIZE <= l.total
    ensures IsRun(l, Boot(d), es) && Behaved(l, Boot(d), es)
    ensures var s := End(l, Boot(d), es); Panics(l, s, i, b) && (b in s.lh <==> LOGSIZE < l.size)
  {
    hide IsRun, Behaved, Apply;
    var m := if LOGSIZE < l.size then LOGSIZE else l.size - 1;
    es := Fill(l, base, d, m, v);
    if LOGSIZE < l.size {
      i, b := 2, l.start + l.size;
      assert End(l, Boot(d), es).lh[0] == b;
    } else {
      i, b := m / MAXOPBLOCKS, l.start + l.size + m;
    }
  }

  /** No run within reservations reaches a panic at a block that is new to the log. */
  ghost predicate NewBlocksSafe(l: Layout, d: Disk) {
    forall es, i: nat, b :: IsRun(l, Boot(d), es) && Behaved(l, Boot(d), es) && b !in End(l, Boot(d), es).lh
      ==> !Panics(l, End(l, Boot(d), es), i, b)
  }

  /** New blocks within reservations are safe exactly in a log area larger than LOGSIZE. */
  lemma NewBlocksSafeIff(l: Layout, base: Disk, d: Disk)
    requires InitOk(l, base, d) && HeadN(d[l.start]) == 0
    requires l.start + l.size + LOGSIZE <= l.total
    ensures NewBlocksSafe(l, d) <==> LOGSIZE < l.size
  {
    hide IsRun, Behaved, Enabled, Apply, Within, TooBig;
    if LOGSIZE < l.size {
      forall es, i: nat, b | IsRun(l, Boot(d), es) && Behaved(l, Boot(d), es) && b !in End(l, Boot(d), es).lh
        ensures !Panics(l, End(l, Boot(d), es), i, b)
      {
        if Within(End(l, Boot(d), es), i, b) {
          PanicIffFull(l, base, d, es, i, b);
        }
      }
    } else {
      var es, i, b := EveryLogPanics(l, base, d, d[l.start]);
    }
  }
}
