/**
 The redo log of log.c as a protocol over single-block disk writes.

 A state holds the disk, the pinned (dirty) buffers of the buffer cache, the in-memory
 log header and the reservations of the system calls in progress. Every step writes at
 most one block, and a crash may come before any of them, recovery's own included.
 */
module LogProtocol {

  const MAXOPBLOCKS := 10
  const LOGSIZE := MAXOPBLOCKS * 3
  const BWORDS := 128

  /** A disk block, as 32-bit words. */
  datatype Block = Block(words: seq<int>) {
    predicate Sized() { |words| == BWORDS }
  }

  type Disk = seq<Block>

  /** Where the log lies: header block `start`, then `size - 1` blocks of log. */
  datatype Layout = Layout(start: nat, size: nat, total: nat) {
    ghost predicate Valid() { 1 <= size && start + size <= total }
    predicate Home(b: int) { 0 <= b < total && !(start <= b < start + size) }
  }

  // The header block.

  function HeadN(b: Block): int
    requires b.Sized()
  {
    b.words[0]
  }

  function HeadList(b: Block): seq<int>
    requires b.Sized()
  {
    if 0 <= b.words[0] <= LOGSIZE then b.words[1..1 + b.words[0]] else []
  }

  /** `write_head` overwrites the count and that many entries; the rest of the block stays. */
  function PutHead(b: Block, lh: seq<int>): Block
    requires b.Sized() && |lh| <= LOGSIZE
  {
    Block([|lh|] + lh + b.words[1 + |lh|..])
  }

  lemma HeadRoundTrip(b: Block, lh: seq<int>)
    requires b.Sized() && |lh| <= LOGSIZE
    ensures PutHead(b, lh).Sized() && HeadN(PutHead(b, lh)) == |lh| && HeadList(PutHead(b, lh)) == lh
  {
    var p := PutHead(b, lh);
    assert p.words == [|lh|] + (lh + b.words[1 + |lh|..]);
  }

  // States and steps.

  datatype Pc = Idle | WritingLog(k: nat) | WritingHead | Installing(k: nat, rec: bool) | Erasing(rec: bool)
              | Finishing | Booting

  datatype State = State(
    disk: Disk,
    dirty: map<int, Block>,
    lh: seq<int>,
    ops: seq<nat>,              // for each system call in progress, the log entries it has added
    committing: bool,
    pc: Pc,
    done: seq<map<int, Block>>, // history: the groups whose header has reached the disk
    pend: map<int, Block>)      // history: the blocks logged since the last such group

  datatype Step = BeginOp | LogWrite(i: nat, b: int, v: Block) | EndOp(i: nat)
                | WriteLog | WriteHead | Install | Erase | Finish | Crash | ReadHead

  /** What `bread` returns: the pinned buffer if there is one, else the disk block. */
  function Read(s: State, b: int): Block
    requires 0 <= b < |s.disk|
  {
    if b in s.dirty then s.dirty[b] else s.disk[b]
  }

  /** Writing a buffer to disk clears its B_DIRTY. */
  function Unpin(dirty: map<int, Block>, b: int): map<int, Block> { dirty - {b} }

  /** The test on which `log_write` panics. */
  predicate TooBig(l: Layout, s: State) { |s.lh| >= LOGSIZE || |s.lh| >= l.size - 1 }

  ghost predicate Enabled(l: Layout, s: State, e: Step) {
    match e
    case BeginOp => s.pc.Idle? && !s.committing && |s.lh| + (|s.ops| + 1) * MAXOPBLOCKS <= LOGSIZE
    case LogWrite(i, b, v) => s.pc.Idle? && i < |s.ops| && l.Home(b) && !TooBig(l, s)
    case EndOp(i) => s.pc.Idle? && i < |s.ops| && !s.committing
    case WriteLog => s.pc.WritingLog? && s.pc.k < |s.lh|
    case WriteHead => s.pc.WritingHead?
    case Install => s.pc.Installing? && s.pc.k < |s.lh|
    case Erase => s.pc.Erasing?
    case Finish => s.pc.Finishing?
    case Crash => true
    case ReadHead => s.pc.Booting?
  }

  ghost predicate WellSized(l: Layout, s: State) {
    && l.Valid()
    && |s.disk| == l.total && s.disk[l.start].Sized()
    && |s.lh| <= LOGSIZE && |s.lh| < l.size
    && forall k :: 0 <= k < |s.lh| ==> l.Home(s.lh[k])
  }

  function AfterInstall(lh: seq<int>, k: nat, rec: bool): Pc {
    if k < |lh| then Installing(k, rec) else Erasing(rec)
  }

  ghost function Apply(l: Layout, s: State, e: Step): State
    requires WellSized(l, s) && Enabled(l, s, e)
  {
    match e
    case BeginOp => s.(ops := s.ops + [0])
    case LogWrite(i, b, v) =>
      var absorbed := b in s.lh;
      s.(lh := if absorbed then s.lh else s.lh + [b],
         ops := if absorbed then s.ops else s.ops[i := s.ops[i] + 1],
         dirty := s.dirty[b := v],
         pend := s.pend[b := v])
    case EndOp(i) =>
      var ops := s.ops[..i] + s.ops[i + 1..];
      if ops == [] then s.(ops := ops, committing := true, pc := if s.lh == [] then Finishing else WritingLog(0))
      else s.(ops := ops)
    case WriteLog =>
      s.(disk := s.disk[l.start + s.pc.k + 1 := Read(s, s.lh[s.pc.k])],
         pc := if s.pc.k + 1 < |s.lh| then WritingLog(s.pc.k + 1) else WritingHead)
    case WriteHead =>
      s.(disk := s.disk[l.start := PutHead(s.disk[l.start], s.lh)],
         pc := AfterInstall(s.lh, 0, false), done := s.done + [s.pend], pend := map[])
    case Install =>
      s.(disk := s.disk[s.lh[s.pc.k] := s.disk[l.start + s.pc.k + 1]],
         dirty := Unpin(s.dirty, s.lh[s.pc.k]),
         pc := AfterInstall(s.lh, s.pc.k + 1, s.pc.rec))
    case Erase =>
      s.(disk := s.disk[l.start := PutHead(s.disk[l.start], [])], lh := [],
         pc := if s.pc.rec then Idle else Finishing)
    case Finish => s.(committing := false, pc := Idle)
    case Crash => Rebooted(s)
    case ReadHead =>
      var lh := HeadList(s.disk[l.start]);
      s.(lh := lh, pc := AfterInstall(lh, 0, true))
  }

  /** Only the disk survives a crash. */
  ghost function Rebooted(s: State): State {
    State(s.disk, map[], [], [], false, Booting, s.done, map[])
  }

  // What a disk means.

  ghost predicate Distinct(lh: seq<int>) {
    forall i, j :: 0 <= i < j < |lh| ==> lh[i] != lh[j]
  }

  ghost predicate HeaderOk(l: Layout, d: Disk) {
    && l.Valid() && |d| == l.total && d[l.start].Sized()
    && var lh := HeadList(d[l.start]);
       && HeadN(d[l.start]) == |lh| < l.size
       && Distinct(lh)
       && forall k :: 0 <= k < |lh| ==> l.Home(lh[k])
  }

  /** The contents home block `b` will have once recovery has run on `d`. */
  ghost predicate Recovers(l: Layout, d: Disk, b: int, v: Block)
    requires HeaderOk(l, d) && l.Home(b)
  {
    var lh := HeadList(d[l.start]);
    && (b !in lh ==> d[b] == v)
    && (forall k :: 0 <= k < |lh| && lh[k] == b ==> d[l.start + 1 + k] == v)
  }

  /** Home block `b` after the groups `done`, each applied as a whole, in order. */
  ghost function Value(base: Disk, done: seq<map<int, Block>>, b: int): Block
    requires 0 <= b < |base|
  {
    if done == [] then base[b]
    else if b in done[|done| - 1] then done[|done| - 1][b]
    else Value(base, done[..|done| - 1], b)
  }

  /** Recovery of the disk would give exactly the committed groups. */
  ghost predicate Durable(l: Layout, base: Disk, s: State) {
    && |base| == l.total && HeaderOk(l, s.disk)
    && forall b :: l.Home(b) ==> Recovers(l, s.disk, b, Value(base, s.done, b))
  }

  /** Log blocks `from..to` hold the pinned buffers. */
  ghost predicate Logged(l: Layout, s: State, from: nat, to: nat)
    requires WellSized(l, s) && to <= |s.lh|
  {
    forall k :: from <= k < to ==> s.lh[k] in s.dirty && s.disk[l.start + 1 + k] == s.dirty[s.lh[k]]
  }

  /** The first `n` log blocks have been copied home. */
  ghost predicate Installed(l: Layout, s: State, n: nat)
    requires WellSized(l, s) && n <= |s.lh|
  {
    forall k :: 0 <= k < n ==> s.disk[s.lh[k]] == s.disk[l.start + 1 + k]
  }

  ghost predicate KeysAre(m: map<int, Block>, lh: seq<int>) {
    forall b :: b in m <==> b in lh
  }

  ghost predicate AtPc(l: Layout, s: State)
    requires HeaderOk(l, s.disk) && WellSized(l, s)
  {
    var onDisk := HeadList(s.disk[l.start]);
    match s.pc
    case Idle => onDisk == [] && s.dirty == s.pend && KeysAre(s.dirty, s.lh)
    case WritingLog(k) =>
      onDisk == [] && s.dirty == s.pend && KeysAre(s.dirty, s.lh) && k < |s.lh| && Logged(l, s, 0, k)
    case WritingHead =>
      onDisk == [] && s.dirty == s.pend && KeysAre(s.dirty, s.lh) && s.lh != [] && Logged(l, s, 0, |s.lh|)
    case Installing(k, rec) =>
      && onDisk == s.lh && s.pend == map[] && k < |s.lh| && Installed(l, s, k)
      && KeysAre(s.dirty, if rec then [] else s.lh[k..]) && (rec || Logged(l, s, k, |s.lh|))
    case Erasing(rec) => onDisk == s.lh && s.pend == map[] && s.dirty == map[] && Installed(l, s, |s.lh|)
    case Finishing => onDisk == [] && s.pend == map[] && s.dirty == map[] && s.lh == []
    case Booting => s.pend == map[] && s.dirty == map[] && s.lh == []
  }

  /** The log entries that the system calls in progress may still add. */
  ghost function Unused(ops: seq<nat>): int {
    if ops == [] then 0 else MAXOPBLOCKS - ops[0] + Unused(ops[1..])
  }

  /** Nobody has added more than their reservation, and the rest of all reservations fits the header. */
  ghost predicate Reserved(s: State) {
    && (forall i :: 0 <= i < |s.ops| ==> s.ops[i] <= MAXOPBLOCKS)
    && |s.lh| + Unused(s.ops) <= LOGSIZE
  }

  /** A write within its call's reservation: to a block already in the log, or with room for one more. */
  ghost predicate Within(s: State, i: nat, b: int) {
    i < |s.ops| && (b in s.lh || s.ops[i] < MAXOPBLOCKS)
  }

  /** A commit runs alone, and recovery before any system call. */
  ghost predicate Phased(s: State) {
    && (!s.pc.Idle? ==> s.ops == [])
    && (s.committing <==> s.pc.WritingLog? || s.pc.WritingHead? || s.pc.Finishing?
                          || (s.pc.Installing? && !s.pc.rec) || (s.pc.Erasing? && !s.pc.rec))
  }

  ghost predicate Inv(l: Layout, base: Disk, s: State) {
    && WellSized(l, s) && Distinct(s.lh)
    && Durable(l, base, s)
    && AtPc(l, s)
    && Phased(s)
  }

  // Reservations.

  lemma UnusedConcat(a: seq<nat>, b: seq<nat>)
    ensures Unused(a + b) == Unused(a) + Unused(b)
  {
    if a == [] {
      assert a + b == b;
    } else {
      assert (a + b)[1..] == a[1..] + b;
      UnusedConcat(a[1..], b);
    }
  }

  lemma UnusedBounds(ops: seq<nat>)
    requires forall i :: 0 <= i < |ops| ==> ops[i] <= MAXOPBLOCKS
    ensures 0 <= Unused(ops) <= |ops| * MAXOPBLOCKS
  {
  }

  lemma UnusedSplit(ops: seq<nat>, i: nat)
    requires i < |ops| && forall i :: 0 <= i < |ops| ==> ops[i] <= MAXOPBLOCKS
    ensures Unused(ops) == Unused(ops[..i]) + (MAXOPBLOCKS - ops[i]) + Unused(ops[i + 1..])
    ensures Unused(ops[..i] + ops[i + 1..]) == Unused(ops) - (MAXOPBLOCKS - ops[i])
    ensures Unused(ops[i := ops[i] + 1]) == Unused(ops) - 1
    ensures MAXOPBLOCKS - ops[i] <= Unused(ops)
  {
    hide Unused;
    var a, c := ops[..i], ops[i + 1..];
    UnusedAround(a, ops[i], c);
    UnusedAround(a, ops[i] + 1, c);
    UnusedConcat(a, c);
    assert ops == a + ([ops[i]] + c) && ops[i := ops[i] + 1] == a + ([ops[i] + 1] + c);
    UnusedBounds(a);
    UnusedBounds(c);
  }

  lemma UnusedAround(a: seq<nat>, x: nat, c: seq<nat>)
    ensures Unused(a + ([x] + c)) == Unused(a) + (MAXOPBLOCKS - x) + Unused(c)
  {
    UnusedConcat(a, [x] + c);
    assert ([x] + c)[1..] == c;
  }

  // Every step keeps the invariant.

  lemma NoKeys(m: map<int, Block>)
    requires KeysAre(m, [])
    ensures m == map[]
  {
    forall b: int ensures b !in m {
      assert b in m <==> b in [];
    }
    assert m.Keys == {};
  }

  lemma KeysDrop(m: map<int, Block>, lh: seq<int>, k: nat)
    requires Distinct(lh) && k < |lh| && KeysAre(m, lh[k..])
    ensures KeysAre(Unpin(m, lh[k]), lh[k + 1..])
  {
    assert lh[k..] == [lh[k]] + lh[k + 1..];
    assert lh[k] !in lh[k + 1..];
  }

  lemma BeginOpKeeps(l: Layout, base: Disk, s: State)
    requires Inv(l, base, s) && Enabled(l, s, BeginOp)
    ensures Inv(l, base, Apply(l, s, BeginOp))
  {
  }

  lemma LogWriteKeeps(l: Layout, base: Disk, s: State, i: nat, b: int, v: Block)
    requires Inv(l, base, s) && Enabled(l, s, LogWrite(i, b, v))
    ensures Inv(l, base, Apply(l, s, LogWrite(i, b, v)))
  {
    var s' := Apply(l, s, LogWrite(i, b, v));
    assert Durable(l, base, s');
    assert KeysAre(s'.dirty, s'.lh);
  }

  lemma EndOpKeeps(l: Layout, base: Disk, s: State, i: nat)
    requires Inv(l, base, s) && Enabled(l, s, EndOp(i))
    ensures Inv(l, base, Apply(l, s, EndOp(i)))
  {
    hide Recovers, Value;
    if s.lh == [] {
      NoKeys(s.dirty);
    }
  }

  lemma WriteLogKeeps(l: Layout, base: Disk, s: State)
    requires Inv(l, base, s) && Enabled(l, s, WriteLog)
    ensures Inv(l, base, Apply(l, s, WriteLog))
  {
  }

  /** The commit point: this one block write turns the whole group durable. */
  lemma WriteHeadKeeps(l: Layout, base: Disk, s: State)
    requires Inv(l, base, s) && Enabled(l, s, WriteHead)
    ensures Inv(l, base, Apply(l, s, WriteHead))
  {
    hide Phased, Durable, AtPc, HeadList, PutHead, Recovers, Value, Distinct, HeaderOk;
    WriteHeadFrom(l, base, s);
    var s' := Apply(l, s, WriteHead);
    WriteHeadHeader(l, s);
    WriteHeadAtPc(l, s);
    assert Durable(l, base, s') by {
      forall b | l.Home(b) ensures Recovers(l, s'.disk, b, Value(base, s'.done, b)) {
        WriteHeadRecovers(l, base, s, b);
      }
      assert Durable(l, base, s') by { DurableIs(l, base, s'); }
    }
    assert Phased(s') by { WriteHeadPhased(l, s); }
  }

  lemma DurableIs(l: Layout, base: Disk, s: State)
    requires |base| == l.total && HeaderOk(l, s.disk)
    requires forall b :: l.Home(b) ==> Recovers(l, s.disk, b, Value(base, s.done, b))
    ensures Durable(l, base, s)
  {
    hide HeaderOk, Recovers, Value;
  }

  lemma WriteHeadFrom(l: Layout, base: Disk, s: State)
    requires Inv(l, base, s) && Enabled(l, s, WriteHead)
    ensures WellSized(l, s) && Distinct(s.lh) && HeaderOk(l, s.disk) && HeadList(s.disk[l.start]) == [] && s.lh != []
    ensures s.dirty == s.pend && KeysAre(s.dirty, s.lh) && Logged(l, s, 0, |s.lh|) && |base| == l.total && Phased(s)
    ensures forall b :: l.Home(b) ==> Recovers(l, s.disk, b, Value(base, s.done, b))
  {
    hide HeadList, Distinct, KeysAre, Logged, Recovers, Value, Phased;
  }

  lemma WriteHeadHeader(l: Layout, s: State)
    requires WellSized(l, s) && Distinct(s.lh) && Enabled(l, s, WriteHead)
    ensures var s' := Apply(l, s, WriteHead);
            WellSized(l, s') && HeaderOk(l, s'.disk) && HeadList(s'.disk[l.start]) == s.lh
  {
    hide Distinct, HeadList, PutHead;
    HeadRoundTrip(s.disk[l.start], s.lh);
  }

  lemma WriteHeadAtPc(l: Layout, s: State)
    requires WellSized(l, s) && Enabled(l, s, WriteHead) && s.lh != [] && KeysAre(s.dirty, s.lh)
    requires Logged(l, s, 0, |s.lh|)
    requires var s' := Apply(l, s, WriteHead);
             WellSized(l, s') && HeaderOk(l, s'.disk) && HeadList(s'.disk[l.start]) == s.lh
    ensures AtPc(l, Apply(l, s, WriteHead))
  {
    hide HeadList, PutHead, HeaderOk;
    assert s.lh[0..] == s.lh;
  }

  lemma WriteHeadPhased(l: Layout, s: State)
    requires WellSized(l, s) && Enabled(l, s, WriteHead) && Phased(s) && s.lh != []
    ensures Phased(Apply(l, s, WriteHead))
  {
    hide PutHead;
  }

  /** With the header written, each block of the group has its log copy as value, and the others theirs. */
  lemma WriteHeadRecovers(l: Layout, base: Disk, s: State, b: int)
    requires WellSized(l, s) && Enabled(l, s, WriteHead) && HeaderOk(l, s.disk) && HeadList(s.disk[l.start]) == []
    requires s.dirty == s.pend && KeysAre(s.dirty, s.lh) && Logged(l, s, 0, |s.lh|) && |base| == l.total
    requires l.Home(b) && Recovers(l, s.disk, b, Value(base, s.done, b))
    requires var s' := Apply(l, s, WriteHead); HeaderOk(l, s'.disk) && HeadList(s'.disk[l.start]) == s.lh
    ensures var s' := Apply(l, s, WriteHead); Recovers(l, s'.disk, b, Value(base, s'.done, b))
  {
    hide HeadList, PutHead, HeaderOk;
    var s' := Apply(l, s, WriteHead);
    assert s'.done[..|s.done|] == s.done && s'.done[|s.done|] == s.pend;
  }

  /** What an install step starts from. */
  lemma InstallFrom(l: Layout, base: Disk, s: State)
    requires Inv(l, base, s) && Enabled(l, s, Install)
    ensures WellSized(l, s) && Distinct(s.lh) && HeaderOk(l, s.disk) && HeadList(s.disk[l.start]) == s.lh
    ensures s.pc.Installing? && s.pc.k < |s.lh| && Installed(l, s, s.pc.k) && s.pend == map[]
    ensures KeysAre(s.dirty, if s.pc.rec then [] else s.lh[s.pc.k..]) && (s.pc.rec || Logged(l, s, s.pc.k, |s.lh|))
  {
    hide Phased, KeysAre, Logged, Installed, Distinct, HeadList, Recovers, Value;
  }

  /** Copying one block home leaves what recovery would give to `b`. */
  lemma InstallRecovers(l: Layout, s: State, b: int, v: Block)
    requires WellSized(l, s) && Enabled(l, s, Install) && HeaderOk(l, s.disk) && HeadList(s.disk[l.start]) == s.lh
    requires l.Home(b) && Recovers(l, s.disk, b, v)
    ensures HeaderOk(l, Apply(l, s, Install).disk) && Recovers(l, Apply(l, s, Install).disk, b, v)
  {
    hide HeadList, Distinct;
    var d := Apply(l, s, Install).disk;
    assert l.Home(s.lh[s.pc.k]) && d[l.start] == s.disk[l.start];
  }

  lemma InstallHeader(l: Layout, s: State)
    requires WellSized(l, s) && Enabled(l, s, Install) && HeaderOk(l, s.disk)
    ensures HeaderOk(l, Apply(l, s, Install).disk)
  {
    hide HeadList, Distinct;
    assert Apply(l, s, Install).disk[l.start] == s.disk[l.start];
  }

  lemma InstallDurable(l: Layout, base: Disk, s: State)
    requires Inv(l, base, s) && Enabled(l, s, Install)
    ensures Durable(l, base, Apply(l, s, Install))
  {
    hide Phased, AtPc, HeaderOk, HeadList, WellSized, Distinct, Recovers, Value, Installed, Logged, KeysAre;
    InstallFrom(l, base, s);
    var s' := Apply(l, s, Install);
    InstallHeader(l, s);
    forall b | l.Home(b) ensures Recovers(l, s'.disk, b, Value(base, s'.done, b)) {
      InstallRecovers(l, s, b, Value(base, s.done, b));
    }
  }

  lemma InstallShape(l: Layout, s: State)
    requires WellSized(l, s) && Distinct(s.lh) && Enabled(l, s, Install) && Installed(l, s, s.pc.k)
    ensures WellSized(l, Apply(l, s, Install)) && Apply(l, s, Install).disk[l.start] == s.disk[l.start]
    ensures Installed(l, Apply(l, s, Install), s.pc.k + 1)
    ensures Logged(l, s, s.pc.k, |s.lh|) ==> Logged(l, Apply(l, s, Install), s.pc.k + 1, |s.lh|)
  {
  }

  lemma InstallAtPc(l: Layout, base: Disk, s: State)
    requires Inv(l, base, s) && Enabled(l, s, Install) && HeaderOk(l, Apply(l, s, Install).disk)
    ensures AtPc(l, Apply(l, s, Install))
  {
    hide Inv, Durable, Phased, HeaderOk, Installed, Logged, Distinct, HeadList, KeysAre, WellSized, Apply, Unpin;
    hide Enabled;
    InstallFrom(l, base, s);
    InstallShape(l, s);
    InstallKeys(l, s);
    InstallEffect(l, s);
    var s' := Apply(l, s, Install);
    assert s'.lh == s.lh && s'.pend == s.pend && s'.pc == AfterInstall(s.lh, s.pc.k + 1, s.pc.rec);
  }

  lemma InstallEffect(l: Layout, s: State)
    requires WellSized(l, s) && Enabled(l, s, Install)
    ensures Apply(l, s, Install) == s.(disk := s.disk[s.lh[s.pc.k] := s.disk[l.start + s.pc.k + 1]],
                                       dirty := Unpin(s.dirty, s.lh[s.pc.k]),
                                       pc := AfterInstall(s.lh, s.pc.k + 1, s.pc.rec))
  {
    hide Unpin, AfterInstall;
  }

  /** The block copied home is no longer pinned. */
  lemma InstallKeys(l: Layout, s: State)
    requires WellSized(l, s) && Distinct(s.lh) && Enabled(l, s, Install)
    requires KeysAre(s.dirty, if s.pc.rec then [] else s.lh[s.pc.k..])
    ensures var s' := Apply(l, s, Install);
            && KeysAre(s'.dirty, if s.pc.rec then [] else s.lh[s.pc.k + 1..])
            && (s.pc.rec || s.pc.k + 1 == |s.lh| ==> s'.dirty == map[])
  {
    hide WellSized, Distinct, KeysAre;
    var s' := Apply(l, s, Install);
    if s.pc.rec {
      NoKeys(s.dirty);
      assert s'.dirty == s.dirty;
    } else {
      KeysDrop(s.dirty, s.lh, s.pc.k);
      if s.pc.k + 1 == |s.lh| {
        assert s.lh[s.pc.k + 1..] == [];
        NoKeys(s'.dirty);
      }
    }
  }

  lemma InstallKeeps(l: Layout, base: Disk, s: State)
    requires Inv(l, base, s) && Enabled(l, s, Install)
    ensures Inv(l, base, Apply(l, s, Install))
  {
    InstallDurable(l, base, s);
    InstallAtPc(l, base, s);
    hide Durable, AtPc;
  }

  lemma EraseKeeps(l: Layout, base: Disk, s: State)
    requires Inv(l, base, s) && Enabled(l, s, Erase)
    ensures Inv(l, base, Apply(l, s, Erase))
  {
    var s' := Apply(l, s, Erase);
    HeadRoundTrip(s.disk[l.start], []);
    forall b | l.Home(b) ensures Recovers(l, s'.disk, b, Value(base, s'.done, b)) {
      assert Recovers(l, s.disk, b, Value(base, s.done, b));
    }
  }

  lemma RestKeeps(l: Layout, base: Disk, s: State, e: Step)
    requires Inv(l, base, s) && Enabled(l, s, e) && (e.Finish? || e.Crash? || e.ReadHead?)
    ensures Inv(l, base, Apply(l, s, e))
  {
  }

  lemma StepKeeps(l: Layout, base: Disk, s: State, e: Step)
    requires Inv(l, base, s) && Enabled(l, s, e)
    ensures Inv(l, base, Apply(l, s, e))
  {
    hide Inv, Apply, Enabled;
    match e
    case BeginOp => BeginOpKeeps(l, base, s);
    case LogWrite(i, b, v) => LogWriteKeeps(l, base, s, i, b, v);
    case EndOp(i) => EndOpKeeps(l, base, s, i);
    case WriteLog => WriteLogKeeps(l, base, s);
    case WriteHead => WriteHeadKeeps(l, base, s);
    case Install => InstallKeeps(l, base, s);
    case Erase => EraseKeeps(l, base, s);
    case Finish => RestKeeps(l, base, s, e);
    case Crash => RestKeeps(l, base, s, e);
    case ReadHead => RestKeeps(l, base, s, e);
  }

  // Reservations are kept by writes that stay within them.

  lemma ReservedWrite(l: Layout, s: State, i: nat, b: int, v: Block)
    requires WellSized(l, s) && Reserved(s) && Enabled(l, s, LogWrite(i, b, v)) && Within(s, i, b)
    ensures Reserved(Apply(l, s, LogWrite(i, b, v)))
  {
    hide WellSized;
    UnusedSplit(s.ops, i);
  }

  lemma ReservedEnd(l: Layout, s: State, i: nat)
    requires WellSized(l, s) && Reserved(s) && Enabled(l, s, EndOp(i))
    ensures Reserved(Apply(l, s, EndOp(i)))
  {
    hide WellSized;
    UnusedSplit(s.ops, i);
  }

  lemma ReservedRest(l: Layout, s: State, e: Step)
    requires WellSized(l, s) && Phased(s) && Reserved(s) && Enabled(l, s, e) && !e.LogWrite? && !e.EndOp?
    ensures Reserved(Apply(l, s, e))
  {
    if e.BeginOp? {
      UnusedConcat(s.ops, [0]);
      UnusedBounds(s.ops);
    }
  }

  lemma ReservedKeeps(l: Layout, s: State, e: Step)
    requires WellSized(l, s) && Phased(s) && Reserved(s) && Enabled(l, s, e)
    requires e.LogWrite? ==> Within(s, e.i, e.b)
    ensures Reserved(Apply(l, s, e))
  {
    hide WellSized, Phased, Reserved, Enabled, Apply, Within;
    match e
    case LogWrite(i, b, v) => ReservedWrite(l, s, i, b, v);
    case EndOp(i) => ReservedEnd(l, s, i);
    case _ => ReservedRest(l, s, e);
  }

  /** The panic of log_write, whatever the sizes: the log is at its last entry. */
  lemma TooBigIff(l: Layout, s: State)
    requires WellSized(l, s)
    ensures TooBig(l, s) <==> |s.lh| == if LOGSIZE < l.size then LOGSIZE else l.size - 1
  {
  }
}
