/**
 pipe.c as a protocol. Each stretch of pipewrite, piperead and pipeclose between taking
 the pipe's lock and releasing it, or sleeping, is one step; any number of readers and
 writers may be between steps or asleep. Byte counters wrap around at 2^32.
 */
module PipeProtocol {
  import opened Counting

  const PIPESIZE := 512

  datatype Pipe = Pipe(
    data: seq<int>, nread: nat, nwrite: nat, readopen: bool, writeopen: bool,
    writers: set<int>,   // processes asleep on &p->nwrite
    readers: set<int>,   // processes asleep on &p->nread
    accepted: seq<int>,  // history: every byte put into the pipe
    taken: seq<int>)     // history: every byte read out of it

  predicate Full(s: Pipe) { s.nwrite == (s.nread + PIPESIZE) % WORD }
  predicate Empty(s: Pipe) { s.nread == s.nwrite }

  /** The counters are the byte totals modulo 2^32, and the ring holds exactly the bytes in between. */
  ghost predicate Fifo(s: Pipe) {
    && |s.data| == PIPESIZE
    && s.taken <= s.accepted && |s.accepted| - |s.taken| <= PIPESIZE
    && s.nread == |s.taken| % WORD && s.nwrite == |s.accepted| % WORD
    && forall k :: |s.taken| <= k < |s.accepted| ==> s.data[k % PIPESIZE] == s.accepted[k]
  }

  ghost function Count(s: Pipe): int { |s.accepted| - |s.taken| }

  lemma FifoFacts(s: Pipe)
    requires Fifo(s)
    ensures Full(s) <==> Count(s) == PIPESIZE
    ensures Empty(s) <==> Count(s) == 0
    ensures (s.nwrite - s.nread) % WORD == Count(s) && 0 <= Count(s) <= PIPESIZE
    ensures s.nwrite % PIPESIZE == |s.accepted| % PIPESIZE && s.nread % PIPESIZE == |s.taken| % PIPESIZE
    ensures |s.data| == PIPESIZE
  {
    WrapSlot(|s.accepted|);
    WrapSlot(|s.taken|);
    WrapDistance(|s.taken|, |s.accepted|);
    WrapDistance(|s.taken|, |s.taken| + PIPESIZE);
  }

  lemma WrapSlot(x: nat)
    ensures (x % WORD) % PIPESIZE == x % PIPESIZE
  {
    var q := x / WORD;
    assert x == WORD * q + x % WORD;
    assert WORD == PIPESIZE * 0x80_0000;
    MultipleSlot(0x80_0000 * q, x % WORD);
  }

  lemma MultipleSlot(m: nat, y: nat)
    ensures (PIPESIZE * m + y) % PIPESIZE == y % PIPESIZE
  {
  }

  /** Two totals less than 2^32 apart are told apart, and measured, by their remainders. */
  lemma WrapDistance(a: nat, b: nat)
    requires a <= b < a + WORD
    ensures (b % WORD - a % WORD) % WORD == b - a
    ensures a % WORD == b % WORD <==> a == b
    ensures b % WORD == (a % WORD + (b - a)) % WORD
  {
    var d := b - a;
    assert b % WORD == if a % WORD + d < WORD then a % WORD + d else a % WORD + d - WORD;
  }

  // Single bytes.

  function Push(s: Pipe, x: int): Pipe
    requires |s.data| == PIPESIZE
  {
    s.(data := s.data[s.nwrite % PIPESIZE := x], nwrite := (s.nwrite + 1) % WORD, accepted := s.accepted + [x])
  }

  function Pop(s: Pipe): Pipe
    requires |s.data| == PIPESIZE
  {
    s.(nread := (s.nread + 1) % WORD, taken := s.taken + [s.data[s.nread % PIPESIZE]])
  }

  lemma PushKeeps(s: Pipe, x: int)
    requires Fifo(s) && !Full(s)
    ensures Fifo(Push(s, x)) && Count(Push(s, x)) == Count(s) + 1
  {
    FifoFacts(s);
    WrapDistance(|s.accepted|, |s.accepted| + 1);
    var t := Push(s, x);
    forall k | |t.taken| <= k < |t.accepted| ensures t.data[k % PIPESIZE] == t.accepted[k] {
      if k < |s.accepted| {
        SlotsApart(k, |s.accepted|);
      }
    }
  }

  lemma SlotsApart(a: nat, b: nat)
    requires a < b < a + PIPESIZE
    ensures a % PIPESIZE != b % PIPESIZE
  {
  }

  lemma PopKeeps(s: Pipe)
    requires Fifo(s) && !Empty(s)
    ensures Fifo(Pop(s)) && Count(Pop(s)) == Count(s) - 1
  {
    FifoFacts(s);
    WrapDistance(|s.taken|, |s.taken| + 1);
    assert s.data[s.nread % PIPESIZE] == s.accepted[|s.taken|];
  }

  // Stretches of code that hold the lock.

  /** The copy loop of pipewrite: bytes go in until none is left or the pipe is full. */
  function PushAll(s: Pipe, bytes: seq<int>): Pipe
    requires |s.data| == PIPESIZE
    decreases |bytes|
  {
    if bytes == [] || Full(s) then s else PushAll(Push(s, bytes[0]), bytes[1..])
  }

  /** The copy loop of piperead. */
  function PopUpTo(s: Pipe, n: nat): Pipe
    requires |s.data| == PIPESIZE
    decreases n
  {
    if n == 0 || Empty(s) then s else PopUpTo(Pop(s), n - 1)
  }

  lemma {:induction false} PushAllKeeps(s: Pipe, bytes: seq<int>)
    requires Fifo(s)
    ensures var t, k := PushAll(s, bytes), Min(|bytes|, PIPESIZE - Count(s));
            Fifo(t) && t.accepted == s.accepted + bytes[..k]
            && t == s.(data := t.data, nwrite := t.nwrite, accepted := t.accepted)
    decreases |bytes|
  {
    hide Fifo, Push, Full;
    FifoFacts(s);
    if bytes != [] && !Full(s) {
      PushKeeps(s, bytes[0]);
      var u := Push(s, bytes[0]);
      PushAllKeeps(u, bytes[1..]);
      PushFields(s, bytes[0]);
      var k := Min(|bytes|, PIPESIZE - Count(s));
      assert bytes[..k] == [bytes[0]] + bytes[1..][..k - 1];
      assert s.accepted + bytes[..k] == u.accepted + bytes[1..][..k - 1];
    } else {
      assert s.accepted + bytes[..0] == s.accepted;
    }
  }

  lemma PushFields(s: Pipe, x: int)
    requires |s.data| == PIPESIZE
    ensures Push(s, x) == s.(data := Push(s, x).data, nwrite := Push(s, x).nwrite, accepted := s.accepted + [x])
  {
  }

  lemma {:induction false} PopUpToKeeps(s: Pipe, n: nat)
    requires Fifo(s)
    ensures var t, k := PopUpTo(s, n), Min(n, Count(s));
            Fifo(t) && |t.taken| == |s.taken| + k && s.taken <= t.taken && t == s.(nread := t.nread, taken := t.taken)
    decreases n
  {
    FifoFacts(s);
    hide Fifo, Empty;
    if n != 0 && !Empty(s) {
      PopKeeps(s);
      PopUpToKeeps(Pop(s), n - 1);
    }
  }

  datatype Step = Write(p: int, bytes: seq<int>, killed: bool) | Read(p: int, n: nat, killed: bool)
                | CloseWrite | CloseRead | Kill(p: int)

  /** All of `bytes` went in. */
  ghost predicate AllIn(s: Pipe, bytes: seq<int>) { |bytes| <= PIPESIZE - Count(s) }

  ghost predicate Enabled(s: Pipe, e: Step) {
    match e
    case Write(p, _, _) => s.writeopen && p !in s.writers && p !in s.readers
    case Read(p, _, _) => s.readopen && p !in s.writers && p !in s.readers
    case CloseWrite => s.writeopen && s.writers == {}
    case CloseRead => s.readopen && s.readers == {}
    case Kill(_) => true
  }

  ghost function Apply(s: Pipe, e: Step): Pipe
    requires |s.data| == PIPESIZE
  {
    match e
    case Write(p, bytes, killed) =>
      var t := PushAll(s, bytes);
      if AllIn(s, bytes) then t.(readers := {})
      else if !t.readopen || killed then t
      else t.(readers := {}, writers := t.writers + {p})
    case Read(p, n, killed) =>
      if Empty(s) && s.writeopen then
        if killed then s else s.(readers := s.readers + {p})
      else PopUpTo(s, n).(writers := {})
    case CloseWrite => s.(writeopen := false, readers := {})
    case CloseRead => s.(readopen := false, writers := {})
    case Kill(p) => s.(writers := s.writers - {p}, readers := s.readers - {p})
  }

  /** Sleeping writers have a reason to sleep, and nobody sleeps at an end that is closed. */
  ghost predicate Inv(s: Pipe) {
    && Fifo(s)
    && (s.writers != {} ==> Full(s) && s.readopen && s.writeopen)
    && (s.readers != {} ==> s.readopen)
  }

  /** Sleeping readers have a reason to sleep. */
  ghost predicate ReadersOk(s: Pipe) { s.readers != {} ==> Empty(s) && s.writeopen }

  lemma StepKeeps(s: Pipe, e: Step)
    requires Inv(s) && Enabled(s, e)
    ensures Inv(Apply(s, e)) && s.taken <= Apply(s, e).taken && s.accepted <= Apply(s, e).accepted
  {
    hide PushAll, PopUpTo;
    FifoFacts(s);
    match e
    case Write(p, bytes, killed) =>
      PushAllKeeps(s, bytes);
      FifoFacts(PushAll(s, bytes));
      hide Fifo;
    case Read(p, n, killed) =>
      PopUpToKeeps(s, n);
      FifoFacts(PopUpTo(s, n));
      hide Fifo;
    case CloseWrite =>
    case CloseRead =>
    case Kill(_) =>
  }

  /** What wakes a sleeping writer: a read that goes through, the closing of the read end, or a kill. */
  lemma WriterWakesIff(s: Pipe, e: Step, w: int)
    requires Inv(s) && Enabled(s, e) && w in s.writers
    ensures w !in Apply(s, e).writers <==> e.Read? || e.CloseRead? || e == Kill(w)
  {
    hide PushAll, PopUpTo;
    FifoFacts(s);
    if e.Write? {
      PushAllKeeps(s, e.bytes);
    }
  }

  /**
   What wakes a sleeping reader: a write that puts in all it has or sleeps itself, the closing of the
   write end, or a kill.
   */
  lemma ReaderWakesIff(s: Pipe, e: Step, r: int)
    requires Inv(s) && Enabled(s, e) && r in s.readers
    ensures r !in Apply(s, e).readers <==>
              (e.Write? && (AllIn(s, e.bytes) || !e.killed)) || e.CloseWrite? || e == Kill(r)
  {
    hide PushAll, PopUpTo;
    match e
    case Write(_, bytes, _) => PushAllKeeps(s, bytes);
    case Read(_, n, _) => PopUpToKeeps(s, n);
    case _ =>
  }

  /** A killed writer leaves readers asleep on a full pipe: it returns without waking them. */
  ghost predicate SkipsWakeup(s: Pipe, e: Step) {
    e.Write? && e.killed && |e.bytes| > PIPESIZE && s.readers != {}
  }

  /** Exactly such a step breaks the promise to sleeping readers. */
  lemma ReadersOkIff(s: Pipe, e: Step)
    requires Inv(s) && ReadersOk(s) && Enabled(s, e)
    ensures ReadersOk(Apply(s, e)) <==> !SkipsWakeup(s, e)
  {
    hide PushAll, PopUpTo;
    FifoFacts(s);
    match e
    case Write(p, bytes, killed) =>
      PushAllKeeps(s, bytes);
      FifoFacts(PushAll(s, bytes));
      hide Fifo;
    case Read(p, n, killed) =>
      PopUpToKeeps(s, n);
      FifoFacts(PopUpTo(s, n));
      hide Fifo;
    case CloseWrite =>
    case CloseRead =>
    case Kill(_) =>
  }

  // Runs.

  ghost predicate IsRun(s: Pipe, es: seq<Step>)
    decreases |es|
  {
    es == [] || (|s.data| == PIPESIZE && Enabled(s, es[0]) && IsRun(Apply(s, es[0]), es[1..]))
  }

  ghost function End(s: Pipe, es: seq<Step>): Pipe
    requires IsRun(s, es)
    decreases |es|
  {
    if es == [] then s else End(Apply(s, es[0]), es[1..])
  }

  /** No step of the run skips a wakeup. */
  ghost predicate Polite(s: Pipe, es: seq<Step>)
    requires IsRun(s, es)
    decreases |es|
  {
    es == [] || (!SkipsWakeup(s, es[0]) && Polite(Apply(s, es[0]), es[1..]))
  }

  /**
   In every run the bytes read are a prefix of the bytes written, the counters measure the
   difference modulo 2^32, and a sleeping writer means a full pipe with its read end open.
   */
  lemma {:induction false} PipeIsFifo(s: Pipe, es: seq<Step>)
    requires Inv(s) && IsRun(s, es)
    ensures var t := End(s, es);
            && t.taken <= t.accepted && s.taken <= t.taken && s.accepted <= t.accepted
            && 0 <= (t.nwrite - t.nread) % WORD == |t.accepted| - |t.taken| <= PIPESIZE
            && (t.writers != {} ==> Full(t) && t.readopen)
    decreases |es|
  {
    hide Enabled, Apply;
    if es == [] {
      FifoFacts(s);
    } else {
      StepKeeps(s, es[0]);
      PipeIsFifo(Apply(s, es[0]), es[1..]);
    }
  }

  /** In every run without such a step, a sleeping reader means an empty pipe with its write end open. */
  lemma {:induction false} ReadersAreNeeded(s: Pipe, es: seq<Step>)
    requires Inv(s) && ReadersOk(s) && IsRun(s, es) && Polite(s, es)
    ensures ReadersOk(End(s, es))
    decreases |es|
  {
    hide Enabled, Apply, ReadersOk, SkipsWakeup;
    if es != [] {
      StepKeeps(s, es[0]);
      ReadersOkIff(s, es[0]);
      ReadersAreNeeded(Apply(s, es[0]), es[1..]);
    }
  }

  /** From every empty open pipe with nobody asleep, a reader can be left asleep in front of a full pipe. */
  lemma ReaderStranded(s: Pipe, p: int, q: int, bytes: seq<int>) returns (es: seq<Step>)
    requires Inv(s) && Empty(s) && s.readopen && s.writeopen && s.readers == {} && s.writers == {}
    requires p != q && |bytes| > PIPESIZE
    ensures IsRun(s, es)
    ensures var t := End(s, es); !ReadersOk(t) && p in t.readers && Full(t) && t.writeopen
  {
    hide PushAll, PopUpTo, Fifo;
    var first, second := Read(p, 1, false), Write(q, bytes, true);
    es := [first, second];
    assert es[1..] == [second] && [second][1..] == [];
    FifoFacts(s);
    StepKeeps(s, first);
    var t := Apply(s, first);
    FifoFacts(t);
    PushAllKeeps(t, bytes);
    StepKeeps(t, second);
    FifoFacts(PushAll(t, bytes));
    assert IsRun(t, [second]) && End(t, [second]) == Apply(t, second);
  }
}
