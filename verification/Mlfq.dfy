/**
 The multi-level feedback queue of proc.c on values: which process a scheduler turn picks,
 what the turn does to the three queues, and what any sequence of turns keeps.

 Processes are slots of the process table. What happens while a process runs, and the
 state in which it comes back from swtch, is an input (`Tick`).
 */
module Mlfq {

  const NPROC := 64
  const BOOST := 50

  datatype ProcState = UNUSED | EMBRYO | SLEEPING | RUNNABLE | RUNNING | ZOMBIE

  datatype Sys = Sys(
    q0: seq<int>, q1: seq<int>, q2: seq<int>,
    st: seq<ProcState>, prio: seq<int>, ticks: seq<nat>, pid: seq<nat>, nextpid: nat)

  type Level = x: int | 0 <= x < 3 witness 0

  predicate IsSlot(p: int) { 0 <= p < NPROC }

  predicate AllSlots(q: seq<int>) { forall i :: 0 <= i < |q| ==> IsSlot(q[i]) }

  predicate Wf(s: Sys) {
    && |s.st| == |s.prio| == |s.ticks| == |s.pid| == NPROC && 0 < s.nextpid
    && AllSlots(s.q0) && AllSlots(s.q1) && AllSlots(s.q2)
  }

  function Q(s: Sys, lv: Level): seq<int> {
    if lv == 0 then s.q0 else if lv == 1 then s.q1 else s.q2
  }

  function SetQ(s: Sys, lv: Level, q: seq<int>): Sys {
    if lv == 0 then s.(q0 := q) else if lv == 1 then s.(q1 := q) else s.(q2 := q)
  }

  function SliceLen(lv: Level): nat { if lv == 0 then 1 else if lv == 1 then 2 else 8 }

  // Queue operations.

  function FirstIndex(q: seq<int>, p: int): (i: nat)
    ensures i <= |q| && (i < |q| ==> q[i] == p) && forall j :: 0 <= j < i ==> q[j] != p
  {
    if q == [] then 0 else if q[0] == p then 0 else
      var i := FirstIndex(q[1..], p);
      assert forall j :: 1 <= j < 1 + i ==> q[j] == q[1..][j - 1];
      1 + i
  }

  /** deleteQueue: the first occurrence of `p` goes; when there is none, the last entry does. */
  function Remove(q: seq<int>, p: int): seq<int>
    requires q != []
  {
    var i := FirstIndex(q, p);
    if i < |q| then q[..i] + q[i + 1..] else q[..|q| - 1]
  }

  function Add(s: Sys, lv: Level, p: int): Sys
    requires Wf(s) && IsSlot(p)
  {
    SetQ(s, lv, Q(s, lv) + [p]).(ticks := s.ticks[p := 0], prio := s.prio[p := lv])
  }

  function Delete(s: Sys, lv: Level, p: int): Sys
    requires Wf(s) && Q(s, lv) != []
  {
    SetQ(s, lv, Remove(Q(s, lv), p))
  }

  // Selection.

  function FirstRunnable(q: seq<int>, st: seq<ProcState>): (i: nat)
    requires |st| == NPROC && AllSlots(q)
    ensures i <= |q| && (i < |q| ==> st[q[i]] == RUNNABLE) && forall j :: 0 <= j < i ==> st[q[j]] != RUNNABLE
  {
    if q == [] then 0 else if st[q[0]] == RUNNABLE then 0 else
      var i := FirstRunnable(q[1..], st);
      assert forall j :: 1 <= j < 1 + i ==> q[j] == q[1..][j - 1];
      1 + i
  }

  predicate HasRunnable(q: seq<int>, st: seq<ProcState>)
    requires |st| == NPROC && AllSlots(q)
  {
    FirstRunnable(q, st) < |q|
  }

  /** returnQueue: the highest level with a RUNNABLE process, or level 0. */
  function TopLevel(s: Sys): Level
    requires Wf(s)
  {
    if HasRunnable(s.q0, s.st) then 0
    else if HasRunnable(s.q1, s.st) then 1
    else if HasRunnable(s.q2, s.st) then 2
    else 0
  }

  function SwapFirst(q: seq<int>, i: nat): seq<int>
    requires i < |q|
  {
    q[i := q[0]][0 := q[i]]
  }

  datatype Choice = Choice(s: Sys, p: int)

  const NOBODY := -1

  /** returnProc: the first RUNNABLE entry of that level, moved to the front by a swap. */
  function Select(s: Sys): Choice
    requires Wf(s)
  {
    var lv := TopLevel(s);
    var q := Q(s, lv);
    var i := FirstRunnable(q, s.st);
    if i < |q| then Choice(SetQ(s, lv, SwapFirst(q, i)), q[i]) else Choice(s, NOBODY)
  }

  ghost function Everyone(s: Sys): multiset<int> {
    multiset(s.q0) + multiset(s.q1) + multiset(s.q2)
  }

  lemma SwapFirstKeeps(q: seq<int>, i: nat)
    requires i < |q|
    ensures multiset(SwapFirst(q, i)) == multiset(q)
    ensures SwapFirst(q, i)[0] == q[i] && |SwapFirst(q, i)| == |q|
  {
  }

  lemma SelectKeepsEveryone(s: Sys)
    requires Wf(s)
    ensures Wf(Select(s).s) && Everyone(Select(s).s) == Everyone(s)
    ensures forall lv: Level :: multiset(Q(Select(s).s, lv)) == multiset(Q(s, lv))
  {
    hide HasRunnable, SwapFirst, FirstRunnable, TopLevel, AllSlots;
    var lv := TopLevel(s);
    var i := FirstRunnable(Q(s, lv), s.st);
    if i < |Q(s, lv)| {
      SwapFirstKeeps(Q(s, lv), i);
      SwapFirstSlots(Q(s, lv), i);
    }
  }

  lemma SwapFirstSlots(q: seq<int>, i: nat)
    requires i < |q| && AllSlots(q)
    ensures AllSlots(SwapFirst(q, i))
  {
  }

  /** The process chosen is RUNNABLE, from the highest level that has one; nobody is chosen only if nobody is. */
  lemma SelectPicksHighest(s: Sys)
    requires Wf(s)
    ensures var c := Select(s);
            if c.p == NOBODY then
              forall lv: Level, i :: 0 <= i < |Q(s, lv)| ==> s.st[Q(s, lv)[i]] != RUNNABLE
            else
              && IsSlot(c.p) && s.st[c.p] == RUNNABLE && Q(c.s, TopLevel(s)) != [] && Q(c.s, TopLevel(s))[0] == c.p
              && forall lv: Level, i :: lv < TopLevel(s) && 0 <= i < |Q(s, lv)| ==> s.st[Q(s, lv)[i]] != RUNNABLE
  {
  }

  ghost predicate NoneRunnable(q: seq<int>, st: seq<ProcState>)
    requires |st| == NPROC && AllSlots(q)
  {
    forall i :: 0 <= i < |q| ==> st[q[i]] != RUNNABLE
  }

  /**
   From `s` to `t` the first RUNNABLE entry of queue `lv`, which is `p` at position `i`, changes places with the entry
   in front, and nothing else changes; no higher queue has a RUNNABLE entry.
   */
  ghost predicate Chosen(s: Sys, t: Sys, lv: Level, i: nat, p: int)
    requires Wf(s)
  {
    && i < |Q(s, lv)| && Q(s, lv)[i] == p && s.st[p] == RUNNABLE && NoneRunnable(Q(s, lv)[..i], s.st)
    && (forall l: Level :: l < lv ==> NoneRunnable(Q(s, l), s.st))
    && Swapped(Q(s, lv), Q(t, lv), i) && (forall l: Level :: l != lv ==> Q(t, l) == Q(s, l))
    && t == s.(q0 := t.q0, q1 := t.q1, q2 := t.q2)
  }

  /** The choice in full; if nobody is chosen, nobody queued is RUNNABLE and nothing changes. */
  lemma SelectChosen(s: Sys)
    requires Wf(s)
    ensures var c := Select(s);
            if c.p == NOBODY then c.s == s && forall lv: Level :: NoneRunnable(Q(s, lv), s.st)
            else exists lv: Level, i: nat :: Chosen(s, c.s, lv, i, c.p)
  {
    hide SwapFirst;
    var lv := TopLevel(s);
    var i := FirstRunnable(Q(s, lv), s.st);
    if i < |Q(s, lv)| {
      SwapFirstIs(Q(s, lv), i);
      assert Chosen(s, Select(s).s, lv, i, Select(s).p);
    }
  }

  /** `r` is `q` with the entries at 0 and `i` exchanged. */
  ghost predicate Swapped(q: seq<int>, r: seq<int>, i: nat)
    requires i < |q|
  {
    |r| == |q| && r[0] == q[i] && r[i] == q[0] && forall k :: 0 < k < |q| && k != i ==> r[k] == q[k]
  }

  lemma SwapFirstIs(q: seq<int>, i: nat)
    requires i < |q|
    ensures Swapped(q, SwapFirst(q, i), i)
  {
  }

  lemma SwapRunnable(q: seq<int>, st: seq<ProcState>)
    requires |st| == NPROC && AllSlots(q) && HasRunnable(q, st)
    ensures var r := SwapFirst(q, FirstRunnable(q, st));
            AllSlots(r) && r != [] && FirstRunnable(r, st) == 0 && SwapFirst(r, 0) == r
  {
    var r := SwapFirst(q, FirstRunnable(q, st));
    assert st[r[0]] == RUNNABLE;
  }

  /** A second call finds the same process already in front. */
  lemma SelectTwice(s: Sys)
    requires Wf(s)
    ensures Wf(Select(s).s) && Select(Select(s).s) == Select(s) && TopLevel(Select(s).s) == TopLevel(s)
  {
    hide SwapFirst, FirstRunnable, AllSlots, Everyone;
    SelectKeepsEveryone(s);
    SelectPicksHighest(s);
    if Select(s).p != NOBODY {
      SwapRunnable(Q(s, TopLevel(s)), s.st);
    }
  }

  // A turn of the scheduler.

  datatype Event = Fork(p: int) | Move(p: int, x: ProcState) | Reap(p: int) | Abort(p: int)

  /** What happens during one tick, and the state in which the running process comes back. */
  datatype Tick = Tick(events: seq<Event>, back: ProcState)

  /** allocproc's clean-up for a slot whose pid was left set. */
  function Cleaned(s: Sys, p: int): Sys
    requires Wf(s) && IsSlot(p) && (s.pid[p] > 0 ==> 3 <= |s.q0|)
  {
    if s.pid[p] > 0 then s.(q0 := Remove(Remove(Remove(s.q0, p), p), p)) else s
  }

  /** allocproc: claims the slot and puts it at the end of level 0. */
  function Alloc(s: Sys, p: int): Sys
    requires Wf(s) && IsSlot(p) && (s.pid[p] > 0 ==> 3 <= |s.q0|)
  {
    Cleaned(s, p).(q0 := Cleaned(s, p).q0 + [p], ticks := s.ticks[p := 0], prio := s.prio[p := 0],
                   st := s.st[p := EMBRYO], pid := s.pid[p := s.nextpid], nextpid := s.nextpid + 1)
  }

  /** addQueue's store in allocproc falls inside level 0's array. */
  predicate AllocFits(s: Sys, p: int)
    requires Wf(s) && IsSlot(p)
  {
    (s.pid[p] > 0 ==> 3 <= |s.q0|) && |Cleaned(s, p).q0| < NPROC
  }

  /** Events that the rest of the kernel can cause while process `running` holds the processor. */
  ghost predicate Legal(s: Sys, e: Event, running: int)
    requires Wf(s)
  {
    && IsSlot(e.p) && e.p != running
    && match e
       case Fork(p) => s.st[p] == UNUSED && s.pid[p] == 0 && p !in Everyone(s)
       case Move(p, x) => s.st[p] != UNUSED && x != UNUSED
       case Reap(p) => s.st[p] == ZOMBIE
       case Abort(p) => s.st[p] == EMBRYO
  }

  function Happen(s: Sys, e: Event): (r: Sys)
    requires Wf(s)
    ensures Wf(r)
  {
    if !IsSlot(e.p) then s else
      match e
      case Fork(p) => if s.pid[p] == 0 then Alloc(s, p) else s
      case Move(p, x) => s.(st := s.st[p := x])
      case Reap(p) => s.(st := s.st[p := UNUSED], pid := s.pid[p := 0])
      case Abort(p) => s.(st := s.st[p := UNUSED])
  }

  /** The entries of every queue have that queue's priority. */
  ghost predicate Ranked(s: Sys)
    requires Wf(s)
  {
    forall lv: Level, p :: p in Q(s, lv) ==> s.prio[p] == lv
  }

  /** Everybody allocated is in exactly one queue, the one its priority names, except that `out` is in none. */
  ghost predicate PlacedBut(s: Sys, out: int) {
    && Wf(s) && Ranked(s)
    && (forall p :: Everyone(s)[p] <= 1)
    && (forall p :: IsSlot(p) && s.st[p] != UNUSED && p != out ==> p in Everyone(s))
    && out !in Everyone(s)
  }

  /** Every allocated process is in exactly one queue, the one its priority names. */
  ghost predicate Placed(s: Sys) { PlacedBut(s, NOBODY) }

  lemma RemoveEveryone(q: seq<int>, p: int)
    requires p in q
    ensures multiset(Remove(q, p)) == multiset(q) - multiset{p}
    ensures |Remove(q, p)| == |q| - 1
    ensures forall x :: x in Remove(q, p) ==> x in q
    ensures forall k :: 0 <= k < |Remove(q, p)| ==> Remove(q, p)[k] in q
  {
    var i := FirstIndex(q, p);
    assert i < |q|;
    assert q == q[..i] + [q[i]] + q[i + 1..];
  }

  lemma RemoveShrinks(q: seq<int>, p: int)
    requires q != []
    ensures |Remove(q, p)| == |q| - 1
  {
  }

  lemma InOneQueue(s: Sys, lv: Level, p: int)
    requires Wf(s)
    ensures multiset(Q(s, lv))[p] <= Everyone(s)[p]
    ensures p in Q(s, lv) <==> 0 < multiset(Q(s, lv))[p]
    ensures p in Everyone(s) <==> p in s.q0 || p in s.q1 || p in s.q2
    ensures p in Everyone(s) ==> IsSlot(p)
  {
  }

  // What each operation keeps.

  /** deleteQueue then addQueue: `p` moves to the end of `to` with its ticks cleared. */
  function Relocate(s: Sys, from: Level, to: Level, p: int): Sys
    requires Wf(s) && p in Q(s, from)
  {
    DeleteWf(s, from, p);
    Add(Delete(s, from, p), to, p)
  }

  lemma DeleteWf(s: Sys, lv: Level, p: int)
    requires Wf(s) && p in Q(s, lv)
    ensures Wf(Delete(s, lv, p)) && IsSlot(p) && Everyone(Delete(s, lv, p)) == Everyone(s) - multiset{p}
  {
    hide Remove;
    RemoveEveryone(Q(s, lv), p);
    var q := Remove(Q(s, lv), p);
    assert forall k :: 0 <= k < |q| ==> q[k] in Q(s, lv);
    assert p in multiset(Q(s, lv));
  }

  lemma DeletePlaced(s: Sys, lv: Level, p: int)
    requires Placed(s) && p in Q(s, lv)
    ensures PlacedBut(Delete(s, lv, p), p) && Everyone(Delete(s, lv, p)) == Everyone(s) - multiset{p}
  {
    hide Remove, Everyone;
    var d := Delete(s, lv, p);
    DeleteWf(s, lv, p);
    RemoveEveryone(Q(s, lv), p);
    forall l: Level, x | x in Q(d, l) ensures d.prio[x] == l {
      assert x in Q(s, l);
    }
  }

  lemma AddEveryone(s: Sys, lv: Level, p: int)
    requires Wf(s) && IsSlot(p)
    ensures Wf(Add(s, lv, p)) && Everyone(Add(s, lv, p)) == Everyone(s) + multiset{p}
  {
    assert multiset(Q(s, lv) + [p]) == multiset(Q(s, lv)) + multiset{p};
    assert AllSlots(Q(s, lv) + [p]);
    hide AllSlots;
  }

  lemma AddRanked(s: Sys, lv: Level, p: int)
    requires Wf(s) && IsSlot(p) && Ranked(s) && p !in Everyone(s)
    ensures Wf(Add(s, lv, p)) && Ranked(Add(s, lv, p))
  {
    hide Everyone;
    AddEveryone(s, lv, p);
    var s' := Add(s, lv, p);
    forall l: Level, x | x in Q(s', l) ensures s'.prio[x] == l {
      InOneQueue(s, l, p);
      if l != lv {
        assert Q(s', l) == Q(s, l);
      } else if x != p {
        assert x in Q(s, l);
      }
    }
  }

  lemma AddPlaced(s: Sys, lv: Level, p: int)
    requires PlacedBut(s, p) && IsSlot(p)
    ensures Placed(Add(s, lv, p)) && Everyone(Add(s, lv, p)) == Everyone(s) + multiset{p}
  {
    hide Everyone, Ranked;
    AddEveryone(s, lv, p);
    AddRanked(s, lv, p);
    InOneQueue(Add(s, lv, p), lv, NOBODY);
  }

  lemma RelocateKeeps(s: Sys, from: Level, to: Level, p: int)
    requires Placed(s) && p in Q(s, from)
    ensures Placed(Relocate(s, from, to, p)) && Everyone(Relocate(s, from, to, p)) == Everyone(s)
    ensures p in Q(Relocate(s, from, to, p), to) && IsSlot(p)
    ensures Relocate(s, from, to, p).ticks == s.ticks[p := 0] && Relocate(s, from, to, p).prio == s.prio[p := to]
    ensures Relocate(s, from, to, p).st == s.st
  {
    hide Remove, Everyone, Ranked;
    SlotOf(s, from, p);
    DeleteWf(s, from, p);
    DeletePlaced(s, from, p);
    AddPlaced(Delete(s, from, p), to, p);
  }

  /**
   `t` is `s` with `p` taken out of queue `from`, where the others keep their order, and put behind
   everybody in queue `to`, with no ticks used there; nothing else differs.
   */
  ghost predicate Moves(s: Sys, t: Sys, from: Level, to: Level, p: int)
    requires Wf(s) && IsSlot(p)
  {
    exists i :: 0 <= i < |Q(s, from)| && Q(s, from)[i] == p && MovesAt(s, t, from, to, i)
  }

  ghost predicate MovesAt(s: Sys, t: Sys, from: Level, to: Level, i: nat)
    requires Wf(s) && i < |Q(s, from)| && IsSlot(Q(s, from)[i])
  {
    var q, p := Q(s, from), Q(s, from)[i];
    && (if from == to then Q(t, to) == q[..i] + q[i + 1..] + [p]
        else Q(t, from) == q[..i] + q[i + 1..] && Q(t, to) == Q(s, to) + [p])
    && (forall l: Level :: l != from && l != to ==> Q(t, l) == Q(s, l))
    && t == s.(q0 := t.q0, q1 := t.q1, q2 := t.q2, ticks := s.ticks[p := 0], prio := s.prio[p := to])
  }

  lemma RemoveIndex(q: seq<int>, p: int) returns (i: nat)
    requires p in q
    ensures i < |q| && q[i] == p && Remove(q, p) == q[..i] + q[i + 1..]
  {
    i := FirstIndex(q, p);
  }

  /** deleteQueue: `r` is `q` without the first entry of `p` or, if there is none, without the last entry. */
  ghost predicate OneLess(q: seq<int>, p: int, r: seq<int>)
    requires q != []
  {
    if p in q then exists i :: 0 <= i < |q| && q[i] == p && p !in q[..i] && r == q[..i] + q[i + 1..]
    else r == q[..|q| - 1]
  }

  lemma RemoveIsOneLess(q: seq<int>, p: int)
    requires q != []
    ensures OneLess(q, p, Remove(q, p))
  {
    var i := FirstIndex(q, p);
    assert i < |q| ==> p !in q[..i];
  }

  lemma RelocateMoves(s: Sys, from: Level, to: Level, p: int)
    requires Wf(s) && p in Q(s, from)
    ensures IsSlot(p) && Moves(s, Relocate(s, from, to, p), from, to, p)
  {
    hide Everyone, AllSlots, Remove, FirstIndex;
    DeleteWf(s, from, p);
    var i := RemoveIndex(Q(s, from), p);
    var q, t := Q(s, from), Relocate(s, from, to, p);
    assert from == to ==> Q(t, to) == Remove(q, p) + [p];
    assert from != to ==> Q(t, from) == Remove(q, p) && Q(t, to) == Q(s, to) + [p];
    assert MovesAt(s, t, from, to, i);
  }

  lemma SlotOf(s: Sys, lv: Level, p: int)
    requires Placed(s) && p in Q(s, lv)
    ensures IsSlot(p) && p in Everyone(s) && s.prio[p] == lv
    ensures Everyone(s) - multiset{p} + multiset{p} == Everyone(s)
  {
    hide Everyone;
    InOneQueue(s, lv, p);
  }

  lemma ForkKeeps(s: Sys, p: int)
    requires Placed(s) && IsSlot(p) && s.pid[p] == 0 && p !in Everyone(s)
    ensures Placed(Alloc(s, p)) && Everyone(Alloc(s, p)) == Everyone(s) + multiset{p}
  {
    hide Everyone, Ranked;
    var t := s.(st := s.st[p := EMBRYO], pid := s.pid[p := s.nextpid], nextpid := s.nextpid + 1);
    SameQueues(s, t);
    assert PlacedBut(t, p);
    AddPlaced(t, 0, p);
  }

  lemma HappenKeeps(s: Sys, e: Event, running: int)
    requires Placed(s) && Legal(s, e, running)
    ensures Placed(Happen(s, e))
    ensures Everyone(Happen(s, e)) == Everyone(s) + if e.Fork? then multiset{e.p} else multiset{}
    ensures s.q0 <= Happen(s, e).q0 && Happen(s, e).q1 == s.q1 && Happen(s, e).q2 == s.q2
    ensures IsSlot(running) ==>
              Happen(s, e).ticks[running] == s.ticks[running] && Happen(s, e).prio[running] == s.prio[running]
  {
    hide Everyone, Ranked;
    if e.Fork? {
      ForkKeeps(s, e.p);
    } else {
      SameQueues(s, Happen(s, e));
    }
  }

  lemma SameQueues(s: Sys, t: Sys)
    requires Wf(s) && Wf(t) && t.q0 == s.q0 && t.q1 == s.q1 && t.q2 == s.q2 && t.prio == s.prio
    ensures Everyone(t) == Everyone(s) && (Ranked(t) <==> Ranked(s))
  {
    assert forall lv: Level :: Q(t, lv) == Q(s, lv);
  }

  /** What is queued besides `p`. */
  function Others(m: multiset<int>, p: int): multiset<int> { m[p := 0] }

  /** deleteQueue takes one entry of `p`, or else one of somebody else. */
  lemma RemoveOthers(q: seq<int>, p: int)
    requires q != []
    ensures Others(multiset(Remove(q, p)), p) <= Others(multiset(q), p)
    ensures |Others(multiset(Remove(q, p)), p)| == |Others(multiset(q), p)| - (if p in q then 0 else 1)
    ensures multiset(Remove(q, p))[p] == if p in q then multiset(q)[p] - 1 else 0
  {
    if p in q {
      RemoveEveryone(q, p);
      assert Others(multiset(Remove(q, p)), p) == Others(multiset(q), p);
    } else {
      var n := |q| - 1;
      assert q == q[..n] + [q[n]] && Remove(q, p) == q[..n];
      assert Others(multiset(q), p) == multiset(q[..n]) + multiset{q[n]};
      assert Others(multiset(q[..n]), p) == multiset(q[..n]);
    }
  }

  /** Three deletions in a row. */
  lemma CleanedOthers(s: Sys, p: int)
    requires Wf(s) && IsSlot(p) && s.pid[p] > 0 && 3 <= |s.q0|
    ensures var q, r := multiset(s.q0), multiset(Cleaned(s, p).q0);
            Others(r, p) <= Others(q, p) && |Others(r, p)| == |Others(q, p)| - (if q[p] >= 3 then 0 else 3 - q[p])
  {
    hide Remove, AllSlots, Others;
    var q1 := Remove(s.q0, p);
    RemoveShrinks(s.q0, p);
    RemoveShrinks(q1, p);
    RemoveOthers(s.q0, p);
    RemoveOthers(q1, p);
    RemoveOthers(Remove(q1, p), p);
  }

  /**
   The clean-up deletes from level 0 three times. So two processes that are not `p` are lost if `p` is
   queued there, and three if it is not.
   */
  lemma CleanupLosesProcesses(s: Sys, p: int)
    requires Wf(s) && IsSlot(p) && s.pid[p] > 0 && 3 <= |s.q0|
    ensures |Everyone(Alloc(s, p))| == |Everyone(s)| - 2 && !(Everyone(s) <= Everyone(Alloc(s, p)))
    ensures Others(Everyone(Alloc(s, p)), p) <= Others(Everyone(s), p)
    ensures multiset(s.q0)[p] <= 1 ==>
              |Others(Everyone(Alloc(s, p)), p)| == |Others(Everyone(s), p)| - (if p in s.q0 then 2 else 3)
  {
    hide Remove, AllSlots;
    RemoveShrinks(s.q0, p);
    RemoveShrinks(Remove(s.q0, p), p);
    RemoveShrinks(Remove(Remove(s.q0, p), p), p);
    SubSize(Everyone(s), Everyone(Alloc(s, p)));
    CleanedOthers(s, p);
    var q, r, rest := multiset(s.q0), multiset(Cleaned(s, p).q0), multiset(s.q1) + multiset(s.q2);
    assert Others(Everyone(s), p) == Others(q, p) + Others(rest, p);
    assert Others(Everyone(Alloc(s, p)), p) == Others(r, p) + Others(rest, p);
  }

  lemma SubSize(a: multiset<int>, b: multiset<int>)
    ensures a <= b ==> |a| <= |b|
  {
    if a <= b {
      assert b == a + (b - a);
    }
  }

  lemma {:induction false} DistinctSize(q: seq<int>, n: nat)
    requires forall i :: 0 <= i < |q| ==> 0 <= q[i] < n
    requires forall x :: multiset(q)[x] <= 1
    ensures |q| <= n
    decreases n
  {
    hide Remove;
    if n == 0 {
      assert q == [];
    } else if n - 1 in q {
      RemoveEveryone(q, n - 1);
      var r := Remove(q, n - 1);
      forall i | 0 <= i < |r| ensures 0 <= r[i] < n - 1 {
        assert r[i] in q && r[i] in multiset(r);
      }
      DistinctSize(r, n - 1);
    } else {
      DistinctSize(q, n - 1);
    }
  }

  /** Every queue has room for a process that is in none. */
  lemma RoomFor(s: Sys, lv: Level, p: int)
    requires Wf(s) && (forall x :: Everyone(s)[x] <= 1) && p !in Everyone(s) && IsSlot(p)
    ensures |Q(s, lv)| < NPROC
  {
    hide Ranked;
    var q := Q(s, lv) + [p];
    forall x ensures multiset(q)[x] <= 1 {
      InOneQueue(s, lv, x);
    }
    DistinctSize(q, NPROC);
  }

  /**
   allocproc stays inside its array and keeps every process queued exactly once precisely when the slot it takes has
   no queue entry left over and no pid left set.
   */
  lemma AllocKeepsIff(s: Sys, p: int)
    requires Placed(s) && IsSlot(p) && s.st[p] == UNUSED
    ensures AllocFits(s, p) && Placed(Alloc(s, p)) && Everyone(s) <= Everyone(Alloc(s, p)) <==>
              s.pid[p] == 0 && p !in Everyone(s)
  {
    hide Ranked, Remove;
    if s.pid[p] > 0 {
      if 3 <= |s.q0| {
        CleanupLosesProcesses(s, p);
      }
    } else if p !in Everyone(s) {
      RoomFor(s, 0, p);
      ForkKeeps(s, p);
    } else {
      assert Everyone(Alloc(s, p)) == Everyone(s) + multiset{p};
      assert Everyone(Alloc(s, p))[p] == 2;
    }
  }

  /** A process that exits and is reaped leaves its queue entry behind, so its slot cannot be reused soundly. */
  lemma ReapedSlotStaysQueued(s: Sys, p: int)
    requires Placed(s) && IsSlot(p) && s.st[p] == ZOMBIE
    ensures var r := Happen(s, Reap(p)); r.st[p] == UNUSED && r.pid[p] == 0 && !Placed(Alloc(r, p))
  {
    var r := Happen(s, Reap(p));
    HappenKeeps(s, Reap(p), NOBODY);
    assert Everyone(Alloc(r, p)) == Everyone(r) + multiset{p};
    assert Everyone(Alloc(r, p))[p] == 2;
  }
}
