/**
 proc.c's queues and scheduler as the code has them: three fixed arrays with `end` and
 `numOfProc`, and the process table fields they are about. Each method is proved against
 the value-level function of the same operation.
 */
module Scheduler {
  import opened Mlfq
  import opened MlfqTurns

  /** struct pqueue. One slot more than NPROC, because deleteQueue reads `queue[end]`. */
  class PQueue {
    const queue: array<int>
    const ticks: nat
    const priority: Level
    var end: int
    var numOfProc: int

    constructor (ticks: nat, priority: Level)
      ensures fresh(queue) && queue.Length == NPROC + 1 && end == numOfProc == 0
      ensures this.ticks == ticks && this.priority == priority
    {
      this.ticks, this.priority := ticks, priority;
      end, numOfProc := 0, 0;
      queue := new int[NPROC + 1](_ => 0);
    }

    /** Valid, but for an `end` that deleteQueue has moved below zero. */
    ghost predicate Sized()
      reads this
    {
      queue.Length == NPROC + 1 && end == numOfProc <= NPROC && ticks == SliceLen(priority)
    }

    ghost predicate Valid()
      reads this, queue
    {
      Sized() && 0 <= end
    }

    function Contents(): seq<int>
      requires Valid()
      reads this, queue
    {
      queue[..end]
    }

    method Append(p: int)
      requires Valid() && end < NPROC
      modifies this, queue
      ensures Valid() && Contents() == old(Contents()) + [p]
    {
      queue[end] := p;
      end := end + 1;
      numOfProc := numOfProc + 1;
    }

    method IndexOf(p: int) returns (i: int)
      requires Sized()
      ensures i == if end < 0 then 0 else FirstIndex(Contents(), p)
    {
      i := 0;
      while i < end
        invariant 0 <= i && (i == 0 || i <= end) && forall k :: 0 <= k < i ==> queue[k] != p
      {
        if queue[i] == p {
          break;
        }
        i := i + 1;
      }
    }

    /** deleteQueue's second loop: the entries after `i` move down by one. */
    method ShiftDown(i: int)
      requires Sized() && 0 <= i && (i <= end || i == 0)
      modifies queue
      ensures end <= 0 ==> queue[..] == old(queue[..])
      ensures forall k :: 0 <= k < i && k < end ==> queue[k] == old(queue[k])
      ensures forall k :: i <= k < end - 1 ==> queue[k] == old(queue[k + 1])
    {
      var firstFreeIndex := end;
      var j := i;
      while j < firstFreeIndex
        invariant i <= j && (j == i || j <= firstFreeIndex)
        invariant end <= 0 ==> queue[..] == old(queue[..])
        invariant forall k :: 0 <= k < i ==> k < queue.Length && queue[k] == old(queue[k])
        invariant forall k :: i <= k < j ==> queue[k] == old(queue[k + 1])
        invariant forall k :: j <= k <= end ==> queue[k] == old(queue[k])
      {
        queue[j] := queue[j + 1];
        j := j + 1;
      }
    }

    /** deleteQueue: find `p`, shift what follows down by one, and shrink even if `p` was not found. */
    method DeleteQueue(p: int)
      requires Sized()
      modifies this, queue
      ensures Sized() && end == old(end) - 1
      ensures if old(end) > 0 then Contents() == Remove(old(Contents()), p) else queue[..] == old(queue[..])
      ensures old(end) > 0 ==> OneLess(old(Contents()), p, Contents())
    {
      hide FirstIndex, Remove, OneLess;
      var i := IndexOf(p);
      ShiftDown(i);
      end := end - 1;
      numOfProc := numOfProc - 1;
      if end >= 0 {
        RemoveIs(old(Contents()), p, Contents());
        RemoveIsOneLess(old(Contents()), p);
      }
    }

    /** The swap at the end of returnProc. */
    method SwapWithFirst(i: int)
      requires Valid() && 0 <= i < end
      modifies queue
      ensures Valid() && Contents() == SwapFirst(old(Contents()), i) && Swapped(old(Contents()), Contents(), i)
    {
      if i != 0 {
        var p, temp := queue[i], queue[0];
        queue[i] := temp;
        queue[0] := p;
      }
    }

    method FindRunnable(state: array<ProcState>) returns (i: int)
      requires Valid() && state.Length == NPROC && AllSlots(Contents())
      ensures i == FirstRunnable(Contents(), state[..])
    {
      i := 0;
      while i < end
        invariant 0 <= i <= end && forall k :: 0 <= k < i ==> state[queue[k]] != RUNNABLE
      {
        assert IsSlot(Contents()[i]);
        if state[queue[i]] == RUNNABLE {
          break;
        }
        i := i + 1;
      }
    }
  }

  lemma RemoveIs(q: seq<int>, p: int, r: seq<int>)
    requires q != [] && |r| == |q| - 1
    requires forall k :: 0 <= k < FirstIndex(q, p) && k < |r| ==> r[k] == q[k]
    requires forall k :: FirstIndex(q, p) <= k < |r| ==> r[k] == q[k + 1]
    ensures r == Remove(q, p)
  {
    var i := FirstIndex(q, p);
    if i < |q| {
      assert r == q[..i] + q[i + 1..];
    } else {
      assert r == q[..|q| - 1];
    }
  }

  lemma NobodyQueued(s: Sys)
    requires s.q0 == s.q1 == s.q2 == [] && 0 < s.nextpid && |s.st| == |s.prio| == |s.ticks| == |s.pid| == NPROC
    requires forall p :: 0 <= p < NPROC ==> s.st[p] == UNUSED && s.prio[p] == 0
    ensures Wf(s) && Placed(s) && Everyone(s) == multiset{}
  {
    assert forall lv: Level :: Q(s, lv) == [];
  }

  class Table {
    const q0: PQueue
    const q1: PQueue
    const q2: PQueue
    const state: array<ProcState>
    const priority: array<int>
    const ticks: array<nat>
    const pid: array<nat>
    var nextpid: nat

    ghost predicate Separate()
      reads this
    {
      && q0 != q1 && q0 != q2 && q1 != q2
      && q0.queue != q1.queue && q0.queue != q2.queue && q1.queue != q2.queue
      && priority != q0.queue && priority != q1.queue && priority != q2.queue
      && ticks != pid
    }

    ghost predicate Valid()
      reads this, q0, q1, q2, q0.queue, q1.queue, q2.queue, state, priority, ticks, pid
    {
      && Separate()
      && q0.Valid() && q1.Valid() && q2.Valid()
      && q0.priority == 0 && q1.priority == 1 && q2.priority == 2
      && state.Length == priority.Length == ticks.Length == pid.Length == NPROC
      && Wf(Abs())
    }

    ghost function Abs(): Sys
      requires q0.Valid() && q1.Valid() && q2.Valid()
      reads this, q0, q1, q2, q0.queue, q1.queue, q2.queue, state, priority, ticks, pid
    {
      Sys(q0.Contents(), q1.Contents(), q2.Contents(), state[..], priority[..], ticks[..], pid[..], nextpid)
    }

    /** The queues as userinit sets them up, over an empty process table. */
    constructor ()
      ensures Valid() && Placed(Abs()) && Everyone(Abs()) == multiset{}
      ensures fresh(q0) && fresh(q1) && fresh(q2) && fresh(q0.queue) && fresh(q1.queue) && fresh(q2.queue)
      ensures fresh(state) && fresh(priority) && fresh(ticks) && fresh(pid)
    {
      q0 := new PQueue(1, 0);
      q1 := new PQueue(2, 1);
      q2 := new PQueue(8, 2);
      state := new ProcState[NPROC](_ => UNUSED);
      priority := new int[NPROC](_ => 0);
      ticks := new nat[NPROC](_ => 0);
      pid := new nat[NPROC](_ => 0);
      nextpid := 1;
      new;
      hide Placed, Everyone, Wf;
      NobodyQueued(Abs());
    }

    function At(lv: Level): PQueue {
      if lv == 0 then q0 else if lv == 1 then q1 else q2
    }

    method AddQueue(pq: PQueue, p: int)
      requires Valid() && IsSlot(p) && pq == At(pq.priority) && pq.end < NPROC
      modifies pq, pq.queue, ticks, priority
      ensures Valid() && Abs() == Add(old(Abs()), pq.priority, p)
    {
      pq.Append(p);
      ticks[p] := 0;
      priority[p] := pq.priority;
    }

    method DeleteQueue(pq: PQueue, p: int)
      requires Valid() && pq == At(pq.priority) && p in Q(Abs(), pq.priority)
      modifies pq, pq.queue
      ensures Valid() && Abs() == Delete(old(Abs()), pq.priority, p)
    {
      hide Remove, Wf, Everyone;
      ghost var s := Abs();
      DeleteWf(s, pq.priority, p);
      pq.DeleteQueue(p);
      assert pq != q0 ==> q0.Contents() == s.q0;
      assert pq != q1 ==> q1.Contents() == s.q1;
      assert pq != q2 ==> q2.Contents() == s.q2;
    }

    /** A queue entry taken out of `from` and put at the end of `to`. */
    method Requeued(from: PQueue, to: PQueue, p: int)
      requires Valid() && Placed(Abs()) && from == At(from.priority) && to == At(to.priority)
      requires p in Q(Abs(), from.priority)
      modifies from, from.queue, to, to.queue, ticks, priority
      ensures Valid() && Abs() == Relocate(old(Abs()), from.priority, to.priority, p)
      ensures IsSlot(p) && Moves(old(Abs()), Abs(), from.priority, to.priority, p)
    {
      hide Remove, PlacedBut, Moves;
      RelocateMoves(Abs(), from.priority, to.priority, p);
      RoomToMove(Abs(), from.priority, to.priority, p);
      DeleteQueue(from, p);
      AddQueue(to, p);
    }

    method Degrade(pq: PQueue, p: int)
      requires Valid() && Placed(Abs()) && pq == At(pq.priority) && p in Q(Abs(), pq.priority)
      modifies q0, q1, q2, q0.queue, q1.queue, q2.queue, ticks, priority
      ensures Valid()
      ensures Abs() == if pq.priority < 2 then Relocate(old(Abs()), pq.priority, pq.priority + 1, p) else old(Abs())
      ensures IsSlot(p) && (pq.priority < 2 ==> Moves(old(Abs()), Abs(), pq.priority, pq.priority + 1, p))
    {
      hide Relocate, PlacedBut, Moves;
      SlotIn(Abs(), pq.priority, p);
      if pq.priority == 0 {
        Requeued(q0, q1, p);
      } else if pq.priority == 1 {
        Requeued(q1, q2, p);
      }
    }

    method Boost(p: int)
      requires Valid() && Placed(Abs()) && p in Abs().q2
      modifies q0, q1, q2, q0.queue, q1.queue, q2.queue, ticks, priority
      ensures Valid() && Abs() == Relocate(old(Abs()), 2, 0, p)
      ensures IsSlot(p) && Moves(old(Abs()), Abs(), 2, 0, p)
    {
      hide Relocate, PlacedBut, Moves;
      Requeued(q2, q0, p);
    }

    method ReturnQueue() returns (pq: PQueue)
      requires Valid()
      ensures pq == At(TopLevel(Abs()))
      ensures forall lv: Level :: lv < pq.priority ==> NoneRunnable(Q(Abs(), lv), state[..])
      ensures NoneRunnable(pq.Contents(), state[..]) ==>
                pq == q0 && forall lv: Level :: NoneRunnable(Q(Abs(), lv), state[..])
    {
      var i := q0.FindRunnable(state);
      if i < q0.end {
        return q0;
      }
      i := q1.FindRunnable(state);
      if i < q1.end {
        return q1;
      }
      i := q2.FindRunnable(state);
      if i < q2.end {
        return q2;
      }
      return q0;
    }

    method ReturnProc() returns (p: int)
      requires Valid()
      modifies q0.queue, q1.queue, q2.queue
      ensures Valid() && Abs() == Select(old(Abs())).s && p == Select(old(Abs())).p
      ensures if p == NOBODY then Abs() == old(Abs()) && forall lv: Level :: NoneRunnable(Q(Abs(), lv), state[..])
              else exists lv: Level, i :: Chosen(old(Abs()), Abs(), lv, i, p)
    {
      hide HasRunnable, Everyone, SwapFirst, AllSlots, TopLevel, Chosen;
      SelectChosen(Abs());
      ghost var s := Abs();
      SelectKeepsEveryone(s);
      var pq := ReturnQueue();
      assert pq.Contents() == Q(s, TopLevel(s));
      if pq.numOfProc == 0 {
        return NOBODY;
      }
      var i := pq.FindRunnable(state);
      if i == pq.end {
        return NOBODY;
      }
      p := pq.queue[i];
      pq.SwapWithFirst(i);
      assert pq != q0 ==> q0.Contents() == s.q0;
      assert pq != q1 ==> q1.Contents() == s.q1;
      assert pq != q2 ==> q2.Contents() == s.q2;
    }

    /** The clean-up of a slot whose pid is still set: three deletions from level 0. */
    method Cleanup(p: int)
      requires Valid() && IsSlot(p)
      modifies q0, q0.queue
      ensures q0.Sized() && q0.end == old(q0.end) - (if pid[p] > 0 then 3 else 0)
      ensures 0 <= q0.end ==> Valid() && Abs() == Cleaned(old(Abs()), p)
    {
      hide Remove;
      ghost var s := Abs();
      if pid[p] > 0 {
        if 3 <= q0.end {
          CleanedWf(s, p);
          RemoveShrinks(s.q0, p);
          RemoveShrinks(Remove(s.q0, p), p);
        }
        q0.DeleteQueue(p);
        q0.DeleteQueue(p);
        q0.DeleteQueue(p);
      }
    }

    /** allocproc from the point where it has found a slot; !ok where addQueue stores outside the array. */
    method AllocProc(p: int) returns (ok: bool)
      requires Valid() && IsSlot(p)
      modifies this, q0, q0.queue, state, priority, ticks, pid
      ensures ok <==> AllocFits(old(Abs()), p)
      ensures ok ==> Valid() && Abs() == Alloc(old(Abs()), p)
      ensures state[..] == old(state[..])[p := EMBRYO] && pid[..] == old(pid[..])[p := old(nextpid)]
      ensures nextpid == old(nextpid) + 1 && priority[..] == old(priority[..])[p := 0]
      ensures !ok ==> q0.end == old(q0.end) - (if old(pid[p]) > 0 then 3 else 0) && !(0 <= q0.end < NPROC)
    {
      hide Remove, AllSlots, Cleaned;
      Cleanup(p);
      state[p] := EMBRYO;
      pid[p] := nextpid;
      nextpid := nextpid + 1;
      priority[p] := 0;
      ok := 0 <= q0.end < NPROC;
      if ok {
        AddQueue(q0, p);
      }
    }

    /** Something the rest of the kernel does while process `running` has the processor. */
    method Occur(e: Event, ghost running: int)
      requires Valid() && Placed(Abs()) && Legal(Abs(), e, running)
      modifies this, q0, q0.queue, state, priority, ticks, pid
      ensures Valid() && Abs() == Happen(old(Abs()), e) && IsSlot(e.p)
      ensures state[..] ==
                old(state[..])[e.p := match e case Fork(_) => EMBRYO case Move(_, x) => x case _ => UNUSED]
      ensures pid[..] == match e case Fork(p) => old(pid[..])[p := old(nextpid)]
                                 case Reap(p) => old(pid[..])[p := 0]
                                 case _ => old(pid[..])
    {
      hide Everyone, Ranked;
      match e
      case Fork(p) =>
        RoomFor(Abs(), 0, p);
        var ok := AllocProc(p);
      case Move(p, x) =>
        state[p] := x;
      case Reap(p) =>
        pid[p] := 0;
        state[p] := UNUSED;
      case Abort(p) =>
        state[p] := UNUSED;
    }

    /** From the switch to `p` until the switch back: events, then the state `p` comes back in. */
    method Swtch(p: int, t: Tick)
      requires Valid() && Placed(Abs()) && IsSlot(p) && LegalAll(Abs(), t.events, p)
      modifies this, q0, q0.queue, state, priority, ticks, pid
      ensures Valid()
      ensures var a := Happens(old(Abs()), t.events); Abs() == a.(st := a.st[p := t.back])
    {
      hide Everyone, Ranked, Legal, Happen;
      var k := 0;
      assert t.events[0..] == t.events;
      while k < |t.events|
        invariant 0 <= k <= |t.events| && Valid() && Placed(Abs())
        invariant LegalAll(Abs(), t.events[k..], p)
        invariant Happens(Abs(), t.events[k..]) == Happens(old(Abs()), t.events)
      {
        assert t.events[k..][0] == t.events[k] && t.events[k..][1..] == t.events[k + 1..];
        HappenKeeps(Abs(), t.events[k], p);
        Occur(t.events[k], p);
        k := k + 1;
      }
      state[p] := t.back;
    }

    /** The tick loop for the process at the head of `queue`. */
    method RunSlice(queue: PQueue, p: int, env: seq<Tick>) returns (ghost ran: nat)
      requires Valid() && Placed(Abs()) && IsSlot(p) && p in Everyone(Abs())
      requires queue.ticks <= |env| && LegalTicks(Abs(), p, queue.ticks, env)
      modifies this, q0, q0.queue, state, priority, ticks, pid
      ensures Valid() && Abs() == RunTicks(old(Abs()), p, queue.ticks, env)
      ensures ran <= queue.ticks && ticks[p] == old(ticks[p]) + ran && (ran < queue.ticks ==> state[p] != RUNNABLE)
      ensures state[p] == if ran == 0 then old(state[p]) else env[ran - 1].back
      ensures forall j :: 0 <= j < ran - 1 ==> env[j].back == RUNNABLE
    {
      hide Everyone, Ranked, LegalTick, RunTick;
      var count := 0;
      assert env[0..] == env;
      while state[p] == RUNNABLE && count < queue.ticks
        invariant 0 <= count <= queue.ticks && Valid() && Placed(Abs()) && p in Everyone(Abs())
        invariant LegalTicks(Abs(), p, queue.ticks - count, env[count..])
        invariant RunTicks(Abs(), p, queue.ticks - count, env[count..]) == RunTicks(old(Abs()), p, queue.ticks, env)
        invariant ticks[p] == old(ticks[p]) + count
        invariant state[p] == if count == 0 then old(state[p]) else env[count - 1].back
        invariant forall j :: 0 <= j < count - 1 ==> env[j].back == RUNNABLE
        decreases queue.ticks - count
      {
        assert env[count..][0] == env[count] && env[count..][1..] == env[count + 1..];
        OneTick(p, env[count]);
        count := count + 1;
      }
      ran := count;
    }

    /** One turn of that loop. */
    method OneTick(p: int, t: Tick)
      requires Valid() && Placed(Abs()) && IsSlot(p) && p in Everyone(Abs()) && state[p] == RUNNABLE
      requires LegalTick(Abs(), p, t)
      modifies this, q0, q0.queue, state, priority, ticks, pid
      ensures Valid() && Abs() == RunTick(old(Abs()), p, t)
      ensures state[p] == t.back && ticks[p] == old(ticks[p]) + 1
      ensures Placed(Abs()) && p in Everyone(Abs())
    {
      hide Everyone, Ranked, LegalAll, Happens;
      ghost var s := Abs();
      RunTickKeeps(s, p, t);
      SameQueues(s, Dispatched(s, p));
      state[p] := RUNNING;
      Swtch(p, t);
      ticks[p] := ticks[p] + 1;
    }

    /** What follows the tick loop. */
    method EndSlice(queue: PQueue, p: int)
      requires Valid() && Placed(Abs()) && queue == At(queue.priority) && p in Q(Abs(), queue.priority)
      modifies q0, q1, q2, q0.queue, q1.queue, q2.queue, ticks, priority
      ensures Valid() && Abs() == Requeue(old(Abs()), p, queue.priority)
      ensures IsSlot(p) && queue.priority == old(priority[p])
      ensures var s, lv: Level := old(Abs()), queue.priority;
              && (state[p] == SLEEPING ==> Moves(s, Abs(), lv, lv, p))
              && (state[p] == RUNNABLE && lv < 2 ==> Moves(s, Abs(), lv, lv + 1, p))
              && (state[p] == RUNNABLE && lv == 2 && old(ticks[p]) >= BOOST ==> Moves(s, Abs(), 2, 0, p))
              && (state[p] == RUNNABLE && lv == 2 && old(ticks[p]) < BOOST ==> Abs() == s)
              && (state[p] != RUNNABLE && state[p] != SLEEPING ==> Abs() == s)
    {
      hide Everyone, Ranked, Relocate, Moves;
      SlotOf(Abs(), queue.priority, p);
      RequeueMoves(Abs(), p, queue.priority);
      if state[p] == RUNNABLE && (priority[p] == 1 || priority[p] == 0) {
        Degrade(queue, p);
      } else if state[p] == RUNNABLE && priority[p] == 2 && ticks[p] >= BOOST {
        Boost(p);
      } else if state[p] == SLEEPING {
        Requeued(queue, queue, p);
      }
    }

    /** The body of the scheduler's loop for a process that returnProc has just chosen. */
    method Dispatch(p: int, env: seq<Tick>)
      requires Valid() && Placed(Abs()) && Select(Abs()) == Choice(Abs(), p) && p != NOBODY && LegalTurn(Abs(), env)
      modifies this, q0, q1, q2, q0.queue, q1.queue, q2.queue, state, priority, ticks, pid
      ensures Valid() && Abs() == Turn(old(Abs()), env)
    {
      hide Everyone, Ranked, Select, TopLevel, RunTicks, LegalTicks, Requeue, Turn, LegalTurn, Placed, Wf;
      SliceFacts(Abs(), p, env);
      var queue := ReturnQueue();
      ghost var ran := RunSlice(queue, p, env);
      EndSlice(queue, p);
    }

    /** One slot of the pass: `p` is dispatched if returnProc names it. */
    method Visit(p: int, env: seq<Tick>, ghost t: Sys) returns (dispatched: bool)
      requires Valid() && IsSlot(p) && Placed(t) && LegalTurn(t, env) && (Abs() == t || Abs() == Select(t).s)
      modifies this, q0, q1, q2, q0.queue, q1.queue, q2.queue, state, priority, ticks, pid
      ensures Valid() && dispatched == (Select(t).p == p)
      ensures Abs() == if dispatched then Turn(t, env) else Select(t).s
    {
      hide Everyone, Ranked, Select, Turn;
      SelectTwice(t);
      SelectKeepsPlaced(t);
      TurnAfterSelect(t, env);
      var chosen := ReturnProc();
      dispatched := p == chosen;
      if dispatched {
        Dispatch(p, env);
      }
    }

    /**
     One pass over the process table. `envs` says what happens during each dispatch; `d` of
     them take place. A pass that starts with a RUNNABLE process queued dispatches.
     */
    method Pass(envs: seq<seq<Tick>>) returns (d: nat)
      requires Valid() && Placed(Abs()) && NPROC <= |envs| && LegalTurns(Abs(), envs)
      modifies this, q0, q1, q2, q0.queue, q1.queue, q2.queue, state, priority, ticks, pid
      ensures Valid() && d <= NPROC && Placed(Turns(old(Abs()), envs, d))
      ensures Abs() == Turns(old(Abs()), envs, d) || Abs() == Select(Turns(old(Abs()), envs, d)).s
      ensures Select(old(Abs())).p != NOBODY ==> 1 <= d
    {
      hide Everyone, Ranked, Select, Turn, Turns, LegalTurn, LegalTurns, Placed, Wf, Passing;
      ghost var s := Abs();
      d := 0;
      var p := 0;
      PassingStart(s, envs);
      while p < NPROC
        invariant 0 <= d <= p <= NPROC && Valid() && Passing(s, envs, d, p, Abs())
      {
        PassingFacts(s, envs, d, p, Abs());
        var dispatched := Visit(p, envs[d], Turns(s, envs, d));
        PassingNext(s, envs, d, p, Abs(), dispatched);
        if dispatched {
          d := d + 1;
        }
        p := p + 1;
      }
      PassingFacts(s, envs, d, p, Abs());
    }
  }

  /** `d` dispatches have taken place and slot `p` is next. */
  ghost predicate Passing(s: Sys, envs: seq<seq<Tick>>, d: nat, p: int, cur: Sys) {
    && Wf(s) && Placed(s) && NPROC <= |envs| && LegalTurns(s, envs) && d <= p <= NPROC
    && Wf(Turns(s, envs, d)) && Placed(Turns(s, envs, d))
    && (cur == Turns(s, envs, d) || cur == Select(Turns(s, envs, d)).s)
    && (d == 0 && Select(s).p != NOBODY ==> p <= Select(s).p < NPROC)
  }

  lemma PassingStart(s: Sys, envs: seq<seq<Tick>>)
    requires Wf(s) && Placed(s) && NPROC <= |envs| && LegalTurns(s, envs)
    ensures Passing(s, envs, 0, 0, s)
  {
    hide Select, LegalTurns;
    SelectKeepsPlaced(s);
    TurnsNone(s, envs);
  }

  lemma PassingFacts(s: Sys, envs: seq<seq<Tick>>, d: nat, p: int, cur: Sys)
    requires Passing(s, envs, d, p, cur)
    ensures (forall i :: 0 <= i < |envs| ==> 8 <= |envs[i]|) && d <= |envs| && Wf(Turns(s, envs, d))
    ensures Placed(Turns(s, envs, d))
    ensures cur == Turns(s, envs, d) || cur == Select(Turns(s, envs, d)).s
    ensures p < NPROC ==> d < |envs| && LegalTurn(Turns(s, envs, d), envs[d])
    ensures p == NPROC && Wf(s) && Select(s).p != NOBODY ==> 1 <= d
  {
    hide Select, LegalTurn, Turn, Placed;
    TurnsNone(s, envs);
    if p < NPROC {
      TurnsNext(s, envs, d);
    }
  }

  lemma PassingNext(s: Sys, envs: seq<seq<Tick>>, d: nat, p: int, cur: Sys, dispatched: bool)
    requires exists before :: Passing(s, envs, d, p, before)
    requires p < NPROC && d < |envs| && (forall i :: 0 <= i < |envs| ==> 8 <= |envs[i]|) && Wf(Turns(s, envs, d))
    requires dispatched == (Select(Turns(s, envs, d)).p == p)
    requires cur == if dispatched then Turn(Turns(s, envs, d), envs[d]) else Select(Turns(s, envs, d)).s
    ensures Passing(s, envs, if dispatched then d + 1 else d, p + 1, cur)
  {
    hide Select, LegalTurn, Turn, Placed, LegalTurns, Turns;
    TurnsNone(s, envs);
    TurnsNext(s, envs, d);
    TurnsKeep(s, envs, d + 1);
  }

  /** What the body of the loop relies on once `p` is chosen. */
  lemma SliceFacts(s: Sys, p: int, env: seq<Tick>)
    requires Placed(s) && Select(s) == Choice(s, p) && p != NOBODY && LegalTurn(s, env)
    ensures IsSlot(p) && p in Everyone(s) && 8 <= |env|
    ensures var lv := TopLevel(s);
            && LegalTicks(s, p, SliceLen(lv), env)
            && Placed(RunTicks(s, p, SliceLen(lv), env)) && p in Q(RunTicks(s, p, SliceLen(lv), env), lv)
            && Turn(s, env) == Requeue(RunTicks(s, p, SliceLen(lv), env), p, lv)
  {
    hide Everyone, Ranked, Select, TopLevel, Requeue;
    SelectKeepsPlaced(s);
    var lv := TopLevel(s);
    RunTicksKeep(s, p, SliceLen(lv), env);
    StillThere(s, RunTicks(s, p, SliceLen(lv), env), p, Ran(s, p, SliceLen(lv), env), lv);
  }

  lemma CleanedWf(s: Sys, p: int)
    requires Wf(s) && IsSlot(p) && (s.pid[p] > 0 ==> 3 <= |s.q0|)
    ensures Wf(Cleaned(s, p))
  {
    if s.pid[p] > 0 {
      RemoveIn(s.q0, p);
      RemoveIn(Remove(s.q0, p), p);
      RemoveIn(Remove(Remove(s.q0, p), p), p);
    }
  }

  lemma RemoveIn(q: seq<int>, p: int)
    requires q != [] && AllSlots(q)
    ensures AllSlots(Remove(q, p)) && |Remove(q, p)| == |q| - 1
  {
  }

  lemma RoomToMove(s: Sys, from: Level, to: Level, p: int)
    requires Placed(s) && p in Q(s, from)
    ensures IsSlot(p) && |Q(Delete(s, from, p), to)| < NPROC
  {
    hide Remove, Ranked, Everyone;
    SlotOf(s, from, p);
    DeletePlaced(s, from, p);
    RoomFor(Delete(s, from, p), to, p);
  }
}
