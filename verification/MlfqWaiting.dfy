/**
 How long a process waits for its turn when the processes on the queues are always ready
 and nobody joins or leaves: exactly `Wait` ticks, never more than 59 for each of the others.
 */
module MlfqWaiting {
  import opened Mlfq
  import opened MlfqTurns

  /** Eight ticks during which nothing happens. */
  ghost function Quiet(): (env: seq<Tick>)
    ensures |env| == 8 && forall k :: 0 <= k < |env| ==> env[k] == Tick([], RUNNABLE)
  {
    seq(8, _ => Tick([], RUNNABLE))
  }

  ghost predicate Closed(s: Sys) {
    && Placed(s)
    && Everyone(s) != multiset{}
    && forall p :: p in Everyone(s) ==> IsSlot(p) && s.st[p] == RUNNABLE
  }

  ghost function ClosedTurn(s: Sys): Sys
    requires Closed(s)
  {
    Turn(s, Quiet())
  }

  /** The state after the ticks of one undisturbed slice. */
  lemma {:induction false} RunTicksUndisturbed(s: Sys, p: int, n: nat, env: seq<Tick>)
    requires Wf(s) && IsSlot(p) && s.st[p] == RUNNABLE && n <= |env|
    requires forall k :: 0 <= k < |env| ==> env[k] == Tick([], RUNNABLE)
    ensures RunTicks(s, p, n, env) == s.(ticks := s.ticks[p := s.ticks[p] + n])
    ensures LegalTicks(s, p, n, env)
    decreases n
  {
    var t := RunTick(s, p, Tick([], RUNNABLE));
    assert s.st[p := RUNNING][p := RUNNABLE] == s.st;
    assert t == s.(ticks := s.ticks[p := s.ticks[p] + 1]);
    if n == 0 {
      assert s.ticks[p := s.ticks[p] + 0] == s.ticks;
    } else {
      RunTicksUndisturbed(t, p, n - 1, env[1..]);
      assert t.ticks[p := t.ticks[p] + (n - 1)] == s.ticks[p := s.ticks[p] + n];
    }
  }

  lemma AllReady(s: Sys, q: seq<int>)
    requires Closed(s) && (q == s.q0 || q == s.q1 || q == s.q2)
    ensures forall i :: 0 <= i < |q| ==> s.st[q[i]] == RUNNABLE
    ensures HasRunnable(q, s.st) <==> q != []
    ensures q != [] ==> FirstRunnable(q, s.st) == 0
  {
    forall i | 0 <= i < |q| ensures s.st[q[i]] == RUNNABLE {
      assert q[i] in multiset(q);
      assert q[i] in Everyone(s);
    }
  }

  /** The head of the first non-empty queue is chosen, and the queues stay as they are. */
  lemma ClosedSelect(s: Sys)
    requires Closed(s)
    ensures TopLevel(s) == if s.q0 != [] then 0 else if s.q1 != [] then 1 else 2
    ensures Q(s, TopLevel(s)) != [] && Select(s) == Choice(s, Q(s, TopLevel(s))[0])
    ensures IsSlot(Select(s).p) && s.st[Select(s).p] == RUNNABLE
  {
    hide Everyone, Ranked, HasRunnable, SwapFirst;
    AllReady(s, s.q0);
    AllReady(s, s.q1);
    AllReady(s, s.q2);
    SomeQueue(s);
    SwapNothing(Q(s, TopLevel(s)));
  }

  lemma SwapNothing(q: seq<int>)
    requires q != []
    ensures SwapFirst(q, 0) == q
  {
  }

  lemma SomeQueue(s: Sys)
    requires Everyone(s) != multiset{}
    ensures s.q0 != [] || s.q1 != [] || s.q2 != []
  {
  }

  lemma RemoveHead(q: seq<int>)
    requires q != []
    ensures Remove(q, q[0]) == q[1..]
  {
  }

  /** A turn among ready processes, queue by queue. */
  ghost function Rotated(s: Sys): Sys
    requires Wf(s) && (s.q0 != [] || s.q1 != [] || s.q2 != [])
  {
    if s.q0 != [] then
      var p := s.q0[0];
      s.(q0 := s.q0[1..], q1 := s.q1 + [p], ticks := s.ticks[p := 0], prio := s.prio[p := 1])
    else if s.q1 != [] then
      var p := s.q1[0];
      s.(q1 := s.q1[1..], q2 := s.q2 + [p], ticks := s.ticks[p := 0], prio := s.prio[p := 2])
    else
      var p := s.q2[0];
      if s.ticks[p] + 8 >= BOOST then
        s.(q2 := s.q2[1..], q0 := [p], ticks := s.ticks[p := 0], prio := s.prio[p := 0])
      else
        s.(ticks := s.ticks[p := s.ticks[p] + 8])
  }

  lemma RequeueRotates(s: Sys, t: Sys, lv: Level)
    requires Placed(s) && Q(s, lv) != [] && (lv > 0 ==> s.q0 == []) && (lv > 1 ==> s.q1 == [])
    requires var p := Q(s, lv)[0];
             IsSlot(p) && s.st[p] == RUNNABLE && s.prio[p] == lv
             && t == s.(ticks := s.ticks[p := s.ticks[p] + SliceLen(lv)])
    ensures Q(s, lv)[0] in Q(t, lv) && Requeue(t, Q(s, lv)[0], lv) == Rotated(s)
  {
    hide Everyone, Ranked, Remove;
    var p := Q(s, lv)[0];
    RemoveHead(Q(s, lv));
    assert t.ticks[p := 0] == s.ticks[p := 0];
  }

  lemma ClosedTurnRotates(s: Sys)
    requires Closed(s)
    ensures LegalTurn(s, Quiet())
    ensures s.q0 != [] || s.q1 != [] || s.q2 != []
    ensures ClosedTurn(s) == Rotated(s)
  {
    hide Select, TopLevel, Everyone, Ranked, Requeue, Rotated, RunTicks, AllSlots;
    ClosedSelect(s);
    var p, lv := Select(s).p, TopLevel(s);
    RunTicksUndisturbed(s, p, SliceLen(lv), Quiet());
    SlotOf(s, lv, p);
    RequeueRotates(s, RunTicks(s, p, SliceLen(lv), Quiet()), lv);
  }

  lemma ClosedStays(s: Sys)
    requires Closed(s)
    ensures Closed(ClosedTurn(s)) && Everyone(ClosedTurn(s)) == Everyone(s)
  {
    hide Everyone, Ranked, Turn, Select, TopLevel;
    ClosedTurnRotates(s);
    TurnKeeps(s, Quiet());
    ClosedSelect(s);
    NobodyBorn(s, Select(s).p, SliceLen(TopLevel(s)), Quiet());
    assert Rotated(s).st == s.st;
  }

  lemma {:induction false} NobodyBorn(s: Sys, p: int, n: nat, env: seq<Tick>)
    requires Wf(s) && IsSlot(p) && n <= |env|
    requires forall k :: 0 <= k < |env| ==> env[k].events == []
    ensures Born(s, p, n, env) == multiset{}
    decreases n
  {
    if s.st[p] == RUNNABLE && 0 < n {
      NobodyBorn(RunTick(s, p, env[0]), p, n - 1, env[1..]);
    }
  }

  // The waiting time.

  /** Ticks that the head of level 2 still runs before it is boosted: whole slices of 8. */
  ghost function Remaining(t: nat): nat {
    if t >= BOOST - 8 then 8 else 8 * ((BOOST + 7 - t) / 8)
  }

  /** Ticks taken by the first `i` processes of level 2 until each is back behind the others. */
  ghost function Ahead(q: seq<int>, ticks: seq<nat>, i: nat): nat
    requires |ticks| == NPROC && AllSlots(q) && i <= |q|
  {
    if i == 0 then 0 else Remaining(ticks[q[0]]) + 3 + Ahead(q[1..], ticks, i - 1)
  }

  /** Ticks until `p` is next chosen. */
  ghost function Wait(s: Sys, p: int): nat
    requires Wf(s) && p in Everyone(s)
  {
    if p in s.q0 then FirstIndex(s.q0, p)
    else if p in s.q1 then |s.q0| + 2 * FirstIndex(s.q1, p)
    else 3 * |s.q0| + 2 * |s.q1| + Ahead(s.q2, s.ticks, FirstIndex(s.q2, p))
  }

  lemma {:induction false} AheadFrame(q: seq<int>, r: seq<int>, ticks: seq<nat>, ticks': seq<nat>, i: nat)
    requires |ticks| == |ticks'| == NPROC && AllSlots(q) && AllSlots(r) && i <= |q| && i <= |r|
    requires forall j :: 0 <= j < i ==> q[j] == r[j] && ticks[q[j]] == ticks'[r[j]]
    ensures Ahead(q, ticks, i) == Ahead(r, ticks', i)
    decreases i
  {
    if i > 0 {
      AheadFrame(q[1..], r[1..], ticks, ticks', i - 1);
    }
  }

  lemma {:induction false} AheadBound(q: seq<int>, ticks: seq<nat>, i: nat)
    requires |ticks| == NPROC && AllSlots(q) && i <= |q|
    ensures Ahead(q, ticks, i) <= CYCLE * i
    decreases i
  {
    if i > 0 {
      AheadBound(q[1..], ticks, i - 1);
    }
  }

  /** Nobody waits more than 59 ticks for each of the other processes. */
  lemma WaitBound(s: Sys, p: int)
    requires Wf(s) && p in Everyone(s)
    ensures Wait(s, p) <= CYCLE * (|Everyone(s)| - 1)
  {
    InOneQueue(s, 2, p);
    if p !in s.q0 && p !in s.q1 {
      AheadBound(s.q2, s.ticks, FirstIndex(s.q2, p));
    }
  }

  lemma TailIndex(q: seq<int>, p: int)
    requires p in q && q[0] != p
    ensures p in q[1..] && FirstIndex(q, p) == 1 + FirstIndex(q[1..], p)
  {
  }

  lemma AppendIndex(q: seq<int>, x: int, p: int)
    requires p in q
    ensures p in q + [x] && FirstIndex(q + [x], p) == FirstIndex(q, p)
  {
    var i := FirstIndex(q + [x], p);
    assert (q + [x])[FirstIndex(q, p)] == p;
  }

  /** The queues hold distinct processes. */
  lemma HeadOnce(s: Sys, lv: Level, x: int)
    requires Placed(s) && Q(s, lv) != [] && x == Q(s, lv)[0]
    ensures x !in Q(s, lv)[1..] && forall l: Level :: l != lv ==> x !in Q(s, l)
  {
    assert Q(s, lv) == [x] + Q(s, lv)[1..];
    assert multiset(Q(s, lv))[x] == 1 + multiset(Q(s, lv)[1..])[x];
    assert Everyone(s)[x] <= 1;
  }

  /** When level 0 has processes, each turn brings `p` one tick closer. */
  lemma Wait0(s: Sys, p: int)
    requires Placed(s) && p in Everyone(s) && s.q0 != [] && s.q0[0] != p
    ensures var t := Rotated(s); Wf(t) && p in Everyone(t) && Wait(s, p) == 1 + Wait(t, p)
  {
    hide Ranked, Everyone, FirstIndex, Remaining;
    var x, t := s.q0[0], Rotated(s);
    HeadOnce(s, 0, x);
    InOneQueue(s, 0, p);
    if p in s.q0 {
      TailIndex(s.q0, p);
    } else if p in s.q1 {
      AppendIndex(s.q1, x, p);
    } else {
      assert p !in s.q1 + [x] && x !in Q(s, 2);
      assert forall j :: 0 <= j < |s.q2| ==> s.q2[j] in s.q2;
      AheadFrame(s.q2, t.q2, s.ticks, t.ticks, FirstIndex(s.q2, p));
    }
    InOneQueue(t, 0, p);
  }

  lemma Wait1(s: Sys, p: int)
    requires Placed(s) && p in Everyone(s) && s.q0 == [] && s.q1 != [] && s.q1[0] != p
    ensures var t := Rotated(s); Wf(t) && p in Everyone(t) && Wait(s, p) == 2 + Wait(t, p)
  {
    hide Ranked, Everyone, FirstIndex, Remaining;
    var x, t := s.q1[0], Rotated(s);
    HeadOnce(s, 1, x);
    InOneQueue(s, 1, p);
    if p in s.q1 {
      TailIndex(s.q1, p);
    } else {
      AppendIndex(s.q2, x, p);
      assert p !in s.q1[1..] && x !in Q(s, 2);
      assert forall j :: 0 <= j < |s.q2| ==> s.q2[j] in s.q2;
      AheadFrame(s.q2, t.q2, s.ticks, t.ticks, FirstIndex(s.q2, p));
    }
    InOneQueue(t, 1, p);
  }

  lemma Wait2Boost(s: Sys, p: int)
    requires Placed(s) && p in Everyone(s) && s.q0 == [] && s.q1 == [] && s.q2 != [] && s.q2[0] != p
    requires s.ticks[s.q2[0]] + 8 >= BOOST
    ensures var t := Rotated(s); Wf(t) && p in Everyone(t) && Wait(s, p) == 8 + Wait(t, p)
  {
    hide Ranked;
    var t := Rotated(s);
    HeadOnce(s, 2, s.q2[0]);
    InOneQueue(s, 2, p);
    TailIndex(s.q2, p);
    AheadFrame(s.q2[1..], t.q2, s.ticks, t.ticks, FirstIndex(s.q2[1..], p));
    InOneQueue(t, 2, p);
  }

  lemma Wait2Stay(s: Sys, p: int)
    requires Placed(s) && p in Everyone(s) && s.q0 == [] && s.q1 == [] && s.q2 != [] && s.q2[0] != p
    requires s.ticks[s.q2[0]] + 8 < BOOST
    ensures var t := Rotated(s); Wf(t) && p in Everyone(t) && Wait(s, p) == 8 + Wait(t, p)
  {
    hide Ranked, Everyone, FirstIndex;
    var x, t := s.q2[0], Rotated(s);
    HeadOnce(s, 2, x);
    InOneQueue(s, 2, p);
    TailIndex(s.q2, p);
    AheadFrame(s.q2[1..], t.q2[1..], s.ticks, t.ticks, FirstIndex(s.q2[1..], p));
    assert Remaining(s.ticks[x]) == 8 + Remaining(s.ticks[x] + 8);
    InOneQueue(t, 2, p);
  }

  /** Every tick run by somebody else brings `p` exactly that much closer to its turn. */
  lemma WaitStep(s: Sys, p: int)
    requires Closed(s) && p in Everyone(s) && Select(s).p != p
    ensures Closed(ClosedTurn(s)) && Everyone(ClosedTurn(s)) == Everyone(s)
    ensures Wait(s, p) == SliceLen(TopLevel(s)) + Wait(ClosedTurn(s), p)
  {
    hide Everyone, Ranked, Select, TopLevel, Rotated, ClosedTurn, Wait;
    ClosedSelect(s);
    ClosedTurnRotates(s);
    ClosedStays(s);
    if s.q0 != [] {
      Wait0(s, p);
    } else if s.q1 != [] {
      Wait1(s, p);
    } else if s.ticks[s.q2[0]] + 8 >= BOOST {
      Wait2Boost(s, p);
    } else {
      Wait2Stay(s, p);
    }
  }

  lemma WaitZero(s: Sys, p: int)
    requires Closed(s) && p in Everyone(s) && Select(s).p == p
    ensures Wait(s, p) == 0
  {
    hide Everyone, Ranked, Select, TopLevel;
    ClosedSelect(s);
    HeadOnce(s, TopLevel(s), p);
  }

  /** The state after `k` turns, and the ticks they took. */
  ghost function After(s: Sys, k: nat): (t: Sys)
    requires Closed(s)
    ensures Closed(t)
    decreases k
  {
    if k == 0 then s else
      ClosedStays(s);
      After(ClosedTurn(s), k - 1)
  }

  ghost function TicksRun(s: Sys, k: nat): nat
    requires Closed(s)
    decreases k
  {
    if k == 0 then 0 else
      ClosedStays(s);
      SliceLen(TopLevel(s)) + TicksRun(ClosedTurn(s), k - 1)
  }

  /**
   From any state, and so in particular between two turns of `p`, the others run exactly
   `Wait(s, p)` ticks before `p` is chosen, which is at most 59 for each of them.
   */
  lemma {:induction false} BoundedWaiting(s: Sys, p: int) returns (k: nat)
    requires Closed(s) && p in Everyone(s)
    ensures Select(After(s, k)).p == p
    ensures forall j :: 0 <= j < k ==> Select(After(s, j)).p != p
    ensures TicksRun(s, k) == Wait(s, p) <= CYCLE * (|Everyone(s)| - 1)
    decreases Wait(s, p)
  {
    hide Ranked, Everyone, Select, TopLevel, ClosedTurn, Wait;
    WaitBounded(s, p);
    if Select(s).p == p {
      k := 0;
      WaitZero(s, p);
    } else {
      WaitStep(s, p);
      var k' := BoundedWaiting(ClosedTurn(s), p);
      k := k' + 1;
      forall j | 0 <= j < k ensures Select(After(s, j)).p != p {
        assert j > 0 ==> After(s, j) == After(ClosedTurn(s), j - 1);
      }
    }
  }

  lemma WaitBounded(s: Sys, p: int)
    requires Closed(s) && p in Everyone(s)
    ensures Wait(s, p) <= CYCLE * (|Everyone(s)| - 1)
    ensures forall lv: Level :: 1 <= SliceLen(lv)
  {
    WaitBound(s, p);
  }

  /** The bound is met: the last of a full level 2 waits 59 ticks for each of the others. */
  lemma {:induction false} WaitIsTight(s: Sys, p: int)
    requires Closed(s) && s.q0 == [] && s.q1 == [] && s.q2 != [] && p == s.q2[|s.q2| - 1]
    requires forall i :: 0 <= i < |s.q2| ==> s.ticks[s.q2[i]] == 0
    ensures p in Everyone(s) && Wait(s, p) == CYCLE * (|Everyone(s)| - 1)
  {
    InOneQueue(s, 2, p);
    assert p in s.q2;
    var i := FirstIndex(s.q2, p);
    assert i == |s.q2| - 1 by {
      if i < |s.q2| - 1 {
        TwiceIn(s.q2, i, |s.q2| - 1);
      }
    }
    AheadFresh(s.q2, s.ticks, i);
  }

  lemma TwiceIn(q: seq<int>, i: nat, j: nat)
    requires i < j < |q| && q[i] == q[j]
    ensures multiset(q)[q[i]] >= 2
  {
    assert q == q[..j] + [q[j]] + q[j + 1..];
    assert q[i] in q[..j];
  }

  lemma {:induction false} AheadFresh(q: seq<int>, ticks: seq<nat>, i: nat)
    requires |ticks| == NPROC && AllSlots(q) && i <= |q| && forall j :: 0 <= j < |q| ==> ticks[q[j]] == 0
    ensures Ahead(q, ticks, i) == CYCLE * i
    decreases i
  {
    if i > 0 {
      AheadFresh(q[1..], ticks, i - 1);
    }
  }
}
