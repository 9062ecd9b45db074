/**
 Whole scheduler turns, and every sequence of them.
 */
module MlfqTurns {
  import opened Mlfq

  function Happens(s: Sys, es: seq<Event>): (r: Sys)
    requires Wf(s)
    ensures Wf(r)
    decreases |es|
  {
    if es == [] then s else Happens(Happen(s, es[0]), es[1..])
  }

  ghost predicate LegalAll(s: Sys, es: seq<Event>, running: int)
    requires Wf(s)
    decreases |es|
  {
    es == [] || (Legal(s, es[0], running) && LegalAll(Happen(s, es[0]), es[1..], running))
  }

  ghost function Forks(es: seq<Event>): multiset<int> {
    if es == [] then multiset{}
    else (if es[0].Fork? then multiset{es[0].p} else multiset{}) + Forks(es[1..])
  }

  /** `t` comes from `s` by things that leave queued processes where they are. */
  ghost predicate Undisturbed(s: Sys, t: Sys, p: int) {
    && Placed(s) && Placed(t)
    && s.q0 <= t.q0 && t.q1 == s.q1 && t.q2 == s.q2
    && (IsSlot(p) ==> t.ticks[p] == s.ticks[p] && t.prio[p] == s.prio[p])
  }

  lemma {:induction false} HappensKeep(s: Sys, es: seq<Event>, p: int)
    requires Placed(s) && LegalAll(s, es, p)
    ensures Undisturbed(s, Happens(s, es), p) && Everyone(Happens(s, es)) == Everyone(s) + Forks(es)
    decreases |es|
  {
    hide Everyone, Ranked, Legal, Happen;
    if es != [] {
      HappenKeeps(s, es[0], p);
      HappensKeep(Happen(s, es[0]), es[1..], p);
    }
  }

  // One tick: the process runs, things happen, it comes back.

  function Dispatched(s: Sys, p: int): (r: Sys)
    requires Wf(s) && IsSlot(p)
    ensures Wf(r)
  {
    s.(st := s.st[p := RUNNING])
  }

  function RunTick(s: Sys, p: int, t: Tick): (r: Sys)
    requires Wf(s) && IsSlot(p)
    ensures Wf(r)
  {
    var a := Happens(Dispatched(s, p), t.events);
    a.(st := a.st[p := t.back], ticks := a.ticks[p := a.ticks[p] + 1])
  }

  ghost predicate LegalTick(s: Sys, p: int, t: Tick)
    requires Wf(s) && IsSlot(p)
  {
    && LegalAll(Dispatched(s, p), t.events, p)
    && (t.back.RUNNABLE? || t.back.SLEEPING? || t.back.ZOMBIE?)
  }

  /** The tick loop of the scheduler: at most `n` ticks, and no further once `p` is not RUNNABLE. */
  function RunTicks(s: Sys, p: int, n: nat, env: seq<Tick>): (r: Sys)
    requires Wf(s) && IsSlot(p) && n <= |env|
    ensures Wf(r)
    decreases n
  {
    if s.st[p] == RUNNABLE && 0 < n then RunTicks(RunTick(s, p, env[0]), p, n - 1, env[1..]) else s
  }

  ghost predicate LegalTicks(s: Sys, p: int, n: nat, env: seq<Tick>)
    requires Wf(s) && IsSlot(p) && n <= |env|
    decreases n
  {
    s.st[p] == RUNNABLE && 0 < n ==>
      LegalTick(s, p, env[0]) && LegalTicks(RunTick(s, p, env[0]), p, n - 1, env[1..])
  }

  /** How many ticks that loop runs, and who is forked meanwhile. */
  ghost function Ran(s: Sys, p: int, n: nat, env: seq<Tick>): nat
    requires Wf(s) && IsSlot(p) && n <= |env|
    decreases n
  {
    if s.st[p] == RUNNABLE && 0 < n then 1 + Ran(RunTick(s, p, env[0]), p, n - 1, env[1..]) else 0
  }

  ghost function Born(s: Sys, p: int, n: nat, env: seq<Tick>): multiset<int>
    requires Wf(s) && IsSlot(p) && n <= |env|
    decreases n
  {
    if s.st[p] == RUNNABLE && 0 < n then
      Forks(env[0].events) + Born(RunTick(s, p, env[0]), p, n - 1, env[1..])
    else multiset{}
  }

  /** `t` comes from `s` by `n` ticks of `p`. */
  ghost predicate Ticked(s: Sys, t: Sys, p: int, n: nat) {
    && Placed(s) && Placed(t) && IsSlot(p)
    && s.q0 <= t.q0 && t.q1 == s.q1 && t.q2 == s.q2
    && t.ticks[p] == s.ticks[p] + n && t.prio[p] == s.prio[p]
  }

  lemma RunTickKeeps(s: Sys, p: int, t: Tick)
    requires Placed(s) && IsSlot(p) && p in Everyone(s) && s.st[p] != UNUSED && LegalTick(s, p, t)
    ensures Ticked(s, RunTick(s, p, t), p, 1) && Everyone(RunTick(s, p, t)) == Everyone(s) + Forks(t.events)
  {
    hide Everyone, Ranked, LegalAll, Happens;
    var d := Dispatched(s, p);
    SameQueues(s, d);
    HappensKeep(d, t.events, p);
    SameQueues(Happens(d, t.events), RunTick(s, p, t));
  }

  /** The process comes back in the state that ends its tick, with the tick counted. */
  lemma RunTickBack(s: Sys, p: int, t: Tick)
    requires Wf(s) && IsSlot(p)
    ensures RunTick(s, p, t).st[p] == t.back
  {
  }

  /**
   A slice of at most `n` ticks: the process comes back RUNNABLE from all of them but the last, and the state in
   which it comes back from that one is its state when the slice ends; the slice is short only if that is not RUNNABLE.
   */
  lemma {:induction false} RunTicksEnd(s: Sys, p: int, n: nat, env: seq<Tick>)
    requires Wf(s) && IsSlot(p) && 0 < n <= |env| && s.st[p] == RUNNABLE
    ensures var k := Ran(s, p, n, env);
            && 1 <= k <= n && RunTicks(s, p, n, env).st[p] == env[k - 1].back
            && (forall j :: 0 <= j < k - 1 ==> env[j].back == RUNNABLE)
            && (k < n ==> env[k - 1].back != RUNNABLE)
    decreases n
  {
    hide RunTick;
    var t, rest := RunTick(s, p, env[0]), env[1..];
    RunTickBack(s, p, env[0]);
    if env[0].back == RUNNABLE && 1 < n {
      RunTicksEnd(t, p, n - 1, rest);
      var k := Ran(t, p, n - 1, rest);
      assert Ran(s, p, n, env) == k + 1 && rest[k - 1] == env[k];
      forall j | 0 <= j < k ensures env[j].back == RUNNABLE {
        assert 0 < j ==> rest[j - 1] == env[j];
      }
    } else {
      assert Ran(s, p, n, env) == 1;
    }
  }

  lemma {:induction false} RunTicksKeep(s: Sys, p: int, n: nat, env: seq<Tick>)
    requires Placed(s) && IsSlot(p) && p in Everyone(s) && n <= |env| && LegalTicks(s, p, n, env)
    ensures Ticked(s, RunTicks(s, p, n, env), p, Ran(s, p, n, env))
    ensures Everyone(RunTicks(s, p, n, env)) == Everyone(s) + Born(s, p, n, env)
    ensures RunTicks(s, p, n, env).st[p] == RUNNABLE ==> s.st[p] == RUNNABLE && Ran(s, p, n, env) == n
    decreases n
  {
    hide Everyone, Ranked, LegalTick, RunTick;
    if s.st[p] == RUNNABLE && 0 < n {
      RunTickKeeps(s, p, env[0]);
      RunTicksKeep(RunTick(s, p, env[0]), p, n - 1, env[1..]);
    }
  }

  // The end of a slice.

  /** Demotion, boost or, for a process that went to sleep, the end of its own queue. */
  function Requeue(s: Sys, p: int, lv: Level): Sys
    requires Wf(s) && p in Q(s, lv)
  {
    SlotIn(s, lv, p);
    if s.st[p] == RUNNABLE && (s.prio[p] == 1 || s.prio[p] == 0) then
      if lv < 2 then Relocate(s, lv, lv + 1, p) else s
    else if s.st[p] == RUNNABLE && s.prio[p] == 2 && s.ticks[p] >= BOOST && p in s.q2 then
      Relocate(s, 2, 0, p)
    else if s.st[p] == SLEEPING then
      Relocate(s, lv, lv, p)
    else s
  }

  lemma SlotIn(s: Sys, lv: Level, p: int)
    requires Wf(s) && p in Q(s, lv)
    ensures IsSlot(p)
  {
  }

  /** The level at which `p` ends after a slice at level `lv`. */
  ghost function NextLevel(s: Sys, p: int, lv: Level): Level
    requires Wf(s) && IsSlot(p)
  {
    if s.st[p] != RUNNABLE then lv else if lv < 2 then lv + 1 else if s.ticks[p] >= BOOST then 0 else 2
  }

  lemma RequeueKeeps(s: Sys, p: int, lv: Level)
    requires Placed(s) && p in Q(s, lv)
    ensures Placed(Requeue(s, p, lv)) && Everyone(Requeue(s, p, lv)) == Everyone(s)
    ensures IsSlot(p) && p in Q(Requeue(s, p, lv), NextLevel(s, p, lv))
    ensures Requeue(s, p, lv).prio[p] == NextLevel(s, p, lv)
    ensures s.st[p] == RUNNABLE ==>
              Requeue(s, p, lv).ticks[p] == if lv == 2 && s.ticks[p] < BOOST then s.ticks[p] else 0
  {
    hide Everyone, Ranked, Relocate;
    SlotOf(s, lv, p);
    RelocateKeeps(s, lv, NextLevel(s, p, lv), p);
  }

  /**
   Where a slice leaves the queues. A process that went to sleep goes behind everybody in its own queue,
   one that used up its slice behind everybody one level down, one that has run BOOST ticks at the bottom
   behind everybody at the top; in every other case nothing changes.
   */
  lemma RequeueMoves(s: Sys, p: int, lv: Level)
    requires Placed(s) && p in Q(s, lv)
    ensures IsSlot(p) && s.prio[p] == lv
    ensures s.st[p] == SLEEPING ==> Moves(s, Requeue(s, p, lv), lv, lv, p)
    ensures s.st[p] == RUNNABLE && lv < 2 ==> Moves(s, Requeue(s, p, lv), lv, lv + 1, p)
    ensures s.st[p] == RUNNABLE && lv == 2 && s.ticks[p] >= BOOST ==> Moves(s, Requeue(s, p, lv), 2, 0, p)
    ensures s.st[p] == RUNNABLE && lv == 2 && s.ticks[p] < BOOST ==> Requeue(s, p, lv) == s
    ensures s.st[p] != RUNNABLE && s.st[p] != SLEEPING ==> Requeue(s, p, lv) == s
  {
    hide Everyone, Ranked, Relocate, Moves;
    SlotOf(s, lv, p);
    RelocateMoves(s, lv, NextLevel(s, p, lv), p);
  }

  /** Other processes keep their level and their ticks. */
  lemma RequeueOther(s: Sys, p: int, lv: Level, x: int)
    requires Wf(s) && p in Q(s, lv) && IsSlot(x) && x != p
    ensures Requeue(s, p, lv).ticks[x] == s.ticks[x] && Requeue(s, p, lv).prio[x] == s.prio[x]
  {
    hide Remove;
  }

  // A turn.

  /** One dispatch: choose, run a slice, put back. */
  function Turn(s: Sys, env: seq<Tick>): Sys
    requires Wf(s) && 8 <= |env|
  {
    var c := Select(s);
    if c.p == NOBODY then c.s else
      var lv := TopLevel(s);
      SelectPicksHighest(s);
      SelectKeepsEveryone(s);
      var t := RunTicks(c.s, c.p, SliceLen(lv), env);
      if c.p in Q(t, lv) then Requeue(t, c.p, lv) else t
  }

  ghost predicate LegalTurn(s: Sys, env: seq<Tick>)
    requires Wf(s)
  {
    var c := Select(s);
    8 <= |env| && (c.p != NOBODY ==> Wf(c.s) && IsSlot(c.p) && LegalTicks(c.s, c.p, SliceLen(TopLevel(s)), env))
  }

  /** The processes forked during a turn. */
  ghost function NewIn(s: Sys, env: seq<Tick>): multiset<int>
    requires Wf(s) && LegalTurn(s, env)
  {
    var c := Select(s);
    if c.p == NOBODY then multiset{} else Born(c.s, c.p, SliceLen(TopLevel(s)), env)
  }

  lemma SelectKeepsPlaced(s: Sys)
    requires Placed(s)
    ensures Placed(Select(s).s) && Everyone(Select(s).s) == Everyone(s)
    ensures Select(s).s.ticks == s.ticks && Select(s).s.prio == s.prio && Select(s).s.st == s.st
    ensures Select(s).p != NOBODY ==>
              IsSlot(Select(s).p) && Select(s).p in Q(Select(s).s, TopLevel(s)) && Select(s).p in Everyone(s)
              && s.prio[Select(s).p] == TopLevel(s) && s.st[Select(s).p] == RUNNABLE
  {
    hide Everyone, HasRunnable, SwapFirst, TopLevel, Ranked;
    SelectKeepsEveryone(s);
    SelectPicksHighest(s);
    var t := Select(s).s;
    RankedAlike(s, t);
    if Select(s).p != NOBODY {
      SlotOf(t, TopLevel(s), Select(s).p);
    }
  }

  lemma RankedAlike(s: Sys, t: Sys)
    requires Wf(s) && Wf(t) && Ranked(s) && t.prio == s.prio
    requires forall lv: Level :: multiset(Q(t, lv)) == multiset(Q(s, lv))
    ensures Ranked(t)
  {
    forall lv: Level, p | p in Q(t, lv) ensures t.prio[p] == lv {
      assert p in multiset(Q(t, lv)) && p in multiset(Q(s, lv));
    }
  }

  /** The running process is still in its queue when its slice ends. */
  lemma StillThere(s: Sys, t: Sys, p: int, n: nat, lv: Level)
    requires Ticked(s, t, p, n) && p in Q(s, lv)
    ensures p in Q(t, lv)
  {
  }

  /** A turn neither loses nor duplicates a process, whatever happens during it. */
  lemma TurnKeeps(s: Sys, env: seq<Tick>)
    requires Placed(s) && LegalTurn(s, env)
    ensures Placed(Turn(s, env)) && Everyone(Turn(s, env)) == Everyone(s) + NewIn(s, env)
  {
    hide Everyone, Ranked, HasRunnable, SwapFirst, Requeue, Select, TopLevel;
    SelectKeepsPlaced(s);
    var c := Select(s);
    if c.p != NOBODY {
      var lv := TopLevel(s);
      RunTicksKeep(c.s, c.p, SliceLen(lv), env);
      var t := RunTicks(c.s, c.p, SliceLen(lv), env);
      StillThere(c.s, t, c.p, Ran(c.s, c.p, SliceLen(lv), env), lv);
      RequeueKeeps(t, c.p, lv);
    }
  }

  /** The state after the first `k` turns. */
  ghost function Turns(s: Sys, envs: seq<seq<Tick>>, k: nat): Sys
    requires k <= |envs| && forall i :: 0 <= i < |envs| ==> 8 <= |envs[i]|
  {
    if k == 0 then s else
      var t := Turns(s, envs, k - 1);
      if Wf(t) then Turn(t, envs[k - 1]) else t
  }

  ghost predicate LegalTurns(s: Sys, envs: seq<seq<Tick>>) {
    && (forall i :: 0 <= i < |envs| ==> 8 <= |envs[i]|)
    && forall k :: 0 <= k < |envs| ==> Wf(Turns(s, envs, k)) && LegalTurn(Turns(s, envs, k), envs[k])
  }

  lemma {:induction false} TurnsKeep(s: Sys, envs: seq<seq<Tick>>, k: nat)
    requires Placed(s) && LegalTurns(s, envs) && k <= |envs|
    ensures Wf(Turns(s, envs, k)) && Placed(Turns(s, envs, k))
  {
    hide Everyone, Ranked, Turn, LegalTurn;
    if k > 0 {
      TurnsKeep(s, envs, k - 1);
      TurnKeeps(Turns(s, envs, k - 1), envs[k - 1]);
    }
  }

  lemma TurnsNone(s: Sys, envs: seq<seq<Tick>>)
    requires LegalTurns(s, envs)
    ensures (forall i :: 0 <= i < |envs| ==> 8 <= |envs[i]|) && Turns(s, envs, 0) == s
  {
    hide LegalTurn;
  }

  lemma TurnsNext(s: Sys, envs: seq<seq<Tick>>, k: nat)
    requires LegalTurns(s, envs) && k < |envs|
    ensures 8 <= |envs[k]| && Wf(Turns(s, envs, k)) && LegalTurn(Turns(s, envs, k), envs[k])
    ensures Turns(s, envs, k + 1) == Turn(Turns(s, envs, k), envs[k])
  {
    hide LegalTurn, Turn, Wf;
  }

  /** A turn does not notice an earlier call of returnProc. */
  lemma TurnAfterSelect(s: Sys, env: seq<Tick>)
    requires Wf(s) && 8 <= |env|
    ensures Wf(Select(s).s) && Turn(Select(s).s, env) == Turn(s, env)
    ensures LegalTurn(Select(s).s, env) <==> LegalTurn(s, env)
  {
    hide Select, TopLevel, RunTicks, LegalTicks, Requeue, Wf;
    SelectTwice(s);
  }

  // Runs: turns, and events between turns.

  datatype Happening = Between(events: seq<Event>) | Dispatch(env: seq<Tick>)

  ghost predicate LegalNext(s: Sys, h: Happening)
    requires Wf(s)
  {
    match h
    case Between(es) => LegalAll(s, es, NOBODY)
    case Dispatch(env) => LegalTurn(s, env)
  }

  ghost function Next(s: Sys, h: Happening): Sys
    requires Wf(s) && LegalNext(s, h)
  {
    match h
    case Between(es) => Happens(s, es)
    case Dispatch(env) => Turn(s, env)
  }

  ghost function Arrivals(s: Sys, h: Happening): multiset<int>
    requires Wf(s) && LegalNext(s, h)
  {
    match h
    case Between(es) => Forks(es)
    case Dispatch(env) => NewIn(s, env)
  }

  ghost predicate IsRun(s: Sys, hs: seq<Happening>)
    decreases |hs|
  {
    hs == [] || (Wf(s) && LegalNext(s, hs[0]) && IsRun(Next(s, hs[0]), hs[1..]))
  }

  ghost function End(s: Sys, hs: seq<Happening>): Sys
    requires IsRun(s, hs)
    decreases |hs|
  {
    if hs == [] then s else End(Next(s, hs[0]), hs[1..])
  }

  ghost function AllArrivals(s: Sys, hs: seq<Happening>): multiset<int>
    requires IsRun(s, hs)
    decreases |hs|
  {
    if hs == [] then multiset{} else Arrivals(s, hs[0]) + AllArrivals(Next(s, hs[0]), hs[1..])
  }

  lemma NextKeeps(s: Sys, h: Happening)
    requires Placed(s) && LegalNext(s, h)
    ensures Placed(Next(s, h)) && Everyone(Next(s, h)) == Everyone(s) + Arrivals(s, h)
  {
    hide Everyone, Ranked, Turn, Happens, Select;
    match h
    case Between(es) => HappensKeep(s, es, NOBODY);
    case Dispatch(env) => TurnKeeps(s, env);
  }

  /**
   In every run, each process allocated is in exactly one queue, and the queues hold who was there plus who was
   forked.
   */
  lemma {:induction false} QueueConservation(s: Sys, hs: seq<Happening>)
    requires Placed(s) && IsRun(s, hs)
    ensures Placed(End(s, hs)) && Everyone(End(s, hs)) == Everyone(s) + AllArrivals(s, hs)
    decreases |hs|
  {
    hide Everyone, Ranked, Next, LegalNext, Arrivals;
    if hs != [] {
      NextKeeps(s, hs[0]);
      QueueConservation(Next(s, hs[0]), hs[1..]);
    }
  }

  // What a turn does to a process that is not running.

  ghost predicate SameFor(s: Sys, t: Sys, x: int) {
    IsSlot(x) && Wf(s) && Wf(t) && t.ticks[x] == s.ticks[x] && t.prio[x] == s.prio[x]
  }

  lemma {:induction false} HappensOther(s: Sys, es: seq<Event>, running: int, x: int)
    requires Placed(s) && LegalAll(s, es, running) && x in Everyone(s) && IsSlot(x)
    ensures SameFor(s, Happens(s, es), x) && x in Everyone(Happens(s, es))
    decreases |es|
  {
    hide Everyone, Ranked;
    if es != [] {
      HappenKeeps(s, es[0], running);
      HappensOther(Happen(s, es[0]), es[1..], running, x);
    }
  }

  lemma {:induction false} RunTicksOther(s: Sys, p: int, n: nat, env: seq<Tick>, x: int)
    requires Placed(s) && IsSlot(p) && p in Everyone(s) && n <= |env| && LegalTicks(s, p, n, env)
    requires x in Everyone(s) && IsSlot(x) && x != p
    ensures SameFor(s, RunTicks(s, p, n, env), x) && x in Everyone(RunTicks(s, p, n, env))
    decreases n
  {
    hide Everyone, Ranked, Happens, LegalAll;
    if s.st[p] == RUNNABLE && 0 < n {
      var d := Dispatched(s, p);
      SameQueues(s, d);
      HappensOther(d, env[0].events, p, x);
      RunTickKeeps(s, p, env[0]);
      RunTicksOther(RunTick(s, p, env[0]), p, n - 1, env[1..], x);
    }
  }

  lemma TurnOther(s: Sys, env: seq<Tick>, x: int)
    requires Placed(s) && LegalTurn(s, env) && x in Everyone(s) && IsSlot(x) && x != Select(s).p
    ensures SameFor(s, Turn(s, env), x)
  {
    hide Everyone, Ranked, HasRunnable, SwapFirst, Requeue, Select, TopLevel;
    TurnKeeps(s, env);
    SelectKeepsPlaced(s);
    var c := Select(s);
    if c.p != NOBODY {
      var lv := TopLevel(s);
      RunTicksOther(c.s, c.p, SliceLen(lv), env, x);
      var t := RunTicks(c.s, c.p, SliceLen(lv), env);
      if c.p in Q(t, lv) {
        RequeueOther(t, c.p, lv, x);
      }
    }
  }

  // The cycle of levels.

  const CYCLE := 59

  /** Level and ticks of a process that has run `r` ticks, always coming back RUNNABLE. */
  ghost predicate InCycle(lv: int, t: nat, r: nat) {
    var m := r % CYCLE;
    if lv == 0 then m == 0 && t == 0
    else if lv == 1 then m == 1 && t == 0
    else lv == 2 && 3 <= m && t == m - 3 && t % 8 == 0
  }

  /** The ticks `p` runs in the next step. */
  ghost function TicksOf(s: Sys, h: Happening, p: int): nat
    requires Wf(s) && LegalNext(s, h)
  {
    if h.Dispatch? && Select(s).p == p && p != NOBODY then Ran(Select(s).s, p, SliceLen(TopLevel(s)), h.env) else 0
  }

  /** If `p` runs in the next step, it comes back RUNNABLE. */
  ghost predicate StaysReady(s: Sys, h: Happening, p: int)
    requires Wf(s) && LegalNext(s, h)
  {
    h.Dispatch? && Select(s).p == p && p != NOBODY ==>
      RunTicks(Select(s).s, p, SliceLen(TopLevel(s)), h.env).st[p] == RUNNABLE
  }

  ghost predicate AlwaysReady(s: Sys, hs: seq<Happening>, p: int)
    requires IsRun(s, hs)
    decreases |hs|
  {
    hs == [] || (StaysReady(s, hs[0], p) && AlwaysReady(Next(s, hs[0]), hs[1..], p))
  }

  ghost function RunTicksOf(s: Sys, hs: seq<Happening>, p: int): nat
    requires IsRun(s, hs)
    decreases |hs|
  {
    if hs == [] then 0 else TicksOf(s, hs[0], p) + RunTicksOf(Next(s, hs[0]), hs[1..], p)
  }

  lemma CycleStep(lv: Level, t: nat, r: nat)
    requires InCycle(lv, t, r)
    ensures var n := SliceLen(lv);
            InCycle(if lv < 2 then lv + 1 else if t + n >= BOOST then 0 else 2,
                    if lv == 2 && t + n < BOOST then t + n else 0, r + n)
  {
    var m, n := r % CYCLE, SliceLen(lv);
    assert (r + n) % CYCLE == if m + n < CYCLE then m + n else m + n - CYCLE;
  }

  /** The chosen process uses its whole slice and goes where its level and ticks send it. */
  lemma TurnSelf(s: Sys, env: seq<Tick>, p: int)
    requires Placed(s) && LegalTurn(s, env) && p == Select(s).p != NOBODY && StaysReady(s, Dispatch(env), p)
    ensures IsSlot(p) && Placed(Turn(s, env)) && s.prio[p] == TopLevel(s)
    ensures var lv, n := TopLevel(s), SliceLen(TopLevel(s));
            && TicksOf(s, Dispatch(env), p) == n
            && Turn(s, env).prio[p] == (if lv < 2 then lv + 1 else if s.ticks[p] + n >= BOOST then 0 else 2)
            && Turn(s, env).ticks[p] == (if lv == 2 && s.ticks[p] + n < BOOST then s.ticks[p] + n else 0)
  {
    hide Everyone, Ranked, HasRunnable, SwapFirst, Requeue, Select, TopLevel;
    TurnKeeps(s, env);
    SelectKeepsPlaced(s);
    var c, lv := Select(s), TopLevel(s);
    RunTicksKeep(c.s, p, SliceLen(lv), env);
    var t := RunTicks(c.s, p, SliceLen(lv), env);
    StillThere(c.s, t, p, Ran(c.s, p, SliceLen(lv), env), lv);
    RequeueKeeps(t, p, lv);
  }

  lemma NextInCycle(s: Sys, h: Happening, p: int, r: nat)
    requires Placed(s) && LegalNext(s, h) && IsSlot(p) && p in Everyone(s) && StaysReady(s, h, p)
    requires InCycle(s.prio[p], s.ticks[p], r)
    ensures Placed(Next(s, h)) && p in Everyone(Next(s, h))
    ensures InCycle(Next(s, h).prio[p], Next(s, h).ticks[p], r + TicksOf(s, h, p))
  {
    hide Everyone, Ranked, HasRunnable, SwapFirst, Select, TopLevel, LegalAll, Happens, Turn, LegalTurn, InCycle;
    hide SliceLen;
    NextKeeps(s, h);
    if h.Between? {
      HappensOther(s, h.events, NOBODY, p);
    } else if Select(s).p != p {
      TurnOther(s, h.env, p);
    } else {
      TurnSelf(s, h.env, p);
      CycleStep(TopLevel(s), s.ticks[p], r);
    }
  }

  /** Over every run, a process that always comes back RUNNABLE has the level its run ticks modulo 59 give it. */
  lemma {:induction false} LevelCycle(s: Sys, hs: seq<Happening>, p: int, r: nat)
    requires Placed(s) && IsRun(s, hs) && IsSlot(p) && p in Everyone(s) && AlwaysReady(s, hs, p)
    requires InCycle(s.prio[p], s.ticks[p], r)
    ensures Wf(End(s, hs))
    ensures InCycle(End(s, hs).prio[p], End(s, hs).ticks[p], r + RunTicksOf(s, hs, p))
    decreases |hs|
  {
    hide Everyone, Ranked, Next, LegalNext, InCycle, TicksOf;
    if hs != [] {
      NextInCycle(s, hs[0], p, r);
      LevelCycle(Next(s, hs[0]), hs[1..], p, r + TicksOf(s, hs[0], p));
    }
  }
}
