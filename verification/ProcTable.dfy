/**
 The loops of proc.c over the process table, each proved to take the step of ProcLife that
 it stands for, so that every interleaving of them keeps ProcLife's invariant.
 */
module ProcTable {
  import opened Mlfq
  import opened ProcLife
  import opened ProcRuns

  class Table {
    const state: array<ProcState>
    const parent: array<int>
    const chan: array<int>
    const killed: array<bool>
    const pid: array<nat>
    const initproc: int
    var nextpid: nat
    ghost var doing: seq<Doing>

    ghost function Abs(): Procs
      reads this, state, parent, chan, killed, pid
    {
      Procs(state[..], parent[..], chan[..], killed[..], pid[..], doing, initproc, nextpid)
    }

    ghost predicate Valid()
      reads this, state, parent, chan, killed, pid
    {
      && parent != chan
      && state.Length == parent.Length == chan.Length == killed.Length == pid.Length == NPROC
      && Inv(Abs()) && Pids(Abs())
    }

    /** The table once userinit has made the first process runnable. */
    constructor ()
      ensures Valid() && initproc == 0 && nextpid == 2
    {
      state := new ProcState[NPROC](i => if i == 0 then RUNNABLE else UNUSED);
      parent := new int[NPROC](_ => NOPROC);
      chan := new int[NPROC](_ => NOPROC);
      killed := new bool[NPROC](_ => false);
      pid := new nat[NPROC](i => if i == 0 then 1 else 0);
      initproc, nextpid, doing := 0, 2, seq(NPROC, _ => Normal);
      new;
      hide Inv, Pids;
      FirstTable(Abs());
    }

    method Wakeup1(c: int)
      requires state.Length == chan.Length == NPROC
      modifies state
      ensures state[..] == Woken(old(state[..]), chan[..], c)
    {
      var p := 0;
      while p < NPROC
        invariant 0 <= p <= NPROC
        invariant forall i :: 0 <= i < NPROC ==>
                    state[i] == if i < p then Woken(old(state[..]), chan[..], c)[i] else old(state[i])
      {
        if state[p] == SLEEPING && chan[p] == c {
          state[p] := RUNNABLE;
        }
        p := p + 1;
      }
    }

    method Wakeup(c: int)
      requires Valid() && !IsSlot(c)
      modifies state
      ensures Valid() && Abs() == Apply(old(Abs()), Step.Wakeup(c))
      ensures forall p :: 0 <= p < NPROC ==>
                state[p] == if old(state[p]) == SLEEPING && chan[p] == c then RUNNABLE else old(state[p])
    {
      hide Inv, Pids;
      InvSized(Abs());
      StepKeeps(Abs(), Step.Wakeup(c));
      PidsKeep(Abs(), Step.Wakeup(c));
      Wakeup1(c);
    }

    /** The loop of exit that hands the children to init. */
    method AbandonChildren(c: int)
      requires Sized(Abs()) && IsSlot(c) && c != initproc && parent != chan
      modifies state, parent
      ensures parent[..] == Adopted(old(parent[..]), c, initproc)
      ensures state[..] == if HasZombie(old(Abs()), c) then Woken(old(state[..]), chan[..], initproc)
                           else old(state[..])
    {
      ghost var s := Abs();
      ghost var woken := Woken(s.st, s.chan, initproc);
      var p := 0;
      ghost var seen := false;
      while p < NPROC
        invariant 0 <= p <= NPROC
        invariant forall i :: 0 <= i < NPROC ==>
                    parent[i] == if i < p then Adopted(s.parent, c, initproc)[i] else s.parent[i]
        invariant state[..] == if seen then woken else s.st
        invariant seen <==> exists q :: 0 <= q < p && s.parent[q] == c && s.st[q] == ZOMBIE
      {
        if parent[p] == c {
          parent[p] := initproc;
          if state[p] == ZOMBIE {
            Wakeup1(initproc);
            seen := true;
            WokenTwice(s.st, s.chan, initproc);
          }
        }
        p := p + 1;
      }
      assert seen <==> HasZombie(s, c);
    }

    method Exit(c: int)
      requires Valid() && Free(Abs(), c) && c != initproc
      modifies state, parent
      ensures Valid() && Abs() == Apply(old(Abs()), Step.Exit(c))
      ensures state[c] == ZOMBIE
      ensures forall p :: 0 <= p < NPROC && p != c ==>
                state[p] == if old(state[p]) == SLEEPING && WakesAt(old(Abs()), c, p) then RUNNABLE else old(state[p])
      ensures forall p :: 0 <= p < NPROC ==> parent[p] == if old(parent[p]) == c then initproc else old(parent[p])
    {
      hide Inv, Pids;
      ghost var s := Abs();
      InvSized(s);
      StepKeeps(s, Step.Exit(c));
      PidsKeep(s, Step.Exit(c));
      Wakeup1(parent[c]);
      SameZombies(s, c, s.parent[c]);
      AbandonChildren(c);
      state[c] := ZOMBIE;
    }

    /** One round of wait's loop. */
    method Wait(c: int) returns (slept: bool, r: int)
      requires Valid() && Free(Abs(), c)
      modifies state, parent, chan, killed, pid
      ensures Valid()
      ensures Sized(old(Abs())) && WaitEnds(old(Abs()), Abs(), c, slept, r)
    {
      hide Inv, Pids;
      ghost var s := Abs();
      InvSized(s);
      var havekids, p := false, 0;
      while p < NPROC
        invariant 0 <= p <= NPROC && Abs() == s
        invariant havekids <==> exists q :: 0 <= q < p && s.parent[q] == c
        invariant forall q :: 0 <= q < p && s.parent[q] == c ==> s.st[q] != ZOMBIE
      {
        if parent[p] == c {
          havekids := true;
          if state[p] == ZOMBIE {
            StepKeeps(s, Step.Reap(c, p));
            PidsKeep(s, Step.Reap(c, p));
            r := pid[p];
            pid[p] := 0;
            parent[p] := NOPROC;
            killed[p] := false;
            state[p] := UNUSED;
            return false, r;
          }
        }
        p := p + 1;
      }
      if !havekids || killed[c] {
        return false, -1;
      }
      StepKeeps(s, Step.WaitSleep(c));
      PidsKeep(s, Step.WaitSleep(c));
      chan[c] := c;
      state[c] := SLEEPING;
      return true, 0;
    }

    /** kill: the first slot with the number is marked, and woken if it sleeps. */
    method Kill(victim: int) returns (r: int)
      requires Valid()
      modifies state, killed
      ensures Valid()
      ensures Sized(old(Abs())) && KillEnds(old(Abs()), Abs(), victim, r)
      ensures forall p, q :: 0 <= p < q < NPROC && pid[p] == pid[q] ==> pid[p] == 0
    {
      hide Inv, Pids;
      ghost var s := Abs();
      InvSized(s);
      PidsAll(s);
      var p := 0;
      while p < NPROC
        invariant 0 <= p <= NPROC && Abs() == s && forall q :: 0 <= q < p ==> s.pid[q] != victim
      {
        if pid[p] == victim {
          StepKeeps(s, Step.Kill(p));
          PidsKeep(s, Step.Kill(p));
          killed[p] := true;
          if state[p] == SLEEPING {
            state[p] := RUNNABLE;
          }
          return 0;
        }
        p := p + 1;
      }
      return -1;
    }

    /** The part of fork that claims a slot. */
    method AllocProc(c: int) returns (p: int)
      requires Valid() && Free(Abs(), c)
      modifies this, state, pid
      ensures Valid()
      ensures p == -1 ==> Abs() == old(Abs()) && forall q :: IsSlot(q) ==> state[q] != UNUSED
      ensures p != -1 ==> IsSlot(p) && old(state[p]) == UNUSED && (forall q :: 0 <= q < p ==> old(state[q]) != UNUSED)
                          && Abs() == Apply(old(Abs()), Step.Alloc(c, p))
                          && state[..] == old(state[..])[p := EMBRYO] && pid[..] == old(pid[..])[p := old(nextpid)]
                          && nextpid == old(nextpid) + 1 && (forall q :: IsSlot(q) ==> old(pid[q]) < old(nextpid))
    {
      hide Inv, Pids;
      ghost var s := Abs();
      InvSized(s);
      p := 0;
      while p < NPROC
        invariant 0 <= p <= NPROC && Abs() == s && forall q :: 0 <= q < p ==> state[q] != UNUSED
      {
        if state[p] == UNUSED {
          StepKeeps(s, Step.Alloc(c, p));
          PidsKeep(s, Step.Alloc(c, p));
          PidsAll(s);
          state[p] := EMBRYO;
          pid[p] := nextpid;
          nextpid := nextpid + 1;
          doing := doing[c := Forking(p)];
          return;
        }
        p := p + 1;
      }
      p := -1;
    }
  }

  /** The exit of `c` wakes whoever sleeps on its parent and, if it leaves a zombie behind, on init. */
  ghost predicate WakesAt(s: Procs, c: int, p: int)
    requires Sized(s) && IsSlot(c) && IsSlot(p)
  {
    s.chan[p] == s.parent[c] || (s.chan[p] == s.init && exists q :: IsSlot(q) && s.parent[q] == c && s.st[q] == ZOMBIE)
  }

  /** `q` is the first zombie child of `c` in the table. */
  ghost predicate FirstZombie(s: Procs, c: int, q: int)
    requires Sized(s)
  {
    && IsSlot(q) && s.parent[q] == c && s.st[q] == ZOMBIE
    && forall x :: 0 <= x < q && s.parent[x] == c ==> s.st[x] != ZOMBIE
  }

  /** `p` is the first slot with that pid. */
  ghost predicate FirstPid(s: Procs, victim: int, p: int)
    requires Sized(s)
  {
    IsSlot(p) && s.pid[p] == victim && forall q :: 0 <= q < p ==> s.pid[q] != victim
  }

  /** `p` is marked, and RUNNABLE if it was SLEEPING; nothing else differs. */
  ghost predicate Killed(s: Procs, t: Procs, p: int)
    requires Sized(s) && IsSlot(p)
  {
    t == Procs(if s.st[p] == SLEEPING then s.st[p := RUNNABLE] else s.st, s.parent, s.chan, s.killed[p := true], s.pid,
               s.doing, s.init, s.nextpid)
  }

  /** The two ends of kill: nobody has that pid, or the first slot that has it is marked. */
  ghost predicate KillEnds(s: Procs, t: Procs, victim: int, r: int)
    requires Sized(s)
  {
    if r == -1 then t == s && forall p :: IsSlot(p) ==> s.pid[p] != victim
    else r == 0 && exists p :: FirstPid(s, victim, p) && Killed(s, t, p) && t == Apply(s, Step.Kill(p))
  }

  /** Slot `q` is given back, and nothing else differs. */
  ghost predicate Freed(s: Procs, t: Procs, q: int)
    requires Sized(s) && IsSlot(q)
  {
    t == Procs(s.st[q := UNUSED], s.parent[q := NOPROC], s.chan, s.killed[q := false], s.pid[q := 0],
               s.doing, s.init, s.nextpid)
  }

  /** The three ends of a round of wait: the first zombie child reaped, a failure, or sleep on the own address. */
  ghost predicate WaitEnds(s: Procs, t: Procs, c: int, slept: bool, r: int)
    requires Sized(s) && Free(s, c)
  {
    if HasZombie(s, c) then
      !slept && exists q :: FirstZombie(s, c, q) && r == s.pid[q] && Freed(s, t, q) && t == Apply(s, Step.Reap(c, q))
    else if s.killed[c] || forall q :: IsSlot(q) ==> s.parent[q] != c then
      !slept && r == -1 && t == s
    else
      slept && t == s.(st := s.st[c := SLEEPING], chan := s.chan[c := c]) && t == Apply(s, Step.WaitSleep(c))
  }

  lemma WokenTwice(st: seq<ProcState>, chan: seq<int>, c: int)
    requires |st| == |chan|
    ensures Woken(Woken(st, chan, c), chan, c) == Woken(st, chan, c)
  {
  }

  /** Waking somebody up makes no zombie and removes none. */
  lemma SameZombies(s: Procs, c: int, w: int)
    requires Sized(s)
    ensures HasZombie(s, c) <==> HasZombie(s.(st := Woken(s.st, s.chan, w)), c)
  {
    var t := s.(st := Woken(s.st, s.chan, w));
    if HasZombie(s, c) {
      var q :| IsSlot(q) && s.parent[q] == c && s.st[q] == ZOMBIE;
      assert t.parent[q] == c && t.st[q] == ZOMBIE;
    }
    if HasZombie(t, c) {
      var q :| IsSlot(q) && t.parent[q] == c && t.st[q] == ZOMBIE;
      assert s.parent[q] == c && s.st[q] == ZOMBIE;
    }
  }

  lemma FirstTable(s: Procs)
    requires |s.st| == |s.parent| == |s.chan| == |s.killed| == |s.pid| == |s.doing| == NPROC && s.init == 0
    requires s.nextpid == 2
    requires forall p :: 0 <= p < NPROC ==>
               s.st[p] == (if p == 0 then RUNNABLE else UNUSED) && s.doing[p] == Normal && s.parent[p] == NOPROC
               && s.pid[p] == if p == 0 then 1 else 0
    ensures Inv(s) && Pids(s)
  {
  }
}
