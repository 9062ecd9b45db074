/**
 What whole runs of ProcLife's steps come to: process numbers are never shared, a fork ends with the child it
 started, and a sleeper sleeps until somebody wakes it.
 */
module ProcRuns {
  import opened Mlfq
  import opened ProcLife

  // Process numbers.

  /** A number below `nextpid` is held by at most one slot, and every slot in use holds one. */
  ghost predicate Pids(s: Procs) {
    && Sized(s) && 0 < s.nextpid
    && (forall p :: IsSlot(p) ==> s.pid[p] < s.nextpid && (s.st[p] != UNUSED ==> 0 < s.pid[p]))
    && (forall p, q :: IsSlot(p) && IsSlot(q) && p != q && 0 < s.pid[p] ==> s.pid[p] != s.pid[q])
  }

  lemma PidsAt(s: Procs, p: int, q: int)
    requires Pids(s) && IsSlot(p) && IsSlot(q)
    ensures s.pid[p] < s.nextpid && (s.st[p] != UNUSED ==> 0 < s.pid[p])
    ensures p != q && 0 < s.pid[p] ==> s.pid[p] != s.pid[q]
  {
  }

  lemma PidsAll(s: Procs)
    requires Pids(s)
    ensures Sized(s) && forall p :: IsSlot(p) ==> s.pid[p] < s.nextpid
    ensures forall p, q :: 0 <= p < q < NPROC && s.pid[p] == s.pid[q] ==> s.pid[p] == 0
  {
  }

  /** No step but Alloc brings a slot into use. */
  lemma InUse(s: Procs, e: Step, p: int)
    requires Inv(s) && Enabled(s, e) && IsSlot(p) && Sized(Apply(s, e))
    ensures Apply(s, e).st[p] != UNUSED ==> s.st[p] != UNUSED || (e.Alloc? && e.p == p)
  {
    hide Inv, Parented, Notified, OneForker, HasZombie;
    InvSized(s);
    if e.Publish? {
      InvAt(s, e.c, p);
    }
  }

  lemma PidsKeep(s: Procs, e: Step)
    requires Inv(s) && Pids(s) && Enabled(s, e)
    ensures Pids(Apply(s, e))
  {
    hide Inv, Pids, HasZombie, Woken, Adopted;
    InvSized(s);
    var t := Apply(s, e);
    StepKeeps(s, e);
    InvSized(t);
    forall p, q | IsSlot(p) && IsSlot(q) ensures PidsOf(t, p, q) {
      PidsAt(s, p, q);
      PidsAt(s, q, p);
      InUse(s, e, p);
    }
    PidsFrom(t);
  }

  ghost predicate PidsOf(s: Procs, p: int, q: int)
    requires Sized(s) && IsSlot(p) && IsSlot(q)
  {
    && s.pid[p] < s.nextpid && (s.st[p] != UNUSED ==> 0 < s.pid[p])
    && (p != q && 0 < s.pid[p] ==> s.pid[p] != s.pid[q])
  }

  lemma PidsFrom(s: Procs)
    requires Sized(s) && forall p, q :: IsSlot(p) && IsSlot(q) ==> PidsOf(s, p, q)
    ensures Pids(s)
  {
    assert PidsOf(s, 0, 0);
    forall p | IsSlot(p) ensures s.pid[p] < s.nextpid && (s.st[p] != UNUSED ==> 0 < s.pid[p]) {
      assert PidsOf(s, p, p);
    }
  }

  /** In every interleaving, two slots in use have different process numbers. */
  lemma {:induction false} PidsDistinct(s: Procs, es: seq<Step>, p: int, q: int)
    requires Inv(s) && Pids(s) && IsRun(s, es) && IsSlot(p) && IsSlot(q) && p != q
    ensures var t := End(s, es);
            Pids(t) && (t.st[p] != UNUSED ==> 0 < t.pid[p] < t.nextpid && t.pid[p] != t.pid[q])
    decreases |es|
  {
    hide Inv, Pids, Enabled, Apply;
    if es == [] {
      PidsAt(s, p, q);
    } else {
      StepKeeps(s, es[0]);
      PidsKeep(s, es[0]);
      PidsDistinct(Apply(s, es[0]), es[1..], p, q);
    }
  }

  // fork.

  /** `c` is still building the child in slot `p`. */
  ghost predicate Building(s: Procs, c: int, p: int) {
    Sized(s) && IsSlot(c) && IsSlot(p) && s.doing[c] == Forking(p)
  }

  lemma BuildingStep(s: Procs, e: Step, c: int, p: int)
    requires Inv(s) && Building(s, c, p) && Enabled(s, e) && e != Publish(c) && e != GiveUp(c)
    ensures var t := Apply(s, e);
            Building(t, c, p) && t.pid[p] == s.pid[p]
            && t.parent[p] == if e == SetParent(c) then c else s.parent[p]
  {
    hide Inv, HasZombie, Parented, Notified;
    InvAt(s, c, p);
    InvAt(s, p, c);
    if e.SetParent? {
      InvAt(s, e.c, c);
    }
  }

  lemma {:induction false} BuildingKept(s: Procs, es: seq<Step>, c: int, p: int)
    requires Inv(s) && Building(s, c, p) && IsRun(s, es) && Publish(c) !in es && GiveUp(c) !in es
    ensures var t := End(s, es);
            Building(t, c, p) && t.pid[p] == s.pid[p]
            && t.parent[p] == if SetParent(c) in es then c else s.parent[p]
    decreases |es|
  {
    hide Inv, Enabled, Apply, Building;
    if es != [] {
      assert es == [es[0]] + es[1..];
      StepKeeps(s, es[0]);
      BuildingStep(s, es[0], c, p);
      BuildingKept(Apply(s, es[0]), es[1..], c, p);
    }
  }

  /**
   fork under every interleaving: whatever the others do while `c` sets up the slot it claimed, the slot stays its
   child in the making. Once `c` has stored the parent, publishing makes a RUNNABLE process whose parent is `c`
   and whose number is the one taken when the slot was claimed.
   */
  lemma ForkMakesChild(s: Procs, c: int, p: int, es: seq<Step>)
    requires Inv(s) && Enabled(s, Step.Alloc(c, p)) && IsRun(Apply(s, Step.Alloc(c, p)), es)
    requires Publish(c) !in es && GiveUp(c) !in es && SetParent(c) in es
    requires var t := End(Apply(s, Step.Alloc(c, p)), es); Sized(t) && IsSlot(c) && t.st[c] == RUNNING
    ensures var t := End(Apply(s, Step.Alloc(c, p)), es); Enabled(t, Publish(c)) && t.st[p] == EMBRYO
    ensures var t := End(Apply(s, Step.Alloc(c, p)), es);
            var u := Apply(t, Publish(c));
            Sized(u) && u.st[p] == RUNNABLE && u.parent[p] == c && u.pid[p] == s.nextpid && u.doing[c] == Normal
  {
    hide Inv;
    InvSized(s);
    var a := Apply(s, Step.Alloc(c, p));
    StepKeeps(s, Step.Alloc(c, p));
    BuildingKept(a, es, c, p);
    RunKeeps(a, es);
    InvAt(End(a, es), c, p);
  }

  /**
   A fork that fails before it has stored the parent frees the slot, but the number stays behind in it: the slot is
   UNUSED with a pid, the case in which allocproc later cleans up the queue.
   */
  lemma FailedForkLeavesPid(s: Procs, c: int, p: int, es: seq<Step>)
    requires Inv(s) && Pids(s) && Enabled(s, Step.Alloc(c, p)) && IsRun(Apply(s, Step.Alloc(c, p)), es)
    requires Publish(c) !in es && GiveUp(c) !in es && SetParent(c) !in es
    requires var t := End(Apply(s, Step.Alloc(c, p)), es); Sized(t) && IsSlot(c) && t.st[c] == RUNNING
    ensures var t := End(Apply(s, Step.Alloc(c, p)), es); Enabled(t, GiveUp(c))
    ensures var u := Apply(End(Apply(s, Step.Alloc(c, p)), es), GiveUp(c));
            Sized(u) && u.st[p] == UNUSED && u.pid[p] == s.nextpid && 0 < s.nextpid && u.doing[c] == Normal
  {
    hide Inv;
    InvSized(s);
    var a := Apply(s, Step.Alloc(c, p));
    InvAt(s, p, c);
    StepKeeps(s, Step.Alloc(c, p));
    BuildingKept(a, es, c, p);
  }

  // Sleeping.

  /** The steps that wake `c`: a wakeup of its channel, a kill, and the exits that wait is woken for. */
  ghost predicate Wakes(s: Procs, e: Step, c: int)
    requires Sized(s) && IsSlot(c) && Enabled(s, e)
  {
    match e
    case Wakeup(chan) => chan == s.chan[c]
    case Kill(p) => p == c
    case Exit(x) => s.chan[c] == s.parent[x] || (s.chan[c] == s.init && HasZombie(s, x))
    case _ => false
  }

  lemma SleeperStep(s: Procs, e: Step, c: int)
    requires Inv(s) && Enabled(s, e) && IsSlot(c) && s.st[c] == SLEEPING
    ensures Sized(Apply(s, e)) && Apply(s, e).chan[c] == s.chan[c]
    ensures Apply(s, e).st[c] == if Wakes(s, e, c) then RUNNABLE else SLEEPING
  {
    hide Inv, Parented, Notified;
    InvSized(s);
    if e.Publish? || e.GiveUp? {
      InvAt(s, e.c, c);
    }
  }

  /** No step of the run wakes `c`. */
  ghost predicate Undisturbed(s: Procs, es: seq<Step>, c: int)
    requires IsRun(s, es) && IsSlot(c)
    decreases |es|
  {
    es == [] || (!Wakes(s, es[0], c) && Undisturbed(Apply(s, es[0]), es[1..], c))
  }

  /** A sleeper sleeps on through every run that does not wake it, and is RUNNABLE right after the step that does. */
  lemma {:induction false} SleepsUntilWoken(s: Procs, es: seq<Step>, e: Step, c: int)
    requires Inv(s) && IsRun(s, es) && IsSlot(c) && s.st[c] == SLEEPING && Undisturbed(s, es, c)
    requires Sized(End(s, es)) && Enabled(End(s, es), e)
    ensures var t := End(s, es);
            t.st[c] == SLEEPING && t.chan[c] == s.chan[c]
            && Sized(Apply(t, e)) && Apply(t, e).st[c] == if Wakes(t, e, c) then RUNNABLE else SLEEPING
    decreases |es|
  {
    hide Inv, Enabled, Apply, Wakes;
    if es == [] {
      SleeperStep(s, e, c);
    } else {
      StepKeeps(s, es[0]);
      SleeperStep(s, es[0], c);
      SleepsUntilWoken(Apply(s, es[0]), es[1..], e, c);
    }
  }

  // The life of a slot.

  /** Each state of a slot has its own way out, and only the step meant for it takes that way. */
  ghost function NextState(s: Procs, e: Step, p: int): ProcState
    requires Sized(s) && Enabled(s, e) && IsSlot(p)
  {
    match s.st[p]
    case UNUSED => if e.Alloc? && e.p == p then EMBRYO else UNUSED
    case EMBRYO =>
      if e.Publish? && s.doing[e.c] == Forking(p) then RUNNABLE
      else if e.GiveUp? && s.doing[e.c] == Forking(p) then UNUSED
      else EMBRYO
    case RUNNABLE => if e == Run(p) then RUNNING else RUNNABLE
    case RUNNING =>
      if e == Exit(p) then ZOMBIE
      else if e == Yield(p) then RUNNABLE
      else if (e.Sleep? || e.WaitSleep?) && e.c == p then SLEEPING
      else RUNNING
    case SLEEPING => if Wakes(s, e, p) then RUNNABLE else SLEEPING
    case ZOMBIE => if e.Reap? && e.q == p then UNUSED else ZOMBIE
  }

  lemma AwakeStep(s: Procs, e: Step, p: int)
    requires Inv(s) && Enabled(s, e) && IsSlot(p) && s.st[p] != SLEEPING
    ensures Sized(Apply(s, e)) && Apply(s, e).st[p] == NextState(s, e, p)
  {
    hide Inv, Parented, Notified, OneForker, HasZombie, Wakes;
    InvSized(s);
    if e.Publish? || e.GiveUp? {
      InvAt(s, e.c, p);
    }
  }

  lemma LifeCycle(s: Procs, e: Step, p: int)
    requires Inv(s) && Enabled(s, e) && IsSlot(p)
    ensures Sized(Apply(s, e)) && Apply(s, e).st[p] == NextState(s, e, p)
  {
    hide Inv, Enabled, Apply, Wakes;
    InvSized(s);
    if s.st[p] == SLEEPING {
      SleeperStep(s, e, p);
    } else {
      AwakeStep(s, e, p);
    }
  }

  /** Only a sleeper, or one that was woken and has not run yet, is on a channel. */
  ghost predicate OnChannel(s: Procs, p: int)
    requires Sized(s) && IsSlot(p)
  {
    s.chan[p] != NOPROC ==> s.st[p] == SLEEPING || s.st[p] == RUNNABLE
  }

  lemma {:induction false} ChannelsAreLeft(s: Procs, es: seq<Step>, p: int)
    requires Inv(s) && IsRun(s, es) && IsSlot(p) && OnChannel(s, p)
    ensures Sized(End(s, es)) && OnChannel(End(s, es), p)
    decreases |es|
  {
    hide Inv, NextState, HasZombie, Woken, Adopted;
    InvSized(s);
    if es != [] {
      StepKeeps(s, es[0]);
      ChannelStep(s, es[0], p);
      ChannelsAreLeft(Apply(s, es[0]), es[1..], p);
    }
  }

  lemma ChannelStep(s: Procs, e: Step, p: int)
    requires Inv(s) && Enabled(s, e) && IsSlot(p) && OnChannel(s, p)
    ensures Sized(Apply(s, e)) && OnChannel(Apply(s, e), p)
  {
    hide Inv, HasZombie, Woken, Adopted;
    InvSized(s);
    LifeCycle(s, e, p);
  }
}
