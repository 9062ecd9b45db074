/**
 fork, exit, wait, sleep, wakeup and kill on the process table. Each region of code that
 holds ptable.lock is one step, and so is each store that fork makes without it; any
 process may take its next step at any time.
 */
module ProcLife {
  import opened Mlfq

  const NOPROC := -1   // a null parent or channel

  /** What a process is in the middle of. */
  datatype Doing = Normal | Forking(child: int)

  /**
   `chan` holds a slot number for a process asleep in wait, which sleeps on its own
   address, and some other number for every other channel.
   */
  datatype Procs = Procs(
    st: seq<ProcState>, parent: seq<int>, chan: seq<int>, killed: seq<bool>, pid: seq<nat>,
    doing: seq<Doing>, init: int, nextpid: nat)

  ghost predicate Sized(s: Procs) {
    && |s.st| == |s.parent| == |s.chan| == |s.killed| == |s.pid| == |s.doing| == NPROC
    && IsSlot(s.init)
  }

  predicate Alive(x: ProcState) { x.SLEEPING? || x.RUNNABLE? || x.RUNNING? }

  /** Exists, whether running or waiting to be reaped. */
  predicate Born(x: ProcState) { Alive(x) || x.ZOMBIE? }

  /** Every process but init has a parent that is neither a zombie nor gone. */
  ghost predicate Parented(s: Procs, p: int)
    requires Sized(s) && IsSlot(p)
  {
    Born(s.st[p]) && p != s.init ==> IsSlot(s.parent[p]) && s.parent[p] != p && Alive(s.st[s.parent[p]])
  }

  /** Asleep in wait. */
  ghost predicate InWait(s: Procs, p: int)
    requires Sized(s) && IsSlot(p)
  {
    s.st[p] == SLEEPING && s.chan[p] == p
  }

  /** Nobody asleep in wait has a child to reap. */
  ghost predicate Notified(s: Procs, p: int, q: int)
    requires Sized(s) && IsSlot(p) && IsSlot(q)
  {
    InWait(s, p) ==> !(s.parent[q] == p && s.st[q] == ZOMBIE)
  }

  /** A slot being set up belongs to exactly one fork; an unused slot has no parent. */
  ghost predicate Embryonic(s: Procs, p: int)
    requires Sized(s) && IsSlot(p)
  {
    && (s.st[p] == UNUSED ==> s.parent[p] == NOPROC)
    && (s.st[p] == EMBRYO && s.parent[p] != NOPROC ==> IsSlot(s.parent[p]) && s.doing[s.parent[p]] == Forking(p))
    && (s.doing[p].Forking? ==> Alive(s.st[p]) && IsSlot(s.doing[p].child) && s.st[s.doing[p].child] == EMBRYO)
  }

  ghost predicate OneForker(s: Procs, p: int, q: int)
    requires Sized(s) && IsSlot(p) && IsSlot(q)
  {
    s.doing[p].Forking? && s.doing[p] == s.doing[q] ==> p == q
  }

  ghost predicate Inv(s: Procs) {
    && Sized(s) && Alive(s.st[s.init])
    && (forall p :: IsSlot(p) ==> Parented(s, p) && Embryonic(s, p))
    && (forall p, q :: IsSlot(p) && IsSlot(q) ==> Notified(s, p, q) && OneForker(s, p, q))
  }

  // Steps.

  ghost function Woken(st: seq<ProcState>, chan: seq<int>, c: int): (r: seq<ProcState>)
    requires |st| == |chan|
    ensures |r| == |st|
    ensures forall i :: 0 <= i < |st| ==> r[i] == if st[i] == SLEEPING && chan[i] == c then RUNNABLE else st[i]
  {
    seq(|st|, i requires 0 <= i < |st| => if st[i] == SLEEPING && chan[i] == c then RUNNABLE else st[i])
  }

  ghost function Adopted(parent: seq<int>, c: int, init: int): (r: seq<int>)
    ensures |r| == |parent|
    ensures forall i :: 0 <= i < |parent| ==> r[i] == if parent[i] == c then init else parent[i]
  {
    seq(|parent|, i requires 0 <= i < |parent| => if parent[i] == c then init else parent[i])
  }

  ghost predicate HasZombie(s: Procs, c: int)
    requires Sized(s)
  {
    exists q :: IsSlot(q) && s.parent[q] == c && s.st[q] == ZOMBIE
  }

  datatype Step = Alloc(c: int, p: int) | SetParent(c: int) | Publish(c: int) | GiveUp(c: int)
                | Exit(c: int) | Reap(c: int, q: int) | WaitSleep(c: int)
                | Kill(p: int) | Sleep(c: int, chan: int) | Wakeup(chan: int) | Run(p: int) | Yield(p: int)

  ghost predicate Free(s: Procs, c: int)
    requires Sized(s)
  {
    IsSlot(c) && s.st[c] == RUNNING && s.doing[c] == Normal
  }

  ghost predicate Enabled(s: Procs, e: Step)
    requires Sized(s)
  {
    match e
    case Alloc(c, p) => Free(s, c) && IsSlot(p) && s.st[p] == UNUSED
    case SetParent(c) => IsSlot(c) && s.st[c] == RUNNING && s.doing[c].Forking? && IsSlot(s.doing[c].child)
    case Publish(c) =>
      IsSlot(c) && s.st[c] == RUNNING && s.doing[c].Forking? && IsSlot(s.doing[c].child)
      && s.parent[s.doing[c].child] == c
    case GiveUp(c) =>
      IsSlot(c) && s.st[c] == RUNNING && s.doing[c].Forking? && IsSlot(s.doing[c].child)
      && s.parent[s.doing[c].child] == NOPROC
    case Exit(c) => Free(s, c) && c != s.init
    case Reap(c, q) => Free(s, c) && IsSlot(q) && s.parent[q] == c && s.st[q] == ZOMBIE
    case WaitSleep(c) => Free(s, c) && !HasZombie(s, c)
    case Kill(p) => IsSlot(p)
    case Sleep(c, chan) => IsSlot(c) && s.st[c] == RUNNING && !IsSlot(chan)
    case Wakeup(chan) => !IsSlot(chan)
    case Run(p) => IsSlot(p) && s.st[p] == RUNNABLE
    case Yield(p) => IsSlot(p) && s.st[p] == RUNNING
  }

  ghost function ExitStep(s: Procs, c: int): Procs
    requires Sized(s) && IsSlot(c)
  {
    var st1 := Woken(s.st, s.chan, s.parent[c]);
    var st2 := if HasZombie(s, c) then Woken(st1, s.chan, s.init) else st1;
    s.(st := st2[c := ZOMBIE], parent := Adopted(s.parent, c, s.init))
  }

  ghost function Apply(s: Procs, e: Step): Procs
    requires Sized(s) && Enabled(s, e)
  {
    match e
    case Alloc(c, p) =>
      s.(st := s.st[p := EMBRYO], pid := s.pid[p := s.nextpid], nextpid := s.nextpid + 1,
         doing := s.doing[c := Forking(p)])
    case SetParent(c) => s.(parent := s.parent[s.doing[c].child := c])
    case Publish(c) => s.(st := s.st[s.doing[c].child := RUNNABLE], doing := s.doing[c := Normal])
    case GiveUp(c) => s.(st := s.st[s.doing[c].child := UNUSED], doing := s.doing[c := Normal])
    case Exit(c) => ExitStep(s, c)
    case Reap(c, q) =>
      s.(st := s.st[q := UNUSED], parent := s.parent[q := NOPROC], pid := s.pid[q := 0], killed := s.killed[q := false])
    case WaitSleep(c) => s.(st := s.st[c := SLEEPING], chan := s.chan[c := c])
    case Kill(p) =>
      s.(killed := s.killed[p := true], st := if s.st[p] == SLEEPING then s.st[p := RUNNABLE] else s.st)
    case Sleep(c, chan) => s.(st := s.st[c := SLEEPING], chan := s.chan[c := chan])
    case Wakeup(chan) => s.(st := Woken(s.st, s.chan, chan))
    case Run(p) => s.(st := s.st[p := RUNNING], chan := s.chan[p := NOPROC])
    case Yield(p) => s.(st := s.st[p := RUNNABLE])
  }

  // Every step keeps the invariant, one pair of slots at a time.

  ghost predicate Good(s: Procs, p: int, q: int) {
    && Sized(s) && Alive(s.st[s.init]) && IsSlot(p) && IsSlot(q)
    && Parented(s, p) && Embryonic(s, p) && Notified(s, p, q) && OneForker(s, p, q)
  }

  lemma InvAt(s: Procs, p: int, q: int)
    requires Inv(s) && IsSlot(p) && IsSlot(q)
    ensures Good(s, p, q) && Good(s, q, p)
  {
  }

  lemma InvSized(s: Procs)
    requires Inv(s)
    ensures Sized(s) && Alive(s.st[s.init])
  {
  }

  /** The parent of a born process, seen through the invariant. */
  lemma ParentAt(s: Procs, p: int)
    requires Inv(s) && IsSlot(p) && IsSlot(s.parent[p])
    ensures Good(s, s.parent[p], p) && Good(s, p, s.parent[p])
  {
    InvAt(s, p, s.parent[p]);
  }

  lemma AllocAt(s: Procs, c: int, x: int, p: int, q: int)
    requires Inv(s) && Enabled(s, Alloc(c, x)) && IsSlot(p) && IsSlot(q)
    ensures Good(Apply(s, Alloc(c, x)), p, q)
  {
    hide Inv;
    InvAt(s, p, q);
    InvAt(s, c, p);
    InvAt(s, c, q);
    InvAt(s, x, p);
    if IsSlot(s.parent[p]) {
      ParentAt(s, p);
    }
  }

  lemma SetParentAt(s: Procs, c: int, p: int, q: int)
    requires Inv(s) && Enabled(s, SetParent(c)) && IsSlot(p) && IsSlot(q)
    ensures Good(Apply(s, SetParent(c)), p, q)
  {
    hide Inv;
    InvAt(s, p, q);
    InvAt(s, c, p);
    InvAt(s, c, q);
    InvAt(s, s.doing[c].child, p);
    InvAt(s, s.doing[c].child, c);
    if IsSlot(s.parent[p]) {
      ParentAt(s, p);
      InvAt(s, s.parent[p], c);
    }
  }

  lemma PublishAt(s: Procs, c: int, p: int, q: int)
    requires Inv(s) && Enabled(s, Publish(c)) && IsSlot(p) && IsSlot(q)
    ensures Good(Apply(s, Publish(c)), p, q)
  {
    hide Inv;
    InvAt(s, p, q);
    InvAt(s, c, p);
    InvAt(s, c, q);
    InvAt(s, s.doing[c].child, p);
    InvAt(s, s.doing[c].child, c);
    if IsSlot(s.parent[p]) {
      ParentAt(s, p);
      InvAt(s, s.parent[p], c);
    }
  }

  lemma GiveUpAt(s: Procs, c: int, p: int, q: int)
    requires Inv(s) && Enabled(s, GiveUp(c)) && IsSlot(p) && IsSlot(q)
    ensures Good(Apply(s, GiveUp(c)), p, q)
  {
    hide Inv;
    InvAt(s, p, q);
    InvAt(s, c, p);
    InvAt(s, c, q);
    InvAt(s, s.doing[c].child, p);
    InvAt(s, s.doing[c].child, c);
    if IsSlot(s.parent[p]) {
      ParentAt(s, p);
      InvAt(s, s.parent[p], c);
    }
  }

  lemma ExitParented(s: Procs, c: int, p: int)
    requires Inv(s) && Enabled(s, Exit(c)) && IsSlot(p)
    ensures var t := Apply(s, Exit(c)); Sized(t) && Alive(t.st[t.init]) && Parented(t, p) && Embryonic(t, p)
  {
    hide Inv, HasZombie;
    InvAt(s, p, c);
    InvAt(s, s.init, c);
    if IsSlot(s.parent[p]) {
      ParentAt(s, p);
    }
  }

  /** The parent is woken before its child turns zombie, and init before it inherits a zombie. */
  lemma ExitNotified(s: Procs, c: int, p: int, q: int)
    requires Inv(s) && Enabled(s, Exit(c)) && IsSlot(p) && IsSlot(q)
    ensures var t := Apply(s, Exit(c)); Sized(t) && Notified(t, p, q) && OneForker(t, p, q)
  {
    hide Inv;
    InvAt(s, p, q);
    InvAt(s, c, p);
  }

  lemma ExitAt(s: Procs, c: int, p: int, q: int)
    requires Inv(s) && Enabled(s, Exit(c)) && IsSlot(p) && IsSlot(q)
    ensures Good(Apply(s, Exit(c)), p, q)
  {
    hide Inv, Apply, Enabled;
    ExitParented(s, c, p);
    ExitNotified(s, c, p, q);
  }

  lemma ReapAt(s: Procs, c: int, x: int, p: int, q: int)
    requires Inv(s) && Enabled(s, Step.Reap(c, x)) && IsSlot(p) && IsSlot(q)
    ensures Good(Apply(s, Step.Reap(c, x)), p, q)
  {
    hide Inv;
    InvAt(s, p, q);
    InvAt(s, c, p);
    InvAt(s, x, p);
    InvAt(s, x, c);
    if IsSlot(s.parent[p]) {
      ParentAt(s, p);
    }
  }

  lemma WaitSleepAt(s: Procs, c: int, p: int, q: int)
    requires Inv(s) && Enabled(s, WaitSleep(c)) && IsSlot(p) && IsSlot(q)
    ensures Good(Apply(s, WaitSleep(c)), p, q)
  {
    hide Inv;
    InvAt(s, p, q);
    InvAt(s, c, p);
    if IsSlot(s.parent[p]) {
      ParentAt(s, p);
    }
  }

  lemma WakeAt(s: Procs, chan: int, p: int, q: int)
    requires Inv(s) && Enabled(s, Wakeup(chan)) && IsSlot(p) && IsSlot(q)
    ensures Good(Apply(s, Wakeup(chan)), p, q)
  {
    hide Inv;
    InvAt(s, p, q);
    if IsSlot(s.parent[p]) {
      ParentAt(s, p);
    }
  }

  lemma KillAt(s: Procs, x: int, p: int, q: int)
    requires Inv(s) && Enabled(s, Kill(x)) && IsSlot(p) && IsSlot(q)
    ensures Good(Apply(s, Kill(x)), p, q)
  {
    hide Inv, Woken;
    InvAt(s, p, q);
    if IsSlot(s.parent[p]) {
      ParentAt(s, p);
    }
  }

  lemma SleepAt(s: Procs, c: int, chan: int, p: int, q: int)
    requires Inv(s) && Enabled(s, Sleep(c, chan)) && IsSlot(p) && IsSlot(q)
    ensures Good(Apply(s, Sleep(c, chan)), p, q)
  {
    hide Inv, Woken;
    InvAt(s, p, q);
    if IsSlot(s.parent[p]) {
      ParentAt(s, p);
    }
  }

  lemma SwitchAt(s: Procs, e: Step, p: int, q: int)
    requires Inv(s) && Enabled(s, e) && (e.Run? || e.Yield?) && IsSlot(p) && IsSlot(q)
    ensures Good(Apply(s, e), p, q)
  {
    hide Inv, Woken;
    InvAt(s, p, q);
    if IsSlot(s.parent[p]) {
      ParentAt(s, p);
    }
  }

  lemma StepKeeps(s: Procs, e: Step)
    requires Inv(s) && Enabled(s, e)
    ensures Inv(Apply(s, e))
  {
    hide Enabled, Apply, Parented, Embryonic, Notified, OneForker;
    InvSized(s);
    var t := Apply(s, e);
    forall p, q | IsSlot(p) && IsSlot(q) ensures Good(t, p, q) {
      match e
      case Alloc(c, x) => AllocAt(s, c, x, p, q);
      case SetParent(c) => SetParentAt(s, c, p, q);
      case Publish(c) => PublishAt(s, c, p, q);
      case GiveUp(c) => GiveUpAt(s, c, p, q);
      case Exit(c) => ExitAt(s, c, p, q);
      case Reap(c, x) => ReapAt(s, c, x, p, q);
      case WaitSleep(c) => WaitSleepAt(s, c, p, q);
      case Wakeup(chan) => WakeAt(s, chan, p, q);
      case Kill(x) => KillAt(s, x, p, q);
      case Sleep(c, chan) => SleepAt(s, c, chan, p, q);
      case _ => SwitchAt(s, e, p, q);
    }
    assert Good(t, 0, 0);
    forall p | IsSlot(p) ensures Parented(t, p) && Embryonic(t, p) {
      assert Good(t, p, p);
    }
  }

  // Runs.

  ghost predicate IsRun(s: Procs, es: seq<Step>)
    decreases |es|
  {
    es == [] || (Sized(s) && Enabled(s, es[0]) && IsRun(Apply(s, es[0]), es[1..]))
  }

  ghost function End(s: Procs, es: seq<Step>): Procs
    requires IsRun(s, es)
    decreases |es|
  {
    if es == [] then s else End(Apply(s, es[0]), es[1..])
  }

  lemma {:induction false} RunKeeps(s: Procs, es: seq<Step>)
    requires Inv(s) && IsRun(s, es)
    ensures Inv(End(s, es))
    decreases |es|
  {
    hide Inv, Enabled, Apply;
    if es != [] {
      StepKeeps(s, es[0]);
      RunKeeps(Apply(s, es[0]), es[1..]);
    }
  }

  /**
   In every interleaving, a process asleep in wait has no zombie child, and every process
   but init has a living parent to reap it.
   */
  lemma NoLostExit(s: Procs, es: seq<Step>, p: int, q: int)
    requires Inv(s) && IsRun(s, es) && IsSlot(p) && IsSlot(q)
    ensures var t := End(s, es);
            && Sized(t)
            && (t.st[p] == SLEEPING && t.chan[p] == p && t.parent[q] == p ==> t.st[q] != ZOMBIE)
            && (Born(t.st[q]) && q != t.init ==> IsSlot(t.parent[q]) && Alive(t.st[t.parent[q]]))
  {
    hide Enabled, Apply;
    RunKeeps(s, es);
    InvAt(End(s, es), p, q);
  }
}
