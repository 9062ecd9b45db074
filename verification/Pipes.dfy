/**
 pipe.c's code: the ring in its array and the copy loops, proved to take the steps of
 PipeProtocol.
 */
module Pipes {
  import opened Counting
  import opened PipeProtocol

  datatype Outcome = Done(n: int) | Failed | Asleep(left: nat)

  class Channel {
    const data: array<int>
    var nread: nat
    var nwrite: nat
    var readopen: bool
    var writeopen: bool
    var writers: set<int>
    var readers: set<int>
    ghost var accepted: seq<int>
    ghost var taken: seq<int>

    ghost function Abs(): Pipe
      reads this, data
    {
      Pipe(data[..], nread, nwrite, readopen, writeopen, writers, readers, accepted, taken)
    }

    ghost predicate Valid()
      reads this, data
    {
      data.Length == PIPESIZE && Inv(Abs())
    }

    /** pipealloc. */
    constructor ()
      ensures Valid() && fresh(data) && accepted == taken == [] && readopen && writeopen && ReadersOk(Abs())
    {
      data := new int[PIPESIZE](_ => 0);
      nread, nwrite, readopen, writeopen := 0, 0, true, true;
      writers, readers, accepted, taken := {}, {}, [], [];
    }

    /** Puts bytes into the ring from `addr[from..]` on, as long as there is room. */
    method CopyIn(addr: seq<int>, from: nat) returns (i: nat)
      requires data.Length == PIPESIZE && from <= |addr|
      modifies this`nwrite, this`accepted, data
      ensures from <= i <= |addr| && (i < |addr| ==> Full(Abs()))
      ensures Abs() == PushAll(old(Abs()), addr[from..]) && i - from == |accepted| - |old(accepted)|
    {
      i := from;
      while i < |addr|
        invariant from <= i <= |addr|
        invariant PushAll(Abs(), addr[i..]) == PushAll(old(Abs()), addr[from..])
        invariant i - from == |accepted| - |old(accepted)|
      {
        if nwrite == (nread + PIPESIZE) % WORD {
          return;
        }
        assert addr[i..][0] == addr[i] && addr[i..][1..] == addr[i + 1..];
        ghost var s := Abs();
        data[nwrite % PIPESIZE] := addr[i];
        nwrite := (nwrite + 1) % WORD;
        accepted := accepted + [addr[i]];
        assert Abs() == Push(s, addr[i]);
        i := i + 1;
      }
    }

    /** Takes at most `n` bytes out of the ring. */
    method CopyOut(n: nat) returns (addr: seq<int>)
      requires data.Length == PIPESIZE
      modifies this`nread, this`taken
      ensures Abs() == PopUpTo(old(Abs()), n) && taken == old(taken) + addr
    {
      addr := [];
      var i := 0;
      while i < n
        invariant 0 <= i <= n
        invariant PopUpTo(Abs(), n - i) == PopUpTo(old(Abs()), n) && taken == old(taken) + addr
      {
        if nread == nwrite {
          return;
        }
        ghost var s := Abs();
        addr := addr + [data[nread % PIPESIZE]];
        taken := taken + [data[nread % PIPESIZE]];
        nread := (nread + 1) % WORD;
        assert Abs() == Pop(s);
        i := i + 1;
      }
    }

    /**
     pipewrite, from taking the lock (or waking up with bytes `addr[from..]` left) until it
     returns or sleeps.
     */
    method PipeWrite(p: int, addr: seq<int>, from: nat, killed: bool) returns (o: Outcome)
      requires Valid() && from <= |addr| && Enabled(Abs(), Write(p, addr[from..], killed))
      modifies this, data
      ensures Valid() && Abs() == Apply(old(Abs()), Write(p, addr[from..], killed))
      ensures o.Done? <==> AllIn(old(Abs()), addr[from..])
      ensures o.Done? ==> o.n == |addr|
      ensures o.Asleep? <==> p in writers
      ensures o.Failed? <==> !AllIn(old(Abs()), addr[from..]) && (!old(readopen) || killed)
      ensures accepted == old(accepted) + addr[from..][..Min(|addr| - from, PIPESIZE - Count(old(Abs())))]
      ensures o.Asleep? ==> o.left == |addr| - from - (PIPESIZE - Count(old(Abs())))
      ensures o.Asleep? ==> writers == old(writers) + {p} && readers == {}
      ensures o.Done? ==> writers == old(writers) && readers == {}
      ensures o.Failed? ==> writers == old(writers) && readers == old(readers)
      ensures readopen == old(readopen) && writeopen == old(writeopen) && taken == old(taken) && nread == old(nread)
    {
      hide PushAll, Fifo;
      ghost var s := Abs();
      StepKeeps(s, Write(p, addr[from..], killed));
      PushAllKeeps(s, addr[from..]);
      CountFacts(s);
      var i := CopyIn(addr, from);
      if i < |addr| {
        if !readopen || killed {
          return Failed;
        }
        readers := {};
        writers := writers + {p};
        return Asleep(|addr| - i);
      }
      readers := {};
      return Done(|addr|);
    }

    method PipeRead(p: int, n: nat, killed: bool) returns (o: Outcome, addr: seq<int>)
      requires Valid() && Enabled(Abs(), Read(p, n, killed))
      modifies this, data
      ensures Valid() && Abs() == Apply(old(Abs()), Read(p, n, killed))
      ensures o.Done? ==> o.n == |addr| == Min(n, Count(old(Abs()))) && taken == old(taken) + addr
      ensures o.Asleep? <==> p in readers
      ensures o.Failed? <==> old(Empty(Abs())) && writeopen && killed
      ensures !o.Done? ==> addr == []
      ensures o.Asleep? ==> o.left == n && Abs() == old(Abs()).(readers := old(readers) + {p})
      ensures o.Failed? ==> Abs() == old(Abs())
      ensures o.Done? ==> writers == {} && readers == old(readers)
      ensures readopen == old(readopen) && writeopen == old(writeopen) && accepted == old(accepted)
    {
      hide PopUpTo, Fifo;
      ghost var s := Abs();
      StepKeeps(s, Read(p, n, killed));
      PopUpToKeeps(s, n);
      addr := [];
      if nread == nwrite && writeopen {
        if killed {
          return Failed, addr;
        }
        readers := readers + {p};
        return Asleep(n), addr;
      }
      addr := CopyOut(n);
      writers := {};
      return Done(|addr|), addr;
    }

    method PipeClose(writable: bool)
      requires Valid() && Enabled(Abs(), if writable then CloseWrite else CloseRead)
      modifies this
      ensures Valid() && Abs() == Apply(old(Abs()), if writable then CloseWrite else CloseRead)
      ensures writable ==> Abs() == old(Abs()).(writeopen := false, readers := {})
      ensures !writable ==> Abs() == old(Abs()).(readopen := false, writers := {})
    {
      StepKeeps(Abs(), if writable then CloseWrite else CloseRead);
      if writable {
        writeopen := false;
        readers := {};
      } else {
        readopen := false;
        writers := {};
      }
    }
  }

  lemma CountFacts(s: Pipe)
    requires Inv(s)
    ensures 0 <= Count(s) <= PIPESIZE
  {
    FifoFacts(s);
  }
}
