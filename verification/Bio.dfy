/**
 The buffer cache of bio.c as an object: binit, bget, bread, bwrite and brelse, with the disk that
 iderw talks to.
 */
module Bio {
  import opened BufferRing
  import opened BufferCache

  class Cache {
    var buf: array<Buf>
    var next: array<int>
    var prev: array<int>
    var disk: map<Key, Data>
    /** The ring, most recently released buffer first, and when each was last released. */
    ghost var order: seq<int>
    ghost var stamp: seq<int>
    ghost var clock: int

    ghost predicate Linked()
      reads this, next, prev
    {
      && next.Length == prev.Length == NBUF + 1 && next != prev
      && Ring(next[..], prev[..], order) && |order| == NBUF && Covers(order) && Aged(order, stamp, clock)
    }

    ghost predicate Valid()
      reads this, buf, next, prev
    {
      Linked() && buf.Length == NBUF && Inv(buf[..], disk)
    }

    /** What block `k` holds for its users. */
    ghost function Block(k: Key): Data
      reads this, buf
      requires k in disk
    {
      View(buf[..], disk, k)
    }

    lemma LinkAt(j: int)
      requires Linked() && -1 <= j < NBUF
      ensures Nth(order, j) != HEAD || j == -1
      ensures 0 <= Nth(order, j) <= NBUF && 0 <= Nth(order, j + 1) <= NBUF
      ensures next[Nth(order, j)] == Nth(order, j + 1)
      ensures prev[Nth(order, j + 1)] == Nth(order, j)
    {
      assert Joined(next[..], prev[..], order, j);
    }

    /** binit. */
    constructor (disk: map<Key, Data>)
      requires forall k :: k in disk ==> k.dev != 0
      ensures Valid() && fresh(buf) && fresh(next) && fresh(prev) && this.disk == disk
      ensures (forall k :: k in disk ==> Block(k) == disk[k]) && forall i :: 0 <= i < NBUF ==> !buf[i].dirty
    {
      this.disk := disk;
      buf := new Buf[NBUF](_ => Buf(Key(0, 0), false, false, 0, []));
      next := new int[NBUF + 1](_ => HEAD);
      prev := new int[NBUF + 1](_ => HEAD);
      order := [];
      stamp := seq(NBUF, i => i);
      clock := NBUF;
      new;
      hide Ring, Aged, View, Inv;
      NoBuffers(next[..], prev[..]);
      LinkAll();
      AgedFirst(order, stamp);
      forall i | 0 <= i < NBUF ensures i in order {
        assert order[NBUF - 1 - i] == i;
      }
      UnusedInv(buf[..], disk);
      forall k | k in disk ensures Block(k) == disk[k] {
        ViewUncached(buf[..], disk, k);
      }
    }

    /** binit's loop: each buffer goes to the front of the ring. */
    method LinkAll()
      requires next.Length == prev.Length == NBUF + 1 && next != prev && order == [] && Ring(next[..], prev[..], [])
      modifies next, prev, `order
      ensures |order| == NBUF && (forall i :: 0 <= i < NBUF ==> order[i] == NBUF - 1 - i)
      ensures Ring(next[..], prev[..], order)
    {
      hide Ring;
      var b := 0;
      while b < NBUF
        invariant 0 <= b <= NBUF && |order| == b && (forall i :: 0 <= i < b ==> order[i] == b - 1 - i)
        invariant Ring(next[..], prev[..], order)
      {
        FirstLink(next[..], prev[..], order);
        ghost var next0, prev0 := next[..], prev[..];
        next[b] := next[HEAD];
        prev[b] := HEAD;
        prev[next[HEAD]] := b;
        next[HEAD] := b;
        PushedRing(next0, prev0, order, b, next[..], prev[..]);
        order := [b] + order;
        b := b + 1;
      }
    }

    static lemma NoBuffers(next: seq<int>, prev: seq<int>)
      requires |next| == |prev| == NBUF + 1 && next[HEAD] == prev[HEAD] == HEAD
      ensures Ring(next, prev, [])
    {
    }

    static lemma AgedFirst(order: seq<int>, stamp: seq<int>)
      requires |order| == |stamp| == NBUF && forall i :: 0 <= i < NBUF ==> order[i] == NBUF - 1 - i && stamp[i] == i
      ensures Aged(order, stamp, NBUF)
    {
    }

    static lemma UnusedInv(bufs: seq<Buf>, disk: map<Key, Data>)
      requires |bufs| == NBUF && (forall i :: 0 <= i < NBUF ==> bufs[i] == Buf(Key(0, 0), false, false, 0, []))
      requires forall k :: k in disk ==> k.dev != 0
      ensures Inv(bufs, disk)
    {
    }

    static lemma FirstLink(next: seq<int>, prev: seq<int>, order: seq<int>)
      requires Ring(next, prev, order)
      ensures |next| == |prev| == NBUF + 1 && next[HEAD] == Nth(order, 0) && 0 <= Nth(order, 0) <= NBUF
    {
      assert Joined(next, prev, order, -1);
    }

    /** bget's first loop: the buffer that holds `key`, if one does. */
    method Find(key: Key) returns (b: int)
      requires Valid()
      ensures b == HEAD ==> forall i :: 0 <= i < NBUF ==> buf[i].key != key
      ensures b != HEAD ==> 0 <= b < NBUF && buf[b].key == key
    {
      hide Ring, Inv, Aged;
      ghost var j := 0;
      LinkAt(-1);
      b := next[HEAD];
      while b != HEAD
        invariant 0 <= j <= NBUF && b == Nth(order, j)
        invariant forall i :: 0 <= i < j ==> 0 <= order[i] < NBUF && buf[order[i]].key != key
        decreases NBUF - j
      {
        LinkAt(j);
        if buf[b].key == key {
          return;
        }
        b := next[b];
        j := j + 1;
      }
      if j < NBUF {
        LinkAt(j);
      }
      forall i | 0 <= i < NBUF ensures buf[i].key != key {
        assert i in order;
      }
    }

    /** bget's second loop: the idle buffer that was released longest ago. */
    method Victim() returns (b: int)
      requires Valid()
      ensures b == HEAD ==> forall i :: 0 <= i < NBUF ==> !Idle(buf[i])
      ensures b != HEAD ==> 0 <= b < NBUF && Idle(buf[b])
      ensures b != HEAD ==> forall i :: 0 <= i < NBUF && Idle(buf[i]) ==> stamp[b] <= stamp[i]
    {
      hide Ring, Inv;
      ghost var j := NBUF - 1;
      LinkAt(NBUF - 1);
      b := prev[HEAD];
      while b != HEAD
        invariant -1 <= j < NBUF && b == Nth(order, j)
        invariant forall i :: j < i < NBUF ==> 0 <= order[i] < NBUF && !Idle(buf[order[i]])
        decreases j
      {
        LinkAt(j);
        if buf[b].refcnt == 0 && !buf[b].dirty {
          forall i | 0 <= i < NBUF && Idle(buf[i]) ensures stamp[b] <= stamp[i] {
            var m := Position(order, i);
            assert m <= j;
          }
          return;
        }
        LinkAt(j - 1);
        b := prev[b];
        j := j - 1;
      }
      if j >= 0 {
        LinkAt(j);
      }
      forall i | 0 <= i < NBUF ensures !Idle(buf[i]) {
        assert i in order;
      }
    }

    /** bget; !ok where the kernel panics. */
    method Bget(key: Key) returns (ok: bool, b: int)
      requires Valid() && key in disk
      modifies buf
      ensures Valid() && (forall k :: k in disk ==> Block(k) == old(Block(k)))
      ensures ok == ((exists i :: 0 <= i < NBUF && old(buf[i].key) == key)
                     || exists i :: 0 <= i < NBUF && Idle(old(buf[i])))
      ensures !ok ==> buf[..] == old(buf[..])
      ensures ok ==> 0 <= b < NBUF && buf[b].key == key && buf[b].refcnt > 0
      ensures ok ==> forall i :: 0 <= i < NBUF && i != b ==> buf[i] == old(buf[i])
      ensures ok && old(buf[b].key) == key ==> buf[b] == old(buf[b].(refcnt := buf[b].refcnt + 1))
      ensures ok && old(buf[b].key) != key ==>
                Idle(old(buf[b])) && !buf[b].valid && !buf[b].dirty && buf[b].refcnt == 1
                && forall i :: 0 <= i < NBUF && Idle(old(buf[i])) ==> stamp[b] <= stamp[i]
    {
      hide Ring, Aged, View;
      ghost var was := buf[..];
      b := Find(key);
      if b != HEAD {
        ghost var x := buf[b].(refcnt := buf[b].refcnt + 1);
        RecountKeeps(was, disk, b, x);
        buf[b] := buf[b].(refcnt := buf[b].refcnt + 1);
        assert buf[..] == was[b := x];
        return true, b;
      }
      b := Victim();
      if b != HEAD {
        Recycle(was, disk, b, key);
        buf[b] := Buf(key, false, false, 1, buf[b].data);
        assert buf[..] == was[b := Buf(key, false, false, 1, was[b].data)];
        return true, b;
      }
      return false, b;
    }

    /** iderw: write a dirty buffer out, or read an invalid one in; !ok where the kernel panics. */
    method Iderw(b: int) returns (ok: bool)
      requires Valid() && 0 <= b < NBUF && buf[b].refcnt > 0
      modifies buf, `disk
      ensures Valid() && disk.Keys == old(disk.Keys)
      ensures ok == (!old(buf[b].valid) || old(buf[b].dirty))
      ensures !ok ==> buf[..] == old(buf[..]) && disk == old(disk)
      ensures forall i :: 0 <= i < NBUF && i != b ==> buf[i] == old(buf[i])
      ensures ok ==> buf[b] == old(buf[b]).(valid := true, dirty := false, data := buf[b].data)
      ensures ok ==> buf[b].key in disk && disk[buf[b].key] == buf[b].data
      ensures forall k :: k in disk && k != buf[b].key ==> disk[k] == old(disk)[k]
      ensures !old(buf[b].dirty) ==> disk == old(disk)
      ensures forall k :: k in disk ==>
                Block(k) == if k == buf[b].key && old(buf[b].dirty) then old(buf[b].data) else old(Block(k))
    {
      hide Ring, Aged, View;
      ghost var was, disk0 := buf[..], disk;
      assert BufOk(was[b], disk);
      ViewOfBuf(was, disk, b);
      if buf[b].valid && !buf[b].dirty {
        return false;
      }
      if buf[b].dirty {
        disk := disk[buf[b].key := buf[b].data];
        buf[b] := buf[b].(valid := true, dirty := false);
      } else {
        buf[b] := buf[b].(valid := true, data := disk[buf[b].key]);
      }
      assert buf[..] == was[b := buf[b]];
      HeldKeeps(was, disk0, b, buf[b], disk);
      return true;
    }

    /** bread: a reference to a buffer with the block's contents; !ok where the kernel panics. */
    method Bread(key: Key) returns (ok: bool, b: int)
      requires Valid() && key in disk
      modifies buf, `disk
      ensures Valid() && disk == old(disk) && (forall k :: k in disk ==> Block(k) == old(Block(k)))
      ensures ok == ((exists i :: 0 <= i < NBUF && old(buf[i].key) == key)
                     || exists i :: 0 <= i < NBUF && Idle(old(buf[i])))
      ensures ok ==> 0 <= b < NBUF && buf[b].key == key && buf[b].valid && buf[b].data == Block(key)
      ensures ok ==> buf[b].refcnt == if old(buf[b].key) == key then old(buf[b].refcnt) + 1 else 1
      ensures ok ==> forall i :: 0 <= i < NBUF && i != b ==> buf[i] == old(buf[i])
      ensures ok && old(buf[b].key) != key ==> Idle(old(buf[b]))
      ensures ok ==> buf[b].dirty == (old(buf[b].key) == key && old(buf[b].dirty))
      ensures !ok ==> buf[..] == old(buf[..])
      ensures ok && buf[b].refcnt == 1 && !buf[b].dirty ==> buf[b].data == disk[key]
    {
      hide Ring, Aged, View;
      ghost var was := buf[..];
      ok, b := Bget(key);
      if ok {
        assert BufOk(was[b], disk);
        assert BufOk(buf[..][b], disk);
        if !buf[b].valid {
          var done := Iderw(b);
        }
        ViewOfBuf(buf[..], disk, b);
      }
    }

    /** The holder of a buffer stores into it. */
    method Store(b: int, data: Data)
      requires Valid() && 0 <= b < NBUF && buf[b].refcnt > 0 && buf[b].valid
      modifies buf
      ensures Valid() && buf[..] == old(buf[..])[b := old(buf[b]).(data := data)]
      ensures forall k :: k in disk ==> Block(k) == if k == buf[b].key then data else old(Block(k))
    {
      hide Ring, Aged, View;
      ghost var was := buf[..];
      buf[b] := buf[b].(data := data);
      assert buf[..] == was[b := buf[b]];
      HeldKeeps(was, disk, b, buf[b], disk);
    }

    /** log_write's pin: the buffer may not be recycled before the transaction commits. */
    method Pin(b: int)
      requires Valid() && 0 <= b < NBUF && buf[b].refcnt > 0 && buf[b].valid
      modifies buf
      ensures Valid() && buf[..] == old(buf[..])[b := old(buf[b]).(dirty := true)]
      ensures forall k :: k in disk ==> Block(k) == old(Block(k))
    {
      hide Ring, Aged, View;
      ghost var was := buf[..];
      assert BufOk(was[b], disk);
      buf[b] := buf[b].(dirty := true);
      assert buf[..] == was[b := buf[b]];
      RecountKeeps(was, disk, b, buf[b]);
    }

    /** bwrite: the block's contents reach the disk. */
    method Bwrite(b: int)
      requires Valid() && 0 <= b < NBUF && buf[b].refcnt > 0 && buf[b].valid
      modifies buf, `disk
      ensures Valid() && buf[..] == old(buf[..])[b := old(buf[b]).(dirty := false)]
      ensures buf[b].key in old(disk) && disk == old(disk)[buf[b].key := buf[b].data]
      ensures forall k :: k in disk ==> Block(k) == if k == buf[b].key then buf[b].data else old(Block(k))
    {
      hide Ring, Aged, View;
      ghost var was := buf[..];
      Pin(b);
      var done := Iderw(b);
      assert BufOk(buf[..][b], disk);
      ViewOfBuf(buf[..], disk, b);
      assert buf[..] == was[b := was[b].(dirty := false)];
      assert disk == old(disk)[buf[b].key := buf[b].data];
    }

    /** brelse; the last holder leaves the buffer clean, or pinned by the log. */
    method Brelse(b: int)
      requires Valid() && 0 <= b < NBUF && buf[b].refcnt > 0
      requires buf[b].refcnt == 1 && buf[b].valid && !buf[b].dirty ==>
                 buf[b].key in disk && buf[b].data == disk[buf[b].key]
      modifies this, buf, next, prev
      ensures Valid() && buf == old(buf) && next == old(next) && prev == old(prev) && disk == old(disk)
      ensures buf[..] == old(buf[..])[b := old(buf[b]).(refcnt := old(buf[b].refcnt) - 1)]
      ensures forall k :: k in disk ==> Block(k) == old(Block(k))
      ensures buf[b].refcnt > 0 ==> order == old(order) && stamp == old(stamp)
      ensures buf[b].refcnt == 0 ==>
                order[0] == b && forall i :: 0 <= i < NBUF && i != b ==> stamp[i] == old(stamp[i]) < stamp[b]
    {
      hide Ring, Aged, View, ToFront, Joined;
      ghost var was := buf[..];
      assert BufOk(was[b], disk);
      buf[b] := buf[b].(refcnt := buf[b].refcnt - 1);
      assert buf[..] == was[b := buf[b]];
      RecountKeeps(was, disk, b, buf[b]);
      if buf[b].refcnt == 0 {
        MoveToFront(b);
      }
    }

    /** brelse's relinking. */
    method MoveToFront(b: int)
      requires Linked() && 0 <= b < NBUF
      modifies next, prev, `order, `stamp, `clock
      ensures Linked() && order[0] == b
      ensures |old(stamp)| == NBUF && forall i :: 0 <= i < NBUF && i != b ==> stamp[i] == old(stamp[i]) < stamp[b]
    {
      hide Ring, Joined;
      LinksInRange();
      ghost var next0, prev0 := next[..], prev[..];
      ghost var i := Position(order, b);
      prev[next[b]] := prev[b];
      next[prev[b]] := next[b];
      next[b] := next[HEAD];
      prev[b] := HEAD;
      prev[next[HEAD]] := b;
      next[HEAD] := b;
      RelinkedRing(next0, prev0, order, i, next[..], prev[..]);
      ToFrontCovers(order, i);
      ToFrontAged(order, stamp, clock, i);
      forall m | 0 <= m < NBUF ensures stamp[m] < clock {
        var j := Position(order, m);
      }
      stamp := stamp[b := clock];
      clock := clock + 1;
      order := ToFront(order, i);
    }

    lemma LinksInRange()
      requires Linked()
      ensures forall k :: 0 <= k <= NBUF ==> 0 <= next[k] <= NBUF && 0 <= prev[k] <= NBUF
    {
      LinkAt(-1);
      LinkAt(NBUF - 1);
      forall k | 0 <= k < NBUF ensures 0 <= next[k] <= NBUF && 0 <= prev[k] <= NBUF {
        var j := Position(order, k);
        LinkAt(j);
        LinkAt(j - 1);
      }
    }
  }
}
