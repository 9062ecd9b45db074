/**
 bio.c: the cache of disk blocks over the ring of BufferRing, proved to behave like the plain
 array of blocks that its users see.
 */
module BufferCache {
  import opened BufferRing

  type Data = seq<int>

  datatype Key = Key(dev: int, blockno: int)

  /** A buffer that was never used has device 0. */
  datatype Buf = Buf(key: Key, valid: bool, dirty: bool, refcnt: nat, data: Data)

  /** May be recycled: nobody holds it and the log has not pinned it. */
  predicate Idle(b: Buf) {
    b.refcnt == 0 && !b.dirty
  }

  // What the cache means.

  predicate Caches(bufs: seq<Buf>, i: int, k: Key) {
    0 <= i < |bufs| && bufs[i].key == k && bufs[i].valid
  }

  /** The contents of block `k` as its users see it. */
  ghost function View(bufs: seq<Buf>, disk: map<Key, Data>, k: Key): Data
    requires k in disk
  {
    if exists i :: Caches(bufs, i, k) then
      var i :| Caches(bufs, i, k);
      bufs[i].data
    else disk[k]
  }

  /** No two used buffers hold the same block. */
  ghost predicate Unique(bufs: seq<Buf>) {
    forall i, j :: 0 <= i < j < |bufs| && bufs[i].key == bufs[j].key ==> bufs[i].key.dev == 0
  }

  ghost predicate BufOk(b: Buf, disk: map<Key, Data>) {
    if b.key.dev == 0 then !b.valid && !b.dirty && b.refcnt == 0
    else b.key in disk && (b.dirty ==> b.valid) && (b.valid && !b.dirty && b.refcnt == 0 ==> b.data == disk[b.key])
  }

  ghost predicate Inv(bufs: seq<Buf>, disk: map<Key, Data>) {
    && |bufs| == NBUF && Unique(bufs)
    && (forall i :: 0 <= i < NBUF ==> BufOk(bufs[i], disk))
    && forall k :: k in disk ==> k.dev != 0
  }

  lemma ViewCached(bufs: seq<Buf>, disk: map<Key, Data>, i: int, k: Key)
    requires Inv(bufs, disk) && k in disk && Caches(bufs, i, k)
    ensures View(bufs, disk, k) == bufs[i].data
  {
    forall j | Caches(bufs, j, k) ensures j == i {
    }
  }

  lemma ViewUncached(bufs: seq<Buf>, disk: map<Key, Data>, k: Key)
    requires k in disk && forall i :: !Caches(bufs, i, k)
    ensures View(bufs, disk, k) == disk[k]
  {
  }

  /** Changing one buffer leaves the view of every block it did not and does not hold. */
  lemma ViewFrame(bufs: seq<Buf>, disk: map<Key, Data>, bufs': seq<Buf>, disk': map<Key, Data>, b: int, k: Key)
    requires Inv(bufs, disk) && Inv(bufs', disk') && 0 <= b < NBUF && bufs' == bufs[b := bufs'[b]]
    requires k in disk && k in disk' && disk'[k] == disk[k] && bufs[b].key != k && bufs'[b].key != k
    ensures View(bufs', disk', k) == View(bufs, disk, k)
  {
    if exists i :: Caches(bufs, i, k) {
      var i :| Caches(bufs, i, k);
      assert Caches(bufs', i, k);
      ViewCached(bufs, disk, i, k);
      ViewCached(bufs', disk', i, k);
    } else {
      forall i ensures !Caches(bufs', i, k) {
        assert !Caches(bufs, i, k);
      }
    }
  }

  /** Reference counts and the dirty flag do not show in the view. */
  ghost predicate SameShown(b: Buf, b': Buf) {
    b'.key == b.key && b'.valid == b.valid && b'.data == b.data
  }

  lemma ViewSame(bufs: seq<Buf>, disk: map<Key, Data>, b: int, x: Buf, k: Key)
    requires Inv(bufs, disk) && 0 <= b < NBUF && SameShown(bufs[b], x) && Inv(bufs[b := x], disk) && k in disk
    ensures View(bufs[b := x], disk, k) == View(bufs, disk, k)
  {
    var bufs' := bufs[b := x];
    if exists i :: Caches(bufs, i, k) {
      var i :| Caches(bufs, i, k);
      assert Caches(bufs', i, k);
      ViewCached(bufs, disk, i, k);
      ViewCached(bufs', disk, i, k);
    } else {
      forall i ensures !Caches(bufs', i, k) {
        assert !Caches(bufs, i, k);
      }
    }
  }

  /** Recycling a clean, unreferenced buffer for a block that is not cached. */
  lemma Recycle(bufs: seq<Buf>, disk: map<Key, Data>, b: int, key: Key)
    requires Inv(bufs, disk) && 0 <= b < NBUF && bufs[b].refcnt == 0 && !bufs[b].dirty
    requires key in disk && forall i :: 0 <= i < NBUF ==> bufs[i].key != key
    ensures var bufs' := bufs[b := Buf(key, false, false, 1, bufs[b].data)];
            Inv(bufs', disk) && forall k :: k in disk ==> View(bufs', disk, k) == View(bufs, disk, k)
  {
    var bufs' := bufs[b := Buf(key, false, false, 1, bufs[b].data)];
    forall k | k in disk ensures View(bufs', disk, k) == View(bufs, disk, k) {
      if k == key {
        ViewUncached(bufs, disk, k);
        ViewUncached(bufs', disk, k);
      } else if k == bufs[b].key {
        forall i ensures !Caches(bufs', i, k) {
        }
        ViewUncached(bufs', disk, k);
        if bufs[b].valid {
          assert Caches(bufs, b, k);
          ViewCached(bufs, disk, b, k);
        } else {
          forall i ensures !Caches(bufs, i, k) {
          }
        }
      } else {
        ViewFrame(bufs, disk, bufs', disk, b, k);
      }
    }
  }

  /** A change of reference count or dirty flag. */
  lemma RecountKeeps(bufs: seq<Buf>, disk: map<Key, Data>, b: int, x: Buf)
    requires Inv(bufs, disk) && 0 <= b < NBUF && SameShown(bufs[b], x) && BufOk(x, disk)
    ensures Inv(bufs[b := x], disk)
    ensures forall k :: k in disk ==> View(bufs[b := x], disk, k) == View(bufs, disk, k)
  {
    hide View;
    forall k | k in disk ensures View(bufs[b := x], disk, k) == View(bufs, disk, k) {
      ViewSame(bufs, disk, b, x, k);
    }
  }

  /** A held buffer and its block on disk change; afterwards the block shows what the buffer holds. */
  lemma HeldKeeps(bufs: seq<Buf>, disk: map<Key, Data>, b: int, x: Buf, disk': map<Key, Data>)
    requires Inv(bufs, disk) && 0 <= b < NBUF && bufs[b].refcnt > 0
    requires x.key == bufs[b].key && x.refcnt > 0 && x.valid
    requires disk'.Keys == disk.Keys && forall k :: k in disk && k != x.key ==> disk'[k] == disk[k]
    ensures Inv(bufs[b := x], disk')
    ensures forall k :: k in disk ==> View(bufs[b := x], disk', k) == if k == x.key then x.data else View(bufs, disk, k)
  {
    hide View;
    var bufs' := bufs[b := x];
    assert BufOk(bufs[b], disk);
    forall i | 0 <= i < NBUF ensures BufOk(bufs'[i], disk') {
      assert BufOk(bufs[i], disk);
    }
    forall k | k in disk ensures View(bufs', disk', k) == if k == x.key then x.data else View(bufs, disk, k) {
      if k == x.key {
        assert Caches(bufs', b, k);
        ViewCached(bufs', disk', b, k);
      } else {
        ViewFrame(bufs, disk, bufs', disk', b, k);
      }
    }
  }

  /** The block of a valid buffer shows that buffer's data; of an invalid one, the disk's. */
  lemma ViewOfBuf(bufs: seq<Buf>, disk: map<Key, Data>, b: int)
    requires Inv(bufs, disk) && 0 <= b < NBUF && bufs[b].key.dev != 0
    ensures bufs[b].key in disk
    ensures View(bufs, disk, bufs[b].key) == if bufs[b].valid then bufs[b].data else disk[bufs[b].key]
  {
    hide View;
    var k := bufs[b].key;
    assert BufOk(bufs[b], disk);
    if bufs[b].valid {
      assert Caches(bufs, b, k);
      ViewCached(bufs, disk, b, k);
    } else {
      forall i ensures !Caches(bufs, i, k) {
      }
      ViewUncached(bufs, disk, k);
    }
  }
}
