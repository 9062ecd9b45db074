/**
 The log over the buffer cache: log_write, write_log, write_head and install_trans as the calls of bread,
 bwrite and brelse they make. Each keeps the cache and the log's protocol in step: same disk, same
 contents of every block, and a dirty buffer for exactly the blocks the log has pinned.
 */
module LogCache {
  import opened BufferRing
  import opened BufferCache
  import opened Bio
  import opened CommitBuffers
  import L = LogProtocol
  import R = LogRuns

  /** The blocks that have a dirty buffer. */
  function PinKeys(bufs: seq<Buf>): set<Key> { set i | 0 <= i < |bufs| && bufs[i].dirty :: bufs[i].key }

  lemma PinKeysSame(bufs: seq<Buf>, b: int, x: Buf)
    requires 0 <= b < |bufs| && x.dirty == bufs[b].dirty && (x.dirty ==> x.key == bufs[b].key)
    ensures PinKeys(bufs[b := x]) == PinKeys(bufs)
  {
    var bufs' := bufs[b := x];
    forall k | k in PinKeys(bufs) ensures k in PinKeys(bufs') {
      var i :| 0 <= i < |bufs| && bufs[i].dirty && bufs[i].key == k;
      assert bufs'[i].dirty && bufs'[i].key == k;
    }
    forall k | k in PinKeys(bufs') ensures k in PinKeys(bufs) {
      var i :| 0 <= i < |bufs'| && bufs'[i].dirty && bufs'[i].key == k;
      assert bufs[i].dirty && bufs[i].key == k;
    }
  }

  lemma PinKeysMore(bufs: seq<Buf>, b: int, x: Buf)
    requires 0 <= b < |bufs| && x.dirty && x.key == bufs[b].key
    ensures PinKeys(bufs[b := x]) == PinKeys(bufs) + {x.key}
  {
    var bufs' := bufs[b := x];
    assert bufs'[b].dirty && bufs'[b].key == x.key;
    forall k | k in PinKeys(bufs) ensures k in PinKeys(bufs') {
      var i :| 0 <= i < |bufs| && bufs[i].dirty && bufs[i].key == k;
      assert bufs'[i].dirty && bufs'[i].key == k;
    }
    forall k | k in PinKeys(bufs') ensures k in PinKeys(bufs) + {x.key} {
      var i :| 0 <= i < |bufs'| && bufs'[i].dirty && bufs'[i].key == k;
      assert i != b ==> bufs[i].dirty && bufs[i].key == k;
    }
  }

  lemma PinKeysLess(bufs: seq<Buf>, disk: map<Key, Data>, b: int, x: Buf)
    requires Inv(bufs, disk) && 0 <= b < NBUF && bufs[b].key.dev != 0 && !x.dirty
    ensures PinKeys(bufs[b := x]) == PinKeys(bufs) - {bufs[b].key}
  {
    var bufs' := bufs[b := x];
    forall k | k in PinKeys(bufs) - {bufs[b].key} ensures k in PinKeys(bufs') {
      var i :| 0 <= i < |bufs| && bufs[i].dirty && bufs[i].key == k;
      assert bufs'[i].dirty && bufs'[i].key == k;
    }
    forall k | k in PinKeys(bufs') ensures k in PinKeys(bufs) - {bufs[b].key} {
      var i :| 0 <= i < |bufs'| && bufs'[i].dirty && bufs'[i].key == k;
      assert i != b && bufs[i].dirty && bufs[i].key == k;
    }
  }

  /** A pinned block is in the cache. */
  lemma PinnedFinds(bufs: seq<Buf>, key: Key)
    requires key in PinKeys(bufs)
    ensures exists i :: 0 <= i < |bufs| && bufs[i].key == key
  {
    var i :| 0 <= i < |bufs| && bufs[i].dirty && bufs[i].key == key;
  }

  /** Block `key` has been written through; no other block has changed, and only `key` may have lost its pin. */
  ghost predicate Wrote(bufs0: seq<Buf>, disk0: map<Key, Data>, bufs: seq<Buf>, disk: map<Key, Data>, key: Key,
                        data: Data) {
    && key in disk0 && disk == disk0[key := data] && PinKeys(bufs) == PinKeys(bufs0) - {key}
    && forall k :: k in disk0 ==> View(bufs, disk, k) == if k == key then data else View(bufs0, disk0, k)
  }

  /** bread, which leaves the pins alone. */
  method Fetch(c: Cache, key: Key) returns (ok: bool, b: int)
    requires c.Valid() && key in c.disk
    modifies c.buf, c`disk
    ensures c.Valid() && c.disk == old(c.disk) && (forall k :: k in c.disk ==> c.Block(k) == old(c.Block(k)))
    ensures PinKeys(c.buf[..]) == PinKeys(old(c.buf[..]))
    ensures ok <==> Finds(old(c.buf[..]), key)
    ensures ok ==>
              0 <= b < NBUF && c.buf[b].key == key && c.buf[b].valid && c.buf[b].data == c.Block(key)
              && c.buf[b].refcnt > 0
    ensures ok && c.buf[b].refcnt == 1 && !c.buf[b].dirty ==> c.buf[b].data == c.disk[key]
    ensures ok ==> forall i :: 0 <= i < NBUF && i != b ==> c.buf[i] == old(c.buf[i])
    ensures ok && old(c.buf[b].key) != key ==> Idle(old(c.buf[b]))
    ensures key in PinKeys(c.buf[..]) ==> ok
  {
    hide View, Inv, PinKeys;
    ghost var was := c.buf[..];
    if key in PinKeys(was) {
      PinnedFinds(was, key);
    }
    ok, b := c.Bread(key);
    if ok {
      assert c.buf[..] == was[b := c.buf[b]];
      PinKeysSame(was, b, c.buf[b]);
    } else {
      assert c.buf[..] == was;
    }
  }

  /** Store, bwrite: the block of a held buffer gets new contents, in the cache and on disk. */
  method Put(c: Cache, b: int, data: Data)
    requires c.Valid() && 0 <= b < NBUF && c.buf[b].refcnt > 0 && c.buf[b].valid
    modifies c.buf, c`disk
    ensures c.Valid() && Wrote(old(c.buf[..]), old(c.disk), c.buf[..], c.disk, old(c.buf[b].key), data)
    ensures c.buf[..] == old(c.buf[..])[b := old(c.buf[b]).(data := data, dirty := false)]
  {
    hide View, PinKeys;
    ghost var was, disk0 := c.buf[..], c.disk;
    assert BufOk(was[b], c.disk);
    c.Store(b, data);
    c.Bwrite(b);
    assert c.buf[..] == was[b := was[b].(data := data, dirty := false)];
    PinKeysLess(was, disk0, b, c.buf[b]);
  }

  /** brelse of a buffer that is clean, or pinned, or held by somebody else too. */
  method Drop(c: Cache, b: int)
    requires c.Valid() && 0 <= b < NBUF && c.buf[b].refcnt > 0
    requires c.buf[b].refcnt == 1 && !c.buf[b].dirty ==> c.buf[b].key in c.disk && c.buf[b].data == c.disk[c.buf[b].key]
    modifies c, c.buf, c.next, c.prev
    ensures c.Valid() && c.buf == old(c.buf) && c.next == old(c.next) && c.prev == old(c.prev) && c.disk == old(c.disk)
    ensures (forall k :: k in c.disk ==> c.Block(k) == old(c.Block(k))) && PinKeys(c.buf[..]) == PinKeys(old(c.buf[..]))
    ensures c.buf[..] == old(c.buf[..])[b := old(c.buf[b]).(refcnt := old(c.buf[b].refcnt) - 1)]
  {
    hide View, Inv, PinKeys;
    ghost var was := c.buf[..];
    c.Brelse(b);
    PinKeysSame(was, b, was[b].(refcnt := was[b].refcnt - 1));
  }

  /**
   The loop bodies of write_log and install_trans. Both read the log block first; write_log then copies from
   the home block, install_trans to it. !ok where bget panics.
   */
  method CopyBlock(c: Cache, log: Key, home: Key, toLog: bool) returns (ok: bool)
    requires c.Valid() && log in c.disk && home in c.disk && log != home
    modifies c, c.buf, c.next, c.prev
    ensures c.buf == old(c.buf) && c.next == old(c.next) && c.prev == old(c.prev)
    ensures ok ==> c.Valid()
    ensures ok ==>
              var src, dst := if toLog then home else log, if toLog then log else home;
              Wrote(old(c.buf[..]), old(c.disk), c.buf[..], c.disk, dst, old(c.Block(src)))
    ensures ok ==> Finds(old(c.buf[..]), log)
    ensures Finds(old(c.buf[..]), log) && home in PinKeys(old(c.buf[..])) ==> ok
  {
    hide View, Inv, PinKeys, Finds, Wrote;
    ghost var bufs0, disk0 := c.buf[..], c.disk;
    var a, b;
    ok, a := Fetch(c, log);
    if !ok {
      return;
    }
    ok, b := Fetch(c, home);
    if !ok {
      return;
    }
    var dst, src := if toLog then a else b, if toLog then b else a;
    ghost var bufs1, key, data := c.buf[..], c.buf[dst].key, c.buf[src].data;
    assert data == old(c.Block(if toLog then home else log));
    assert Alike(bufs0, bufs1, disk0);
    Put(c, dst, c.buf[src].data);
    ghost var bufs2 := c.buf[..];
    WroteDisk(bufs1, disk0, bufs2, c.disk, key, data);
    Drop(c, src);
    Drop(c, dst);
    assert Alike(bufs2, c.buf[..], c.disk);
    WroteAround(bufs0, bufs1, disk0, bufs2, c.disk, c.buf[..], key, data);
  }

  /** The same contents and the same pins. */
  ghost predicate Alike(bufs: seq<Buf>, bufs': seq<Buf>, disk: map<Key, Data>) {
    PinKeys(bufs') == PinKeys(bufs) && forall k :: k in disk ==> View(bufs', disk, k) == View(bufs, disk, k)
  }

  lemma WroteAround(bufs0: seq<Buf>, bufs1: seq<Buf>, disk0: map<Key, Data>, bufs2: seq<Buf>, disk: map<Key, Data>,
                    bufs3: seq<Buf>, key: Key, data: Data)
    requires Alike(bufs0, bufs1, disk0) && Wrote(bufs1, disk0, bufs2, disk, key, data) && Alike(bufs2, bufs3, disk)
    ensures Wrote(bufs0, disk0, bufs3, disk, key, data)
  {
    hide View, PinKeys;
  }

  lemma WroteDisk(bufs0: seq<Buf>, disk0: map<Key, Data>, bufs: seq<Buf>, disk: map<Key, Data>, key: Key, data: Data)
    requires Wrote(bufs0, disk0, bufs, disk, key, data)
    ensures key in disk0 && disk == disk0[key := data]
  {
    hide View, PinKeys;
  }

  /** write_head's bread, stores, bwrite and brelse. */
  method PutHeader(c: Cache, key: Key, lh: seq<int>) returns (ok: bool)
    requires c.Valid() && key in c.disk && |c.Block(key)| == L.BWORDS && |lh| <= L.LOGSIZE
    modifies c, c.buf, c.next, c.prev
    ensures c.Valid() && c.buf == old(c.buf) && c.next == old(c.next) && c.prev == old(c.prev)
    ensures ok <==> Finds(old(c.buf[..]), key)
    ensures ok ==>
              Wrote(old(c.buf[..]), old(c.disk), c.buf[..], c.disk, key,
                    L.PutHead(L.Block(old(c.Block(key))), lh).words)
  {
    hide View, Inv, PinKeys, Finds, Wrote, L.PutHead;
    ghost var bufs0, disk0 := c.buf[..], c.disk;
    var b;
    ok, b := Fetch(c, key);
    if !ok {
      return;
    }
    ghost var bufs1 := c.buf[..];
    assert Alike(bufs0, bufs1, disk0);
    var data := L.PutHead(L.Block(c.buf[b].data), lh).words;
    Put(c, b, data);
    ghost var bufs2 := c.buf[..];
    WroteDisk(bufs1, disk0, bufs2, c.disk, key, data);
    Drop(c, b);
    assert Alike(bufs2, c.buf[..], c.disk);
    WroteAround(bufs0, bufs1, disk0, bufs2, c.disk, c.buf[..], key, data);
  }

  // The cache and the protocol.

  function Keys(dev: int, dirty: map<int, L.Block>): set<Key> { set b | b in dirty :: Key(dev, b) }

  /** The cache shows what the protocol's state has: disk, contents and pins. */
  ghost predicate Same(bufs: seq<Buf>, disk: map<Key, Data>, dev: int, l: L.Layout, s: L.State) {
    && dev != 0 && |s.disk| == l.total && PinKeys(bufs) == Keys(dev, s.dirty)
    && forall b :: 0 <= b < l.total ==> SameAt(bufs, disk, dev, s, b)
  }

  ghost predicate SameAt(bufs: seq<Buf>, disk: map<Key, Data>, dev: int, s: L.State, b: int)
    requires 0 <= b < |s.disk|
  {
    && Key(dev, b) in disk && disk[Key(dev, b)] == s.disk[b].words
    && View(bufs, disk, Key(dev, b)) == L.Read(s, b).words
  }

  /** So the dirty buffers are those that log_write pinned. */
  lemma SamePins(bufs: seq<Buf>, disk: map<Key, Data>, dev: int, l: L.Layout, s: L.State)
    requires Same(bufs, disk, dev, l, s)
    ensures Pins(bufs, dev, s)
  {
    hide SameAt;
    forall i | 0 <= i < |bufs| && bufs[i].dirty ensures bufs[i].key.dev == dev && bufs[i].key.blockno in s.dirty {
      assert bufs[i].key in PinKeys(bufs);
    }
    forall b | b in s.dirty ensures Pinned(bufs, dev, b) {
      assert Key(dev, b) in PinKeys(bufs);
    }
  }

  lemma KeysDrop(dev: int, dirty: map<int, L.Block>, b: int)
    ensures Keys(dev, L.Unpin(dirty, b)) == Keys(dev, dirty) - {Key(dev, b)}
  {
  }

  /** A block written through. */
  lemma SameWrote(bufs0: seq<Buf>, disk0: map<Key, Data>, bufs: seq<Buf>, disk: map<Key, Data>, dev: int, l: L.Layout,
                  s: L.State, s': L.State, b: int, v: L.Block)
    requires Same(bufs0, disk0, dev, l, s) && 0 <= b < l.total && Wrote(bufs0, disk0, bufs, disk, Key(dev, b), v.words)
    requires s'.disk == s.disk[b := v] && s'.dirty == L.Unpin(s.dirty, b)
    ensures Same(bufs, disk, dev, l, s')
  {
    hide View, PinKeys, Keys;
    KeysDrop(dev, s.dirty, b);
    forall a | 0 <= a < l.total ensures SameAt(bufs, disk, dev, s', a) {
      assert SameAt(bufs0, disk0, dev, s, a);
    }
  }

  /** A block changed by its holder and pinned. */
  lemma SamePinned(bufs0: seq<Buf>, bufs: seq<Buf>, disk: map<Key, Data>, dev: int, l: L.Layout, s: L.State,
                   s': L.State, b: int, v: L.Block)
    requires Same(bufs0, disk, dev, l, s) && 0 <= b < l.total && PinKeys(bufs) == PinKeys(bufs0) + {Key(dev, b)}
    requires forall k :: k in disk ==> View(bufs, disk, k) == if k == Key(dev, b) then v.words else View(bufs0, disk, k)
    requires s'.disk == s.disk && s'.dirty == s.dirty[b := v]
    ensures Same(bufs, disk, dev, l, s')
  {
    hide View, PinKeys;
    assert Keys(dev, s'.dirty) == Keys(dev, s.dirty) + {Key(dev, b)};
    forall a | 0 <= a < l.total ensures SameAt(bufs, disk, dev, s', a) {
      assert SameAt(bufs, disk, dev, s', a) by { assert SameAt(bufs0, disk, dev, s, a); }
    }
  }

  /** At boot the cache is empty, so it shows the disk and pins nothing. */
  lemma SameBoot(bufs: seq<Buf>, disk: map<Key, Data>, dev: int, l: L.Layout, d: L.Disk)
    requires dev != 0 && |d| == l.total && (forall i :: 0 <= i < |bufs| ==> !bufs[i].dirty)
    requires forall k :: k in disk ==> View(bufs, disk, k) == disk[k]
    requires forall b :: 0 <= b < l.total ==> Key(dev, b) in disk && disk[Key(dev, b)] == d[b].words
    ensures Same(bufs, disk, dev, l, R.Boot(d))
  {
    hide View;
    assert PinKeys(bufs) == {} && Keys(dev, R.Boot(d).dirty) == {};
  }

  class Logger {
    const cache: Cache
    const dev: int
    const l: L.Layout
    var lh: seq<int>
    ghost const base: L.Disk
    ghost var s: L.State

    ghost predicate Coupled()
      reads this, cache, cache.buf, cache.next, cache.prev
    {
      cache.Valid() && lh == s.lh && L.Inv(l, base, s) && Same(cache.buf[..], cache.disk, dev, l, s)
    }

    /** Power on, with a cache that shows the disk. */
    constructor (cache: Cache, dev: int, l: L.Layout, ghost base: L.Disk, ghost d: L.Disk)
      requires R.InitOk(l, base, d) && cache.Valid() && Same(cache.buf[..], cache.disk, dev, l, R.Boot(d))
      ensures Coupled() && this.cache == cache && this.dev == dev && this.l == l && this.base == base && s == R.Boot(d)
    {
      this.cache, this.dev, this.l, this.base, lh, s := cache, dev, l, base, [], R.Boot(d);
      new;
      hide Same, R.InitOk, L.Inv, Inv;
      R.BootInv(l, base, d);
    }

    /** log_write of buffer `j` with new contents `v`, by system call `i`. */
    method LogWrite(ghost i: nat, j: int, v: L.Block)
      requires Coupled() && 0 <= j < NBUF && cache.buf[j].refcnt > 0 && cache.buf[j].valid
      requires cache.buf[j].key.dev == dev
      requires L.WellSized(l, s) && L.Enabled(l, s, L.LogWrite(i, cache.buf[j].key.blockno, v))
      modifies this, cache.buf
      ensures Coupled() && cache.buf == old(cache.buf)
      ensures s == L.Apply(l, old(s), L.LogWrite(i, old(cache.buf[j].key.blockno), v))
    {
      hide View, Inv, PinKeys, L.Inv, L.WellSized, Same;
      ghost var bufs0, s0 := cache.buf[..], s;
      var b := cache.buf[j].key.blockno;
      cache.Store(j, v.words);
      cache.Pin(j);
      lh := if b in lh then lh else lh + [b];
      L.StepKeeps(l, base, s, L.LogWrite(i, b, v));
      LogWriteHome(l, s0, i, b, v);
      s := L.Apply(l, s, L.LogWrite(i, b, v));
      var x := bufs0[j].(data := v.words, dirty := true);
      assert cache.buf[..] == bufs0[j := x];
      PinKeysMore(bufs0, j, x);
      SamePinned(bufs0, cache.buf[..], cache.disk, dev, l, s0, s, b, v);
    }

    /** One turn of write_log. It fails exactly when bget has no buffer for the log block. */
    method WriteLogBlock(tail: nat) returns (ok: bool)
      requires Coupled() && s.pc == L.WritingLog(tail)
      modifies this, cache, cache.buf, cache.next, cache.prev
      ensures cache.buf == old(cache.buf) && cache.next == old(cache.next) && cache.prev == old(cache.prev)
      ensures ok ==>
                Coupled() && L.WellSized(l, old(s)) && L.Enabled(l, old(s), L.WriteLog)
                && s == L.Apply(l, old(s), L.WriteLog)
      ensures ok <==> Finds(old(cache.buf[..]), Key(dev, l.start + tail + 1))
      ensures HeldClean(old(cache.buf[..])) == {} ==> (ok <==> |old(lh)| < L.LOGSIZE)
    {
      hide View, Inv, PinKeys, L.Inv, L.WellSized, Same, Finds, HeldClean, Wrote, Pins;
      ghost var bufs0, disk0, s0 := cache.buf[..], cache.disk, s;
      WriteLogFacts(l, base, s);
      SamePins(bufs0, disk0, dev, l, s);
      CommitBread(l, base, s, bufs0, disk0, dev);
      SameKeys(bufs0, disk0, dev, l, s, l.start + tail + 1, lh[tail]);
      ok := CopyBlock(cache, Key(dev, l.start + tail + 1), Key(dev, lh[tail]), true);
      if ok {
        L.StepKeeps(l, base, s, L.WriteLog);
        s := L.Apply(l, s, L.WriteLog);
        SameWrote(bufs0, disk0, cache.buf[..], cache.disk, dev, l, s0, s, l.start + tail + 1, L.Read(s0, lh[tail]));
      }
    }

    /** One turn of install_trans. In a commit it fails exactly when bget has no buffer for the log block. */
    method InstallBlock(tail: nat) returns (ok: bool)
      requires Coupled() && s.pc.Installing? && s.pc.k == tail
      modifies this, cache, cache.buf, cache.next, cache.prev
      ensures cache.buf == old(cache.buf) && cache.next == old(cache.next) && cache.prev == old(cache.prev)
      ensures ok ==>
                Coupled() && L.WellSized(l, old(s)) && L.Enabled(l, old(s), L.Install)
                && s == L.Apply(l, old(s), L.Install)
      ensures ok ==> Finds(old(cache.buf[..]), Key(dev, l.start + tail + 1))
      ensures !old(s.pc.rec) && Finds(old(cache.buf[..]), Key(dev, l.start + tail + 1)) ==> ok
    {
      hide View, Inv, PinKeys, L.Inv, L.WellSized, Same, Finds, Wrote;
      ghost var bufs0, disk0, s0 := cache.buf[..], cache.disk, s;
      InstallFacts(l, base, s);
      SameKeys(bufs0, disk0, dev, l, s, l.start + tail + 1, lh[tail]);
      ok := CopyBlock(cache, Key(dev, l.start + tail + 1), Key(dev, lh[tail]), false);
      if ok {
        L.StepKeeps(l, base, s, L.Install);
        s := L.Apply(l, s, L.Install);
        SameWrote(bufs0, disk0, cache.buf[..], cache.disk, dev, l, s0, s, lh[tail], s0.disk[l.start + tail + 1]);
      }
    }

    /** write_head at the commit point and, with `erase`, to clear the log. It fails exactly for want of a buffer. */
    method WriteHead(erase: bool) returns (ok: bool)
      requires Coupled() && (if erase then s.pc.Erasing? else s.pc.WritingHead?)
      modifies this, cache, cache.buf, cache.next, cache.prev
      ensures cache.buf == old(cache.buf) && cache.next == old(cache.next) && cache.prev == old(cache.prev)
      ensures ok ==> Coupled() && HeadStep(l, old(s), erase, s)
      ensures ok <==> Finds(old(cache.buf[..]), Key(dev, l.start))
    {
      hide View, Inv, PinKeys, L.Inv, L.WellSized, Same, Finds, Wrote, L.PutHead;
      ghost var bufs0, disk0, s0 := cache.buf[..], cache.disk, s;
      HeadFacts(l, base, s, erase);
      SameHeader(bufs0, disk0, dev, l, s);
      if erase {
        lh := [];
      }
      ok := PutHeader(cache, Key(dev, l.start), lh);
      if ok {
        ghost var e := if erase then L.Erase else L.WriteHead;
        L.StepKeeps(l, base, s, e);
        s := L.Apply(l, s, e);
        SameWrote(bufs0, disk0, cache.buf[..], cache.disk, dev, l, s0, s, l.start, L.PutHead(s0.disk[l.start], lh));
      }
    }
  }

  ghost predicate HeadStep(l: L.Layout, s: L.State, erase: bool, s': L.State) {
    var e := if erase then L.Erase else L.WriteHead;
    L.WellSized(l, s) && L.Enabled(l, s, e) && s' == L.Apply(l, s, e)
  }

  lemma LogWriteHome(l: L.Layout, s: L.State, i: nat, b: int, v: L.Block)
    requires L.WellSized(l, s) && L.Enabled(l, s, L.LogWrite(i, b, v))
    ensures 0 <= b < l.total
    ensures var t := L.Apply(l, s, L.LogWrite(i, b, v)); t.disk == s.disk && t.dirty == s.dirty[b := v]
    ensures L.Apply(l, s, L.LogWrite(i, b, v)).lh == if b in s.lh then s.lh else s.lh + [b]
  {
  }

  lemma UnpinNone(dirty: map<int, L.Block>, b: int)
    requires b !in dirty
    ensures L.Unpin(dirty, b) == dirty
  {
  }

  lemma WriteLogFacts(l: L.Layout, base: L.Disk, s: L.State)
    requires L.Inv(l, base, s) && s.pc.WritingLog?
    ensures L.WellSized(l, s) && L.Enabled(l, s, L.WriteLog) && s.pc.k < |s.lh| && s.lh[s.pc.k] in s.dirty
    ensures 0 <= l.start + s.pc.k + 1 < l.total && 0 <= s.lh[s.pc.k] < l.total && s.lh[s.pc.k] != l.start + s.pc.k + 1
    ensures var t, b := L.Apply(l, s, L.WriteLog), l.start + s.pc.k + 1;
            t.disk == s.disk[b := L.Read(s, s.lh[s.pc.k])] && t.dirty == L.Unpin(s.dirty, b) && t.lh == s.lh
  {
    assert l.Home(s.lh[s.pc.k]) && !l.Home(l.start + s.pc.k + 1);
    UnpinNone(s.dirty, l.start + s.pc.k + 1);
  }

  lemma InstallFacts(l: L.Layout, base: L.Disk, s: L.State)
    requires L.Inv(l, base, s) && s.pc.Installing?
    ensures L.WellSized(l, s) && L.Enabled(l, s, L.Install) && s.pc.k < |s.lh|
    ensures (!s.pc.rec ==> s.lh[s.pc.k] in s.dirty)
    ensures 0 <= l.start + s.pc.k + 1 < l.total && 0 <= s.lh[s.pc.k] < l.total && s.lh[s.pc.k] != l.start + s.pc.k + 1
    ensures l.start + s.pc.k + 1 !in s.dirty && |s.disk| == l.total
    ensures var t, b := L.Apply(l, s, L.Install), s.lh[s.pc.k];
            t.disk == s.disk[b := s.disk[l.start + s.pc.k + 1]] && t.dirty == L.Unpin(s.dirty, b) && t.lh == s.lh
  {
    assert L.Enabled(l, s, L.Install);
    L.InstallFrom(l, base, s);
    L.InstallEffect(l, s);
    hide L.Inv, L.HeaderOk, L.Apply, L.Unpin;
    assert l.Home(s.lh[s.pc.k]) && !l.Home(l.start + s.pc.k + 1);
    if !s.pc.rec {
      assert s.lh[s.pc.k..][0] == s.lh[s.pc.k];
      assert forall b :: b in s.lh[s.pc.k..] ==> b in s.lh;
    }
  }

  lemma HeadFacts(l: L.Layout, base: L.Disk, s: L.State, erase: bool)
    requires L.Inv(l, base, s) && (if erase then s.pc.Erasing? else s.pc.WritingHead?)
    ensures L.WellSized(l, s) && L.Enabled(l, s, if erase then L.Erase else L.WriteHead)
    ensures 0 <= l.start < l.total == |s.disk| && l.start !in s.dirty && s.disk[l.start].Sized() && |s.lh| <= L.LOGSIZE
    ensures var t, lh := L.Apply(l, s, if erase then L.Erase else L.WriteHead), if erase then [] else s.lh;
            t.disk == s.disk[l.start := L.PutHead(s.disk[l.start], lh)] && t.dirty == L.Unpin(s.dirty, l.start)
            && t.lh == lh
  {
    hide L.PutHead;
    assert !l.Home(l.start);
    UnpinNone(s.dirty, l.start);
  }

  /** What the two blocks of a copy hold. */
  lemma SameKeys(bufs: seq<Buf>, disk: map<Key, Data>, dev: int, l: L.Layout, s: L.State, log: int, home: int)
    requires Same(bufs, disk, dev, l, s) && 0 <= log < l.total && 0 <= home < l.total
    ensures Key(dev, log) in disk && Key(dev, home) in disk
    ensures View(bufs, disk, Key(dev, home)) == L.Read(s, home).words
    ensures View(bufs, disk, Key(dev, log)) == L.Read(s, log).words
    ensures home in s.dirty ==> Key(dev, home) in PinKeys(bufs)
  {
    hide View, PinKeys;
    assert SameAt(bufs, disk, dev, s, log) && SameAt(bufs, disk, dev, s, home);
  }

  lemma SameHeader(bufs: seq<Buf>, disk: map<Key, Data>, dev: int, l: L.Layout, s: L.State)
    requires Same(bufs, disk, dev, l, s) && 0 <= l.start < l.total && l.start !in s.dirty
    ensures Key(dev, l.start) in disk && View(bufs, disk, Key(dev, l.start)) == s.disk[l.start].words
  {
    hide View, PinKeys;
    assert SameAt(bufs, disk, dev, s, l.start);
  }
}
