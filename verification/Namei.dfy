/**
 Path names, fs.c: dirlookup and dirlink over readi and writei, skipelem, and namex as the fold of
 lookups over a path's components.
 */
module Namei {
  import opened Ownership
  import opened FsState
  import opened DiskSpace
  import opened FileSystem
  import opened FsRuns
  import opened Directory

  const SLASH := 47
  const ROOTINO := 1

  datatype Option<T> = None | Some(value: T)

  // Components of a path.

  function SkipSlashes(p: Bytes, i: nat): (r: nat)
    requires i <= |p|
    ensures i <= r <= |p| && (forall k :: i <= k < r ==> p[k] == SLASH) && (r < |p| ==> p[r] != SLASH)
    decreases |p| - i
  {
    if i < |p| && p[i] == SLASH then SkipSlashes(p, i + 1) else i
  }

  function ElemEnd(p: Bytes, i: nat): (r: nat)
    requires i <= |p|
    ensures i <= r <= |p| && (forall k :: i <= k < r ==> p[k] != SLASH) && (r < |p| ==> p[r] == SLASH)
    decreases |p| - i
  {
    if i < |p| && p[i] != SLASH then ElemEnd(p, i + 1) else i
  }

  /** The elements of the path from position `i` on. */
  function Components(p: Bytes, i: nat): seq<Bytes>
    requires i <= |p|
    decreases |p| - i
  {
    var s := SkipSlashes(p, i);
    if s == |p| then [] else [p[s..ElemEnd(p, s)]] + Components(p, ElemEnd(p, s))
  }

  lemma ComponentsSkip(p: Bytes, i: nat, j: nat)
    requires i <= |p| && i <= j <= SkipSlashes(p, i)
    ensures SkipSlashes(p, j) == SkipSlashes(p, i) && Components(p, j) == Components(p, i)
  {
  }

  ghost predicate Element(b: Bytes) {
    b != [] && SLASH !in b
  }

  function Slashes(n: nat): (r: Bytes)
    ensures |r| == n && forall k :: 0 <= k < n ==> r[k] == SLASH
  {
    seq(n, _ => SLASH)
  }

  /** A path spelled with `gaps[i]` slashes before element `i` and the last gap at the end. */
  function Join(elems: seq<Bytes>, gaps: seq<nat>): Bytes
    requires |gaps| == |elems| + 1
  {
    if elems == [] then Slashes(gaps[0]) else Slashes(gaps[0]) + elems[0] + Join(elems[1..], gaps[1..])
  }

  ghost predicate GapsOk(elems: seq<Bytes>, gaps: seq<nat>) {
    && |gaps| == |elems| + 1
    && (forall i :: 0 <= i < |elems| ==> Element(elems[i]))
    && (forall i :: 0 < i < |elems| ==> gaps[i] > 0)
  }

  lemma SkipIs(p: Bytes, i: nat, r: nat)
    requires i <= r <= |p| && (forall k :: i <= k < r ==> p[k] == SLASH) && (r < |p| ==> p[r] != SLASH)
    ensures SkipSlashes(p, i) == r
  {
  }

  lemma EndIs(p: Bytes, i: nat, r: nat)
    requires i <= r <= |p| && (forall k :: i <= k < r ==> p[k] != SLASH) && (r < |p| ==> p[r] == SLASH)
    ensures ElemEnd(p, i) == r
  {
  }

  lemma FirstComponent(q: Bytes, g: nat, e: Bytes, tail: Bytes)
    requires Element(e) && (tail != [] ==> tail[0] == SLASH)
    ensures var p := q + Slashes(g) + e + tail; var s := |q| + g;
            SkipSlashes(p, |q|) == s && s < |p| && ElemEnd(p, s) == s + |e| && p[s..s + |e|] == e
  {
    hide Slashes;
    var p, s := q + Slashes(g) + e + tail, |q| + g;
    assert forall k :: 0 <= k < |e| ==> p[s + k] == e[k];
    assert forall k :: 0 <= k < g ==> p[|q| + k] == Slashes(g)[k];
    SkipIs(p, |q|, s);
    EndIs(p, s, s + |e|);
  }

  lemma NextComponent(p: Bytes, i: nat, s: nat, t: nat)
    requires i <= |p| && SkipSlashes(p, i) == s < |p| && ElemEnd(p, s) == t
    ensures Components(p, i) == [p[s..t]] + Components(p, t)
  {
  }

  lemma {:induction false} JoinedFrom(q: Bytes, elems: seq<Bytes>, gaps: seq<nat>)
    requires GapsOk(elems, gaps)
    ensures |gaps| == |elems| + 1 && Components(q + Join(elems, gaps), |q|) == elems
    decreases |elems|
  {
    hide SkipSlashes, ElemEnd, Slashes, Element, Components;
    var p := q + Join(elems, gaps);
    if elems == [] {
      NoComponents(q, gaps[0]);
    } else {
      var tail := Join(elems[1..], gaps[1..]);
      assert elems[1..] != [] ==> gaps[1..][0] > 0;
      JoinStarts(elems[1..], gaps[1..]);
      FirstComponent(q, gaps[0], elems[0], tail);
      var q', s := q + Slashes(gaps[0]) + elems[0], |q| + gaps[0];
      assert p == q' + tail;
      JoinedFrom(q', elems[1..], gaps[1..]);
      NextComponent(p, |q|, s, |q'|);
      assert elems == [elems[0]] + elems[1..];
    }
  }

  lemma NoComponents(q: Bytes, g: nat)
    ensures Components(q + Slashes(g), |q|) == []
  {
    var p := q + Slashes(g);
    assert forall k :: |q| <= k < |p| ==> p[k] == Slashes(g)[k - |q|];
    SkipIs(p, |q|, |p|);
  }

  lemma JoinStarts(elems: seq<Bytes>, gaps: seq<nat>)
    requires |gaps| == |elems| + 1 && (elems != [] ==> gaps[0] > 0)
    ensures Join(elems, gaps) != [] ==> Join(elems, gaps)[0] == SLASH
  {
  }

  /** However many slashes a path has, its components are its elements. */
  lemma JoinThenSplit(elems: seq<Bytes>, gaps: seq<nat>)
    requires GapsOk(elems, gaps)
    ensures |gaps| == |elems| + 1 && Components(Join(elems, gaps), 0) == elems
  {
    JoinedFrom([], elems, gaps);
    assert [] + Join(elems, gaps) == Join(elems, gaps);
  }

  /** skipelem: the next element, cut to DIRSIZ bytes, and where the rest begins. */
  method Skipelem(p: Bytes, from: nat) returns (found: bool, next: nat, name: Bytes)
    requires from <= |p| && 0 !in p
    ensures found <==> Components(p, from) != []
    ensures found ==> next <= |p| && Terminated(name) && CName(name, DIRSIZ) == CName(Components(p, from)[0], DIRSIZ)
    ensures found ==> Components(p, next) == Components(p, from)[1..] && (next == |p| <==> Components(p, next) == [])
  {
    hide CName;
    var i := from;
    while i < |p| && p[i] == SLASH
      invariant from <= i <= |p| && SkipSlashes(p, i) == SkipSlashes(p, from)
    {
      i := i + 1;
    }
    if i == |p| {
      return false, i, [];
    }
    var s := i;
    while i < |p| && p[i] != SLASH
      invariant s <= i <= |p| && ElemEnd(p, i) == ElemEnd(p, s)
    {
      i := i + 1;
    }
    var len := i - s;
    if len >= DIRSIZ {
      name := p[s..s + DIRSIZ];
    } else {
      name := p[s..i] + [0];
    }
    CutName(p, s, i, name);
    ghost var end := i;
    while i < |p| && p[i] == SLASH
      invariant end <= i <= |p| && SkipSlashes(p, i) == SkipSlashes(p, end)
    {
      i := i + 1;
    }
    ComponentsSkip(p, end, i);
    return true, i, name;
  }

  lemma CutName(p: Bytes, s: nat, i: nat, name: Bytes)
    requires 0 !in p && s <= i <= |p| && name == if i - s >= DIRSIZ then p[s..s + DIRSIZ] else p[s..i] + [0]
    ensures Terminated(name) && CName(name, DIRSIZ) == CName(p[s..i], DIRSIZ)
  {
    var e := p[s..i];
    var k := if |e| >= DIRSIZ then DIRSIZ else |e|;
    assert name[..k] == e[..k] == p[s..s + k];
    assert forall j :: s <= j < s + k ==> p[j] in p;
    CNameIs(e, k, DIRSIZ);
    CNameIs(name, k, DIRSIZ);
  }

  // Directories on disk.

  lemma StoredDirectory(l: Layout, s: Fs, files: Files, dp: nat)
    requires Stores(l, s, files) && dp < |files|
    ensures Ok(l, s) && dp < |s.inodes| && HoleFree(l, s, dp) && Contents(l, s, dp) == files[dp]
    ensures s.inodes[dp].size == |files[dp]| <= MAXFILE * BSIZE
  {
    hide Owned, Tab;
    StoresSize(l, s, files, dp);
  }

  /** readi of one entry. */
  method ReadEntry(fs: Device, dp: nat, k: nat, ghost files: Files) returns (ok: bool, de: Bytes)
    requires Stores(fs.l, fs.Abs(), files) && dp < |files| && Whole(files[dp]) && k < Count(files[dp])
    modifies fs
    ensures unchanged(fs) && ok && de == EntryAt(files[dp], k)
  {
    hide Owned, Tab, SlotVal, HoleFree, Contents, Stores;
    StoredDirectory(fs.l, fs.Abs(), files, dp);
    var r;
    r, de := fs.Readi(dp, DIRENT * k, DIRENT);
    ok := r == DIRENT;
  }

  /** dirlookup: the inode number bound to `name`, 0 if none, and the offset of its entry. */
  method Dirlookup(fs: Device, dp: nat, name: Bytes, ghost files: Files) returns (inum: nat, off: nat)
    requires Stores(fs.l, fs.Abs(), files) && dp < |files| && IsDirectory(files[dp]) && Terminated(name)
    modifies fs
    ensures unchanged(fs)
    ensures inum != 0 <==> CName(name, DIRSIZ) in DirMap(files[dp])
    ensures inum != 0 ==> DirMap(files[dp])[CName(name, DIRSIZ)] == inum
    ensures inum != 0 ==>
              off % DIRENT == 0 && off / DIRENT < Count(files[dp])
              && Named(files[dp], off / DIRENT, CName(name, DIRSIZ))
    ensures inum == 0 ==> forall j: nat :: j < Count(files[dp]) ==> !Named(files[dp], j, CName(name, DIRSIZ))
  {
    hide Owned, Tab, SlotVal, HoleFree, Contents, Stores, DirMap, CName, NoTwins;
    StoredDirectory(fs.l, fs.Abs(), files, dp);
    ghost var c, n := files[dp], CName(name, DIRSIZ);
    off := 0;
    ghost var k: nat := 0;
    while off < fs.inodes[dp].size
      invariant unchanged(fs) && off == DIRENT * k && k <= Count(c)
      invariant forall j: nat :: j < k ==> !Named(c, j, n)
      decreases |c| - off
    {
      var ok, de := ReadEntry(fs, dp, off / DIRENT, files);
      if Inum(de) != 0 {
        var same := Namecmp(name, de[2..]);
        if same {
          MapAt(c, k, n);
          return Inum(de), off;
        }
      }
      off, k := off + DIRENT, k + 1;
    }
    MapNone(c, n);
    return 0, off;
  }

  /** dirlink's search for a free entry: its slot, or the one past the last. */
  method FreeSlot(fs: Device, dp: nat, ghost files: Files) returns (off: nat)
    requires Stores(fs.l, fs.Abs(), files) && dp < |files| && IsDirectory(files[dp])
    modifies fs
    ensures unchanged(fs) && off % DIRENT == 0 && off / DIRENT <= Count(files[dp])
    ensures off / DIRENT < Count(files[dp]) ==> Inum(EntryAt(files[dp], off / DIRENT)) == 0
    ensures forall j: nat :: j < off / DIRENT ==> Inum(EntryAt(files[dp], j)) != 0
    ensures off / DIRENT == FreeEntry(files[dp], 0)
  {
    hide Owned, Tab, SlotVal, HoleFree, Contents, Stores, NoTwins;
    StoredDirectory(fs.l, fs.Abs(), files, dp);
    off := 0;
    while off < fs.inodes[dp].size
      invariant unchanged(fs) && off % DIRENT == 0 && off / DIRENT <= Count(files[dp])
      invariant forall j: nat :: j < off / DIRENT ==> Inum(EntryAt(files[dp], j)) != 0
      invariant FreeEntry(files[dp], off / DIRENT) == FreeEntry(files[dp], 0)
      decreases |files[dp]| - off
    {
      var ok, de := ReadEntry(fs, dp, off / DIRENT, files);
      if Inum(de) == 0 {
        return;
      }
      off := off + DIRENT;
    }
  }

  lemma StoresAfter(l: Layout, s: Fs, t: Fs, files: Files, dp: nat, c: Bytes)
    requires Stores(l, s, files) && dp < |files| && Ok(l, t) && |t.inodes| == |s.inodes|
    requires HoleFree(l, t, dp) && Contents(l, t, dp) == c
    requires forall j: nat :: j < |s.inodes| && j != dp ==> SameFile(l, s, t, j)
    ensures Stores(l, t, files[dp := c])
  {
    hide Owned, Tab, SlotVal, HoleFree, Contents;
    forall j: nat | j < |files| ensures HoleFree(l, t, j) && Contents(l, t, j) == files[dp := c][j] {
      if j != dp {
        assert SameFile(l, s, t, j);
      }
    }
  }

  /** The bytes of an entry. */
  lemma EntryBytes(inum: nat, field: Bytes)
    requires 0 < inum < 0x1_0000 && |field| == DIRSIZ
    ensures var e := [inum % 0x100, inum / 0x100] + field;
            |e| == DIRENT && Inum(e) == inum && NameOf(e) == CName(field, DIRSIZ)
  {
    var e := [inum % 0x100, inum / 0x100] + field;
    assert e[2..] == field;
  }

  /**
   dirlink: -1 exactly when the name is bound; otherwise the directory gains that one binding and no
   other file changes. !ok where the kernel panics, exactly when the entry has no room in a file of the
   largest size or no block on the disk.
   */
  method Dirlink(fs: Device, dp: nat, name: Bytes, inum: nat, ghost files: Files) returns (ok: bool, r: int,
                 ghost c: Bytes)
    requires Stores(fs.l, fs.Abs(), files) && dp < |files| && IsDirectory(files[dp]) && Terminated(name)
    requires 0 < inum < 0x1_0000
    modifies fs
    ensures ok && r == -1 <==> CName(name, DIRSIZ) in DirMap(files[dp])
    ensures ok && r == -1 ==> unchanged(fs)
    ensures ok && r != -1 ==> r == 0 && IsDirectory(c) && Stores(fs.l, fs.Abs(), files[dp := c])
    ensures ok && r != -1 ==> DirMap(c) == DirMap(files[dp])[CName(name, DIRSIZ) := inum]
    ensures var off := DIRENT * FreeEntry(files[dp], 0);
            !ok <==> CName(name, DIRSIZ) !in DirMap(files[dp])
                     && (off + DIRENT > MAXFILE * BSIZE || !Room(fs.l, old(fs.Abs()), dp, off, DIRENT))
  {
    hide Owned, Tab, SlotVal, HoleFree, Contents, Stores, DirMap, CName, NoTwins, Overlay, LogsOnly, Bit, EntryAt;
    hide NameOf, Inum, Named, Room, Drew, Lacking, FreeEntry;
    c := files[dp];
    var ip, at := Dirlookup(fs, dp, name, files);
    if ip != 0 {
      return true, -1, c;
    }
    var off := FreeSlot(fs, dp, files);
    var field := Strncpy(name);
    EntryBytes(inum, field);
    var de := [inum % 0x100, inum / 0x100] + field;
    StoredDirectory(fs.l, fs.Abs(), files, dp);
    LinkInserts(files[dp], off / DIRENT, de);
    ghost var s := fs.Abs();
    ok, r := fs.Writei(dp, de, off);
    if ok && r != DIRENT {
      return false, r, c;
    }
    if ok {
      r := 0;
      c := Overlay(files[dp], off, de);
      StoresAfter(fs.l, s, fs.Abs(), files, dp, c);
    }
  }

  // Paths.

  /** Directories hold their entries once each, and every entry names an inode. */
  ghost predicate Trees(files: Files, isDir: seq<bool>) {
    && |isDir| == |files|
    && forall i: nat :: i < |files| && isDir[i] ==>
         IsDirectory(files[i]) && forall n :: n in DirMap(files[i]) ==> DirMap(files[i])[n] < |files|
  }

  /** Follow the elements one lookup after another. */
  ghost function Resolve(files: Files, isDir: seq<bool>, ip: nat, elems: seq<Bytes>): Option<nat>
    requires Trees(files, isDir) && ip < |files|
    decreases |elems|
  {
    if elems == [] then Some(ip)
    else if !isDir[ip] || CName(elems[0], DIRSIZ) !in DirMap(files[ip]) then None
    else Resolve(files, isDir, DirMap(files[ip])[CName(elems[0], DIRSIZ)], elems[1..])
  }

  /** The directory that holds the last element. */
  ghost function Parent(files: Files, isDir: seq<bool>, ip: nat, elems: seq<Bytes>): Option<nat>
    requires Trees(files, isDir) && ip < |files|
    decreases |elems|
  {
    if elems == [] || !isDir[ip] then None
    else if |elems| == 1 then Some(ip)
    else if CName(elems[0], DIRSIZ) !in DirMap(files[ip]) then None
    else Parent(files, isDir, DirMap(files[ip])[CName(elems[0], DIRSIZ)], elems[1..])
  }

  /** namei and nameiparent agree: an element resolves in its parent. */
  lemma {:induction false} ResolveInParent(files: Files, isDir: seq<bool>, ip: nat, elems: seq<Bytes>)
    requires Trees(files, isDir) && ip < |files| && elems != []
    ensures var d := Parent(files, isDir, ip, elems);
            Resolve(files, isDir, ip, elems) ==
              if d.Some? && d.value < |files| then Resolve(files, isDir, d.value, [elems[|elems| - 1]]) else None
    decreases |elems|
  {
    hide DirMap, CName, IsDirectory;
    if |elems| == 1 {
      assert elems == [elems[0]];
    } else if isDir[ip] && CName(elems[0], DIRSIZ) in DirMap(files[ip]) {
      ResolveInParent(files, isDir, DirMap(files[ip])[CName(elems[0], DIRSIZ)], elems[1..]);
    }
  }

  /** Directory `d` binds the element `e`, cut to DIRSIZ bytes, to inode `x`. */
  ghost predicate Binds(files: Files, isDir: seq<bool>, d: nat, e: Bytes, x: nat)
    requires Trees(files, isDir)
  {
    d < |files| && isDir[d] && CName(e, DIRSIZ) in DirMap(files[d]) && DirMap(files[d])[CName(e, DIRSIZ)] == x
  }

  /** A chain of inodes, each a directory that binds the next element to the next inode. */
  ghost predicate Chain(files: Files, isDir: seq<bool>, c: seq<nat>, elems: seq<Bytes>)
    requires Trees(files, isDir)
  {
    |c| == |elems| + 1 && forall k :: 0 <= k < |elems| ==> Binds(files, isDir, c[k], elems[k], c[k + 1])
  }

  /** Some chain along the elements starts at `ip` and ends at `x`. */
  ghost predicate Leads(files: Files, isDir: seq<bool>, ip: nat, elems: seq<Bytes>, x: nat)
    requires Trees(files, isDir)
  {
    exists c :: Chain(files, isDir, c, elems) && c[0] == ip && c[|elems|] == x
  }

  /** A chain is its first step and a chain along the rest. */
  lemma LeadsFirst(files: Files, isDir: seq<bool>, ip: nat, elems: seq<Bytes>, x: nat)
    requires Trees(files, isDir) && elems != []
    ensures Leads(files, isDir, ip, elems, x) <==>
            exists y: nat :: Binds(files, isDir, ip, elems[0], y) && Leads(files, isDir, y, elems[1..], x)
  {
    hide Binds;
    if Leads(files, isDir, ip, elems, x) {
      var c :| Chain(files, isDir, c, elems) && c[0] == ip && c[|elems|] == x;
      var d := c[1..];
      forall k | 0 <= k < |elems[1..]| ensures Binds(files, isDir, d[k], elems[1..][k], d[k + 1]) {
        assert Binds(files, isDir, c[k + 1], elems[k + 1], c[k + 2]);
      }
      assert Chain(files, isDir, d, elems[1..]) && d[0] == c[1] && d[|elems[1..]|] == x;
      assert Binds(files, isDir, ip, elems[0], c[1]) && Leads(files, isDir, c[1], elems[1..], x);
    }
    if y: nat :| Binds(files, isDir, ip, elems[0], y) && Leads(files, isDir, y, elems[1..], x) {
      var d :| Chain(files, isDir, d, elems[1..]) && d[0] == y && d[|elems[1..]|] == x;
      var c := [ip] + d;
      forall k | 0 <= k < |elems| ensures Binds(files, isDir, c[k], elems[k], c[k + 1]) {
        if 0 < k {
          assert Binds(files, isDir, d[k - 1], elems[1..][k - 1], d[k]);
        }
      }
      assert Chain(files, isDir, c, elems) && c[0] == ip && c[|elems|] == x;
    }
  }

  /** The empty chain stays where it is. */
  lemma LeadsNowhere(files: Files, isDir: seq<bool>, ip: nat, x: nat)
    requires Trees(files, isDir)
    ensures Leads(files, isDir, ip, [], x) <==> ip == x
  {
    hide Binds;
    assert Chain(files, isDir, [ip], []);
  }

  /** The lookups find the inode at the end of the chain, and fail exactly where there is no chain. */
  lemma {:induction false} ResolveLeads(files: Files, isDir: seq<bool>, ip: nat, elems: seq<Bytes>, x: nat)
    requires Trees(files, isDir) && ip < |files|
    ensures Resolve(files, isDir, ip, elems) == Some(x) <==> Leads(files, isDir, ip, elems, x)
    decreases |elems|
  {
    hide DirMap, CName, IsDirectory, Leads;
    if elems == [] {
      LeadsNowhere(files, isDir, ip, x);
    } else {
      LeadsFirst(files, isDir, ip, elems, x);
      if isDir[ip] && CName(elems[0], DIRSIZ) in DirMap(files[ip]) {
        ResolveLeads(files, isDir, DirMap(files[ip])[CName(elems[0], DIRSIZ)], elems[1..], x);
      }
    }
  }

  /** The parent's lookups find the directory at the end of the chain that is one element shorter. */
  lemma {:induction false} ParentLeads(files: Files, isDir: seq<bool>, ip: nat, elems: seq<Bytes>, x: nat)
    requires Trees(files, isDir) && ip < |files|
    ensures Parent(files, isDir, ip, elems) == Some(x) <==>
            elems != [] && x < |files| && isDir[x] && Leads(files, isDir, ip, elems[..|elems| - 1], x)
    decreases |elems|
  {
    hide DirMap, CName, IsDirectory, Leads;
    if |elems| == 1 {
      assert elems[..0] == [];
      LeadsNowhere(files, isDir, ip, x);
    } else if |elems| > 1 {
      assert elems[..|elems| - 1][1..] == elems[1..][..|elems[1..]| - 1];
      LeadsFirst(files, isDir, ip, elems[..|elems| - 1], x);
      if isDir[ip] && CName(elems[0], DIRSIZ) in DirMap(files[ip]) {
        ParentLeads(files, isDir, DirMap(files[ip])[CName(elems[0], DIRSIZ)], elems[1..], x);
      }
    }
  }

  /**
   What a path names: the inode at the end of the chain of directories that starts at the root or at the
   current directory and binds its elements one after the other. For nameiparent the chain is one
   element shorter and ends at a directory.
   */
  ghost predicate Names(files: Files, isDir: seq<bool>, path: Bytes, cwd: nat, parent: bool, x: nat)
    requires Trees(files, isDir)
  {
    var start := if path != [] && path[0] == SLASH then ROOTINO else cwd;
    var elems := Components(path, 0);
    if parent then elems != [] && x < |files| && isDir[x] && Leads(files, isDir, start, elems[..|elems| - 1], x)
    else Leads(files, isDir, start, elems, x)
  }

  lemma NamesLeads(files: Files, isDir: seq<bool>, path: Bytes, cwd: nat, parent: bool, ip: Option<nat>)
    requires Trees(files, isDir) && cwd < |files| && ROOTINO < |files|
    requires var start := if path != [] && path[0] == SLASH then ROOTINO else cwd; var elems := Components(path, 0);
             ip == if parent then Parent(files, isDir, start, elems) else Resolve(files, isDir, start, elems)
    ensures forall x: nat :: ip == Some(x) <==> Names(files, isDir, path, cwd, parent, x)
    ensures ip == None <==> forall x: nat :: !Names(files, isDir, path, cwd, parent, x)
  {
    hide DirMap, CName, IsDirectory, Leads, Components, Resolve, Parent;
    var start := if path != [] && path[0] == SLASH then ROOTINO else cwd;
    forall x: nat ensures ip == Some(x) <==> Names(files, isDir, path, cwd, parent, x) {
      if parent {
        ParentLeads(files, isDir, start, Components(path, 0), x);
      } else {
        ResolveLeads(files, isDir, start, Components(path, 0), x);
      }
    }
    if ip.Some? {
      assert Names(files, isDir, path, cwd, parent, ip.value);
    }
  }

  /** namex. */
  method Namex(fs: Device, isDir: seq<bool>, path: Bytes, cwd: nat, parent: bool,
               ghost files: Files) returns (ip: Option<nat>, name: Bytes)
    requires Stores(fs.l, fs.Abs(), files) && Trees(files, isDir) && cwd < |files| && ROOTINO < |files| && 0 !in path
    modifies fs
    ensures unchanged(fs)
    ensures var start := if path != [] && path[0] == SLASH then ROOTINO else cwd; var elems := Components(path, 0);
            ip == if parent then Parent(files, isDir, start, elems) else Resolve(files, isDir, start, elems)
    ensures forall x: nat :: ip == Some(x) <==> Names(files, isDir, path, cwd, parent, x)
    ensures ip == None <==> forall x: nat :: !Names(files, isDir, path, cwd, parent, x)
    ensures parent && ip.Some? ==> Components(path, 0) != []
    ensures parent && ip.Some? ==>
              var elems := Components(path, 0); CName(name, DIRSIZ) == CName(elems[|elems| - 1], DIRSIZ)
  {
    hide Owned, Tab, SlotVal, HoleFree, Contents, Stores, DirMap, CName, Components, NoTwins, IsDirectory, Terminated;
    hide Names;
    var at: nat := if path != [] && path[0] == SLASH then ROOTINO else cwd;
    ghost var start, all := at, Components(path, 0);
    var i: nat := 0;
    var found, next: nat;
    found, next, name := Skipelem(path, i);
    while found
      invariant unchanged(fs) && i <= |path| && at < |files| && found == (Components(path, i) != [])
      invariant found ==>
                  next <= |path| && Terminated(name) && CName(name, DIRSIZ) == CName(Components(path, i)[0], DIRSIZ)
      invariant found ==>
                  Components(path, next) == Components(path, i)[1..]
                  && (next == |path| <==> Components(path, next) == [])
      invariant Resolve(files, isDir, start, all) == Resolve(files, isDir, at, Components(path, i))
      invariant parent ==> Parent(files, isDir, start, all) == Parent(files, isDir, at, Components(path, i))
      invariant found ==> all != [] && all[|all| - 1] == Components(path, i)[|Components(path, i)| - 1]
      decreases |Components(path, i)|
    {
      if !isDir[at] {
        NamesLeads(files, isDir, path, cwd, parent, None);
        return None, name;
      }
      if parent && next == |path| {
        assert Components(path, i) == [Components(path, i)[0]];
        NamesLeads(files, isDir, path, cwd, parent, Some(at));
        return Some(at), name;
      }
      var inum, off := Dirlookup(fs, at, name, files);
      if inum == 0 {
        NamesLeads(files, isDir, path, cwd, parent, None);
        return None, name;
      }
      at, i := inum, next;
      found, next, name := Skipelem(path, i);
    }
    if parent {
      NamesLeads(files, isDir, path, cwd, parent, None);
      return None, name;
    }
    NamesLeads(files, isDir, path, cwd, parent, Some(at));
    return Some(at), name;
  }
}
