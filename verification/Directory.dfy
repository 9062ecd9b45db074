/**
 Directories, fs.c: a directory's contents as a sequence of 16-byte entries, and the finite map
 from names to inode numbers that they stand for. Only the first DIRSIZ bytes of a name count.
 */
module Directory {
  import opened FsState

  const DIRSIZ := 14
  const DIRENT := 16

  type Bytes = seq<nat>

  /** The name in a buffer: its bytes before the first NUL, at most `n`. */
  function CName(b: Bytes, n: nat): (r: Bytes)
    ensures |r| <= n && 0 !in r
  {
    if n == 0 || b == [] || b[0] == 0 then [] else [b[0]] + CName(b[1..], n - 1)
  }

  /** A buffer that strncmp and strncpy may read: DIRSIZ bytes, or a NUL before that. */
  predicate Terminated(b: Bytes) {
    |b| >= DIRSIZ || 0 in b
  }

  /** namecmp. */
  method Namecmp(s: Bytes, t: Bytes) returns (same: bool)
    requires Terminated(s) && Terminated(t)
    ensures same <==> CName(s, DIRSIZ) == CName(t, DIRSIZ)
  {
    hide CName;
    var k := 0;
    assert s[0..] == s && t[0..] == t;
    while k < DIRSIZ && s[k] != 0 && s[k] == t[k]
      invariant 0 <= k <= DIRSIZ && k <= |s| && k <= |t| && 0 !in s[..k] && 0 !in t[..k]
      invariant CName(s, DIRSIZ) == CName(t, DIRSIZ) <==> CName(s[k..], DIRSIZ - k) == CName(t[k..], DIRSIZ - k)
      invariant k < DIRSIZ ==> k < |s| && k < |t|
      decreases DIRSIZ - k
    {
      NameStep(s[k..], t[k..], DIRSIZ - k);
      assert s[k..][1..] == s[k + 1..] && t[k..][1..] == t[k + 1..];
      NotLast(s, k);
      NotLast(t, k);
      k := k + 1;
    }
    if k == DIRSIZ {
      NoName(s[k..], t[k..]);
      return true;
    }
    NameStep(s[k..], t[k..], DIRSIZ - k);
    return s[k] == t[k];
  }

  lemma NoName(s: Bytes, t: Bytes)
    ensures CName(s, 0) == CName(t, 0)
  {
  }

  lemma NameStep(s: Bytes, t: Bytes, n: nat)
    requires n > 0 && s != [] && t != []
    ensures CName(s, n) == CName(t, n) <==> s[0] == t[0] && (s[0] == 0 || CName(s[1..], n - 1) == CName(t[1..], n - 1))
  {
    var a, b := CName(s, n), CName(t, n);
    if s[0] != 0 && t[0] != 0 {
      assert a[1..] == CName(s[1..], n - 1) && b[1..] == CName(t[1..], n - 1);
      assert a[0] == s[0] && b[0] == t[0];
    }
  }

  /** A terminated buffer goes on after DIRSIZ - 1 or fewer bytes without a NUL. */
  lemma NotLast(b: Bytes, k: nat)
    requires Terminated(b) && k < |b| && k < DIRSIZ && 0 !in b[..k] && b[k] != 0
    ensures (k + 1 < DIRSIZ ==> k + 1 < |b|) && 0 !in b[..k + 1]
  {
    assert b[..k + 1] == b[..k] + [b[k]];
    if k + 1 == |b| {
      assert b[..k + 1] == b;
    }
  }

  lemma {:induction false} CNameIs(b: Bytes, k: nat, n: nat)
    requires k <= n && k <= |b| && 0 !in b[..k] && (k == n || k == |b| || b[k] == 0)
    ensures CName(b, n) == b[..k]
    decreases n
  {
    if k > 0 {
      assert b[0] == b[..k][0] && b[..k][1..] == b[1..][..k - 1];
      assert forall x :: x in b[1..][..k - 1] ==> x in b[..k];
      CNameIs(b[1..], k - 1, n - 1);
    }
  }

  /** strncpy of DIRSIZ bytes. */
  method Strncpy(t: Bytes) returns (field: Bytes)
    requires Terminated(t)
    ensures |field| == DIRSIZ && CName(field, DIRSIZ) == CName(t, DIRSIZ)
  {
    var k := 0;
    field := [];
    while k < DIRSIZ && t[k] != 0
      invariant 0 <= k <= DIRSIZ && k <= |t| && field == t[..k] && 0 !in t[..k]
      invariant k < DIRSIZ ==> k < |t|
      decreases DIRSIZ - k
    {
      NotLast(t, k);
      field := field + [t[k]];
      k := k + 1;
    }
    CNameIs(t, k, DIRSIZ);
    ghost var name := field;
    while |field| < DIRSIZ
      invariant k <= |field| <= DIRSIZ && field[..k] == name && (k < |field| ==> field[k] == 0)
    {
      field := field + [0];
    }
    CNameIs(field, k, DIRSIZ);
  }

  // Entries.

  predicate Whole(c: Bytes) {
    |c| % DIRENT == 0
  }

  function Count(c: Bytes): nat {
    |c| / DIRENT
  }

  function EntryAt(c: Bytes, k: nat): (e: Bytes)
    requires k < Count(c)
    ensures |e| == DIRENT
  {
    c[DIRENT * k..DIRENT * k + DIRENT]
  }

  function Inum(e: Bytes): nat
    requires |e| == DIRENT
  {
    e[0] + 0x100 * e[1]
  }

  function NameOf(e: Bytes): Bytes
    requires |e| == DIRENT
  {
    CName(e[2..], DIRSIZ)
  }

  /** Entry `k` is in use under name `n`. */
  predicate Named(c: Bytes, k: nat, n: Bytes)
    requires k < Count(c)
  {
    Inum(EntryAt(c, k)) != 0 && NameOf(EntryAt(c, k)) == n
  }

  ghost predicate NoTwins(c: Bytes) {
    forall a: nat, b: nat :: a < b < Count(c) && Inum(EntryAt(c, a)) != 0 ==> !Named(c, b, NameOf(EntryAt(c, a)))
  }

  ghost predicate IsDirectory(c: Bytes) {
    Whole(c) && NoTwins(c)
  }

  ghost predicate Has(c: Bytes, n: Bytes) {
    exists k: nat :: k < Count(c) && Named(c, k, n)
  }

  /** The names in a directory. */
  ghost function Names(c: Bytes): set<Bytes> {
    set k: nat | k < Count(c) && Inum(EntryAt(c, k)) != 0 :: NameOf(EntryAt(c, k))
  }

  lemma NamesHas(c: Bytes, n: Bytes)
    ensures n in Names(c) <==> Has(c, n)
  {
    if n in Names(c) {
      var k: nat :| k < Count(c) && Inum(EntryAt(c, k)) != 0 && NameOf(EntryAt(c, k)) == n;
      assert Named(c, k, n);
    }
  }

  ghost function InumOf(c: Bytes, n: Bytes): nat {
    if Has(c, n) then
      var k: nat :| k < Count(c) && Named(c, k, n);
      Inum(EntryAt(c, k))
    else 0
  }

  /** The directory as a map from names to inode numbers. */
  ghost function DirMap(c: Bytes): map<Bytes, nat> {
    map n | n in Names(c) :: InumOf(c, n)
  }

  lemma MapAt(c: Bytes, k: nat, n: Bytes)
    requires IsDirectory(c) && k < Count(c) && Named(c, k, n)
    ensures n in DirMap(c) && DirMap(c)[n] == Inum(EntryAt(c, k))
  {
    assert Has(c, n);
    NamesHas(c, n);
    var j: nat :| j < Count(c) && Named(c, j, n) && InumOf(c, n) == Inum(EntryAt(c, j));
    assert forall a: nat, b: nat :: a < b < Count(c) && Named(c, a, n) ==> !Named(c, b, n);
  }

  lemma MapNone(c: Bytes, n: Bytes)
    requires forall k: nat :: k < Count(c) ==> !Named(c, k, n)
    ensures n !in DirMap(c)
  {
    NamesHas(c, n);
  }

  /** Storing an entry at slot `k`, or past the last one. */
  lemma StoredEntry(c: Bytes, k: nat, e: Bytes, j: nat)
    requires Whole(c) && k <= Count(c) && |e| == DIRENT
    ensures DIRENT * k <= |c| && Whole(Overlay(c, DIRENT * k, e))
    ensures Count(Overlay(c, DIRENT * k, e)) == if k == Count(c) then k + 1 else Count(c)
    ensures j < Count(Overlay(c, DIRENT * k, e)) ==>
              EntryAt(Overlay(c, DIRENT * k, e), j) == if j == k then e else EntryAt(c, j)
  {
    var d := Overlay(c, DIRENT * k, e);
    assert |d| == if k == Count(c) then |c| + DIRENT else |c|;
    if j < Count(d) {
      if j < k {
        assert d[DIRENT * j..DIRENT * j + DIRENT] == c[DIRENT * j..DIRENT * j + DIRENT];
      } else if j == k {
        assert d[DIRENT * j..DIRENT * j + DIRENT] == e;
      } else {
        assert d[DIRENT * j..DIRENT * j + DIRENT] == c[DIRENT * j..DIRENT * j + DIRENT];
      }
    }
  }

  /** `d` is `c` with entry `e` in slot `k`. */
  ghost predicate Stored(c: Bytes, k: nat, e: Bytes, d: Bytes) {
    && |e| == DIRENT && k <= Count(c) && Count(d) == (if k == Count(c) then k + 1 else Count(c))
    && forall j: nat :: j < Count(d) ==> EntryAt(d, j) == if j == k then e else EntryAt(c, j)
  }

  /** A name that was absent goes into a slot that was empty or new. */
  ghost predicate Fits(c: Bytes, k: nat, e: Bytes) {
    && k <= Count(c) && (k < Count(c) ==> Inum(EntryAt(c, k)) == 0) && |e| == DIRENT && Inum(e) != 0
    && forall j: nat :: j < Count(c) ==> !Named(c, j, NameOf(e))
  }

  lemma StoredNoTwins(c: Bytes, k: nat, e: Bytes, d: Bytes)
    requires NoTwins(c) && Fits(c, k, e) && Stored(c, k, e, d)
    ensures NoTwins(d)
  {
    hide EntryAt, NameOf, Inum, Count;
    forall a: nat, b: nat | a < b < Count(d) && Inum(EntryAt(d, a)) != 0 ensures !Named(d, b, NameOf(EntryAt(d, a))) {
      if b == k {
        assert !Named(c, a, NameOf(e));
      } else if a == k {
        assert !Named(c, b, NameOf(e));
      } else {
        assert !Named(c, b, NameOf(EntryAt(c, a)));
      }
    }
  }

  lemma StoredMap(c: Bytes, k: nat, e: Bytes, d: Bytes, n: Bytes)
    requires IsDirectory(c) && IsDirectory(d) && Fits(c, k, e) && Stored(c, k, e, d)
    ensures n in DirMap(d) <==> n in DirMap(c) || n == NameOf(e)
    ensures n in DirMap(d) ==> DirMap(d)[n] == if n == NameOf(e) then Inum(e) else DirMap(c)[n]
  {
    hide EntryAt, NameOf, Inum, Count, DirMap, IsDirectory;
    if n == NameOf(e) {
      MapAt(d, k, n);
    } else if j: nat :| j < Count(c) && Named(c, j, n) {
      assert Named(d, j, n);
      MapAt(c, j, n);
      MapAt(d, j, n);
    } else {
      forall j: nat | j < Count(d) ensures !Named(d, j, n) {
        assert j != k ==> !Named(c, j, n);
      }
      MapNone(c, n);
      MapNone(d, n);
    }
  }

  lemma OverlayStores(c: Bytes, k: nat, e: Bytes)
    requires Whole(c) && k <= Count(c) && |e| == DIRENT
    ensures DIRENT * k <= |c| && Whole(Overlay(c, DIRENT * k, e)) && Stored(c, k, e, Overlay(c, DIRENT * k, e))
  {
    hide Overlay, EntryAt;
    StoredEntry(c, k, e, 0);
    var d := Overlay(c, DIRENT * k, e);
    forall j: nat | j < Count(d) ensures EntryAt(d, j) == if j == k then e else EntryAt(c, j) {
      StoredEntry(c, k, e, j);
    }
  }

  lemma StoredInserts(c: Bytes, k: nat, e: Bytes, d: Bytes)
    requires IsDirectory(c) && IsDirectory(d) && Fits(c, k, e) && Stored(c, k, e, d)
    ensures DirMap(d) == DirMap(c)[NameOf(e) := Inum(e)]
  {
    hide IsDirectory, Stored, NameOf, Inum, DirMap, EntryAt, Named;
    forall n ensures n in DirMap(d) <==> n in DirMap(c) || n == NameOf(e)
      ensures n in DirMap(d) ==> DirMap(d)[n] == if n == NameOf(e) then Inum(e) else DirMap(c)[n] {
      StoredMap(c, k, e, d, n);
    }
  }

  /** The first free entry from `j` on, or the one past the last. */
  ghost function FreeEntry(c: Bytes, j: nat): nat
    requires j <= Count(c)
    decreases Count(c) - j
  {
    if j == Count(c) || Inum(EntryAt(c, j)) == 0 then j else FreeEntry(c, j + 1)
  }

  /** dirlink's store inserts one binding and keeps all others. */
  lemma LinkInserts(c: Bytes, k: nat, e: Bytes)
    requires IsDirectory(c) && Fits(c, k, e)
    ensures DIRENT * k <= |c| && IsDirectory(Overlay(c, DIRENT * k, e))
    ensures DirMap(Overlay(c, DIRENT * k, e)) == DirMap(c)[NameOf(e) := Inum(e)]
  {
    hide Overlay, Stored, DirMap, NoTwins, Whole, Named, EntryAt;
    OverlayStores(c, k, e);
    var d := Overlay(c, DIRENT * k, e);
    StoredNoTwins(c, k, e, d);
    StoredInserts(c, k, e, d);
  }
}
