/** Directory contents as name maps: sixteen-byte entries, an i-number of zero
    marking an empty one. */
module Directories {
  import opened Blocks
  import opened FileSystem
  import opened Paths

  const DIRENT := 16

  /** The C string in a buffer: up to the first NUL, at most n bytes. */
  function CStr(s: seq<byte>, n: nat): (r: seq<byte>)
    ensures |r| <= n && |r| <= |s|
    ensures forall k :: 0 <= k < |r| ==> r[k] == s[k] != 0
    ensures |r| == n || |r| == |s| || s[|r|] == 0
  {
    if n == 0 || s == [] || s[0] == 0 then [] else [s[0]] + CStr(s[1..], n - 1)
  }

  /** A buffer seen through a char pointer: NUL beyond its end. */
  function CharAt(s: seq<byte>, k: nat): byte {
    if k < |s| then s[k] else 0
  }

  /** namecmp(s, t) == 0, that is strncmp over DIRSIZ bytes. */
  method SameName(s: seq<byte>, t: seq<byte>) returns (same: bool)
    ensures same <==> CStr(s, DIRSIZ) == CStr(t, DIRSIZ)
  {
    var k := 0;
    while k < DIRSIZ && CharAt(s, k) != 0 && CharAt(s, k) == CharAt(t, k)
      invariant 0 <= k <= DIRSIZ && k <= |s| && k <= |t|
      invariant forall j :: 0 <= j < k ==> s[j] == t[j] != 0
    {
      k := k + 1;
    }
    same := k == DIRSIZ || CharAt(s, k) == CharAt(t, k);
    if same {
      CStrIs(s, DIRSIZ, k);
      CStrIs(t, DIRSIZ, k);
      assert s[..k] == t[..k];
    } else {
      DifferAt(s, t, DIRSIZ, k);
    }
  }

  lemma DifferAt(s: seq<byte>, t: seq<byte>, n: nat, k: nat)
    requires k < n && k <= |s| && k <= |t| && (forall j :: 0 <= j < k ==> s[j] == t[j] != 0)
    requires CharAt(s, k) != CharAt(t, k)
    ensures CStr(s, n) != CStr(t, n)
  {
    CStrBeyond(s, n, k);
    CStrBeyond(t, n, k);
  }

  lemma CStrIs(s: seq<byte>, n: nat, k: nat)
    requires k <= n && k <= |s| && (forall j :: 0 <= j < k ==> s[j] != 0)
    requires k == n || CharAt(s, k) == 0
    ensures CStr(s, n) == s[..k]
  {
    var r := CStr(s, n);
    assert |r| == k;
  }

  lemma CStrBeyond(s: seq<byte>, n: nat, k: nat)
    requires k < n && k <= |s| && (forall j :: 0 <= j < k ==> s[j] != 0)
    ensures |CStr(s, n)| >= k
    ensures CharAt(s, k) == if |CStr(s, n)| > k then CStr(s, n)[k] else 0
  {
  }

  // ---------- entries ----------

  function Count(c: seq<byte>): nat {
    |c| / DIRENT
  }

  function Inum(c: seq<byte>, k: nat): nat
    requires k < Count(c)
  {
    var lo: int, hi: int := c[DIRENT * k], c[DIRENT * k + 1];
    lo + 0x100 * hi
  }

  function NameAt(c: seq<byte>, k: nat): seq<byte>
    requires k < Count(c)
  {
    CStr(c[DIRENT * k + 2..DIRENT * k + DIRENT], DIRSIZ)
  }

  /** Sixteen bytes of a directory: the i-number in two, then the name, which ends at a NUL or
      with the entry. */
  ghost predicate EntryAt(c: seq<byte>, k: nat, inum: nat, name: seq<byte>) {
    && 16 * k + 16 <= |c| && Le16(c, 16 * k) == inum && |name| <= 14
    && (forall j :: 0 <= j < |name| ==> c[16 * k + 2 + j] == name[j] != 0)
    && (|name| < 14 ==> c[16 * k + 2 + |name|] == 0)
  }

  lemma EntryBytes(c: seq<byte>, k: nat)
    requires k < Count(c)
    ensures EntryAt(c, k, Inum(c, k), NameAt(c, k))
  {
    var s := c[DIRENT * k + 2..DIRENT * k + DIRENT];
    var name := NameAt(c, k);
    assert forall j :: 0 <= j < 14 ==> s[j] == c[16 * k + 2 + j];
  }

  /** What dirlink writes: the same bytes, NULs behind the name. */
  lemma DirentBytes(inum: nat, name: seq<byte>)
    requires 0 < inum < 0x1_0000
    ensures var r := Dirent(inum, name); var nm := CStr(name, DIRSIZ);
      EntryAt(r, 0, inum, nm) && forall j :: 2 + |nm| <= j < 16 ==> r[j] == 0
  {
  }

  /** Entry k binds the name. */
  predicate Binds(c: seq<byte>, k: nat, name: seq<byte>)
    requires k < Count(c)
  {
    Inum(c, k) != 0 && NameAt(c, k) == name
  }

  /** No name is bound twice. */
  ghost predicate UniqueNames(c: seq<byte>) {
    forall j, k :: 0 <= j < k < Count(c) && Inum(c, j) != 0 && Inum(c, k) != 0 ==> NameAt(c, j) != NameAt(c, k)
  }

  /** The directory as a map: the i-number bound to a name, zero if there is none. */
  function Lookup(c: seq<byte>, name: seq<byte>, k: nat := 0): (r: nat)
    requires k <= Count(c)
    ensures r == 0 ==> forall j :: k <= j < Count(c) ==> !Binds(c, j, name)
    ensures r != 0 ==> exists j :: k <= j < Count(c) && Binds(c, j, name) && Inum(c, j) == r
    decreases Count(c) - k
  {
    if k == Count(c) then 0
    else if Binds(c, k, name) then Inum(c, k)
    else Lookup(c, name, k + 1)
  }

  // ---------- dirlink ----------

  /** strncpy(de.name, name, DIRSIZ): the name, padded with NULs. */
  function Padded(name: seq<byte>): (r: seq<byte>)
    ensures |r| == DIRSIZ && CStr(r, DIRSIZ) == CStr(name, DIRSIZ)
  {
    var s := CStr(name, DIRSIZ);
    var r := s + seq<byte>(DIRSIZ - |s|, i => 0);
    CStrIs(r, DIRSIZ, |s|);
    assert r[..|s|] == s;
    r
  }

  function Dirent(inum: nat, name: seq<byte>): (r: seq<byte>)
    requires 0 < inum < 0x1_0000
    ensures |r| == DIRENT
  {
    [inum % 0x100, inum / 0x100] + Padded(name)
  }

  /** Writing a new entry over an empty slot (or at the end) adds exactly one
      binding and keeps names unique. */
  lemma LinkAddsBinding(c: seq<byte>, k: nat, inum: nat, name: seq<byte>)
    requires |c| % DIRENT == 0 && k <= Count(c) && 0 < inum < 0x1_0000
    requires k < Count(c) ==> Inum(c, k) == 0
    requires UniqueNames(c) && Lookup(c, CStr(name, DIRSIZ)) == 0
    ensures var c' := Overwritten(c, DIRENT * k, Dirent(inum, name));
      && |c'| % DIRENT == 0 && UniqueNames(c')
      && Lookup(c', CStr(name, DIRSIZ)) == inum
      && forall other :: other != CStr(name, DIRSIZ) ==> Lookup(c', other) == Lookup(c, other)
  {
    var c', nm := Overwritten(c, DIRENT * k, Dirent(inum, name)), CStr(name, DIRSIZ);
    LinkedEntry(c, k, inum, name);
    assert Binds(c', k, nm);
    forall j | 0 <= j < Count(c') && j != k ensures !Binds(c', j, nm) {
      LinkOtherEntry(c, k, inum, name, j);
      assert !Binds(c, j, nm);
    }
    UniqueIsLookup(c', k, nm, 0);
    forall i, j | 0 <= i < j < Count(c') && Inum(c', i) != 0 && Inum(c', j) != 0
      ensures NameAt(c', i) != NameAt(c', j)
    {
      if i != k { LinkOtherEntry(c, k, inum, name, i); }
      if j != k { LinkOtherEntry(c, k, inum, name, j); }
      assert i == k ==> !Binds(c', j, nm);
      assert j == k ==> !Binds(c', i, nm);
    }
    forall other | other != nm ensures Lookup(c', other) == Lookup(c, other) {
      LookupOther(c, k, inum, name, other, 0);
    }
  }

  lemma LinkedEntry(c: seq<byte>, k: nat, inum: nat, name: seq<byte>)
    requires |c| % DIRENT == 0 && k <= Count(c) && 0 < inum < 0x1_0000
    ensures var c' := Overwritten(c, DIRENT * k, Dirent(inum, name));
      && |c'| % DIRENT == 0 && k < Count(c') && Count(c) <= Count(c') && (k < Count(c) ==> Count(c') == Count(c))
      && (k == Count(c) ==> Count(c') == Count(c) + 1)
      && Inum(c', k) == inum && NameAt(c', k) == CStr(name, DIRSIZ)
  {
    var c' := Overwritten(c, DIRENT * k, Dirent(inum, name));
    assert c'[DIRENT * k + 2..DIRENT * k + DIRENT] == Padded(name);
  }

  lemma LinkOtherEntry(c: seq<byte>, k: nat, inum: nat, name: seq<byte>, j: nat)
    requires |c| % DIRENT == 0 && k <= Count(c) && 0 < inum < 0x1_0000 && j != k
    requires j < Count(Overwritten(c, DIRENT * k, Dirent(inum, name)))
    ensures j < Count(c)
    ensures var c' := Overwritten(c, DIRENT * k, Dirent(inum, name));
      Inum(c', j) == Inum(c, j) && NameAt(c', j) == NameAt(c, j)
  {
    LinkedEntry(c, k, inum, name);
    var c' := Overwritten(c, DIRENT * k, Dirent(inum, name));
    assert c'[DIRENT * j + 2..DIRENT * j + DIRENT] == c[DIRENT * j + 2..DIRENT * j + DIRENT];
  }

  lemma {:induction false} UniqueIsLookup(c: seq<byte>, k: nat, name: seq<byte>, from: nat)
    requires k < Count(c) && from <= k && Binds(c, k, name)
    requires forall j :: 0 <= j < Count(c) && j != k ==> !Binds(c, j, name)
    ensures Lookup(c, name, from) == Inum(c, k)
    decreases k - from
  {
    if from < k {
      UniqueIsLookup(c, k, name, from + 1);
    }
  }

  lemma {:induction false} LookupOther(c: seq<byte>, k: nat, inum: nat, name: seq<byte>, other: seq<byte>, from: nat)
    requires |c| % DIRENT == 0 && k <= Count(c) && 0 < inum < 0x1_0000 && (k < Count(c) ==> Inum(c, k) == 0)
    requires other != CStr(name, DIRSIZ) && from <= Count(c)
    ensures Count(c) <= Count(Overwritten(c, DIRENT * k, Dirent(inum, name)))
    ensures Lookup(Overwritten(c, DIRENT * k, Dirent(inum, name)), other, from) == Lookup(c, other, from)
    decreases Count(c) - from
  {
    hide Overwritten, Dirent, Inum, NameAt;
    LinkedEntry(c, k, inum, name);
    if from < Count(c) {
      if from != k {
        LinkOtherEntry(c, k, inum, name, from);
      }
      LookupOther(c, k, inum, name, other, from + 1);
    }
  }
}
