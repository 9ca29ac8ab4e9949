/** The file system as mkfs writes it: a root directory with ".", ".." and one entry for each
    file on the command line, its size rounded up to whole blocks. */
module FirstTree {
  import opened Blocks
  import opened FsLayout
  import opened FsOwner
  import opened FileSystem
  import opened Paths
  import opened Directories
  import opened NameLayer

  const DOT: seq<byte> := [46]
  const DOTDOT: seq<byte> := [46, 46]

  function Append(c: seq<byte>, inum: nat, name: seq<byte>): seq<byte>
    requires 0 < inum < 0x1_0000
  {
    Overwritten(c, |c|, Dirent(inum, name))
  }

  /** The k-th name in the root directory. */
  function FullName(names: seq<seq<byte>>, k: nat): seq<byte>
    requires k < |names| + 2
  {
    if k == 0 then DOT else if k == 1 then DOTDOT else names[k - 2]
  }

  function Number(k: nat): (n: nat)
    ensures 0 < n && (k < 0xFFFF ==> n < 0xFFFF)
  {
    if k < 2 then ROOTINO else k
  }

  /** The first n entries; the files get the i-numbers 2, 3 and so on. */
  function Entries(names: seq<seq<byte>>, n: nat): seq<byte>
    requires n <= |names| + 2 && |names| < 0xFFFE
  {
    if n == 0 then [] else Append(Entries(names, n - 1), Number(n - 1), FullName(names, n - 1))
  }

  lemma AppendAt(c: seq<byte>, inum: nat, name: seq<byte>, k: nat)
    requires |c| % DIRENT == 0 && 0 < inum < 0x1_0000 && k <= Count(c)
    ensures var c' := Append(c, inum, name);
      && |c'| == |c| + DIRENT
      && (k < Count(c) ==> Inum(c', k) == Inum(c, k) && NameAt(c', k) == NameAt(c, k))
      && (k == Count(c) ==> Inum(c', k) == inum && NameAt(c', k) == CStr(name, DIRSIZ))
  {
    hide Overwritten, Dirent, Inum, NameAt, CStr;
    assert DIRENT * Count(c) == |c|;
    OverwrittenLength(c, |c|, Dirent(inum, name));
    LinkedEntry(c, Count(c), inum, name);
    if k < Count(c) {
      LinkOtherEntry(c, Count(c), inum, name, k);
    }
  }

  function Rounded(c: seq<byte>): (r: seq<byte>)
    ensures |r| % BSIZE == 0 && |c| < |r| <= |c| + BSIZE && c <= r
  {
    c + seq<byte>((|c| / BSIZE + 1) * BSIZE - |c|, i => 0)
  }

  lemma {:induction false} EntryAt(names: seq<seq<byte>>, n: nat, k: nat)
    requires k < n <= |names| + 2 && |names| < 0xFFFE
    ensures var c := Entries(names, n);
      |c| == DIRENT * n && Inum(c, k) == Number(k) && NameAt(c, k) == CStr(FullName(names, k), DIRSIZ)
    decreases n
  {
    hide Append, Inum, NameAt, CStr, FullName, Number;
    var c := Entries(names, n - 1);
    EntriesSize(names, n - 1);
    AppendAt(c, Number(n - 1), FullName(names, n - 1), k);
    if k < n - 1 {
      EntryAt(names, n - 1, k);
    }
  }

  lemma {:induction false} EntriesSize(names: seq<seq<byte>>, n: nat)
    requires n <= |names| + 2 && |names| < 0xFFFE
    ensures |Entries(names, n)| == DIRENT * n
    decreases n
  {
    hide Append, FullName, Number, CStr, Inum, NameAt;
    if n > 0 {
      EntriesSize(names, n - 1);
      AppendAt(Entries(names, n - 1), Number(n - 1), FullName(names, n - 1), n - 1);
    }
  }

  /** Padding adds empty entries only. */
  lemma PaddedAt(c: seq<byte>, k: nat)
    requires |c| % DIRENT == 0 && k < Count(Rounded(c))
    ensures k < Count(c) ==> Inum(Rounded(c), k) == Inum(c, k) && NameAt(Rounded(c), k) == NameAt(c, k)
    ensures k >= Count(c) ==> Inum(Rounded(c), k) == 0
  {
    var r := Rounded(c);
    if k < Count(c) {
      assert r[DIRENT * k + 2..DIRENT * k + DIRENT] == c[DIRENT * k + 2..DIRENT * k + DIRENT];
    } else {
      assert DIRENT * k >= |c|;
    }
  }

  ghost predicate DistinctNames(names: seq<seq<byte>>) {
    forall j, k :: 0 <= j < k < |names| + 2 ==> CStr(FullName(names, j), DIRSIZ) != CStr(FullName(names, k), DIRSIZ)
  }

  ghost function RootDir(names: seq<seq<byte>>): seq<byte>
    requires |names| < 0xFFFE
  {
    Rounded(Entries(names, |names| + 2))
  }

  /** The entries of the root directory as mkfs leaves it. */
  lemma RootEntry(names: seq<seq<byte>>, k: nat)
    requires |names| < 0xFFFE && k < Count(RootDir(names))
    ensures Count(RootDir(names)) >= |names| + 2 && |RootDir(names)| % DIRENT == 0
    ensures k < |names| + 2 ==>
              Inum(RootDir(names), k) == Number(k) && NameAt(RootDir(names), k) == CStr(FullName(names, k), DIRSIZ)
    ensures k < |names| + 2 ==> Inum(RootDir(names), k) == if k < 2 then 1 else k
    ensures k == 0 ==> NameAt(RootDir(names), k) == [46]
    ensures k == 1 ==> NameAt(RootDir(names), k) == [46, 46]
    ensures 2 <= k < |names| + 2 ==> NameAt(RootDir(names), k) == CStr(names[k - 2], 14)
    ensures k >= |names| + 2 ==> Inum(RootDir(names), k) == 0
  {
    DotsWhole();
    hide Inum, NameAt, CStr, Entries, Rounded;
    var n := |names| + 2;
    EntriesSize(names, n);
    PaddedAt(Entries(names, n), k);
    if k < n {
      EntryAt(names, n, k);
    }
  }

  lemma DotsWhole()
    ensures CStr([46], 14) == [46] && CStr([46, 46], 14) == [46, 46]
  {
    CStrIs([46], 14, 1);
    CStrIs([46, 46], 14, 2);
  }

  lemma RootCount(names: seq<seq<byte>>)
    requires |names| < 0xFFFE
    ensures Count(RootDir(names)) >= |names| + 2 && |RootDir(names)| % DIRENT == 0
  {
    hide Entries;
    EntriesSize(names, |names| + 2);
  }

  /** mkfs does not look for repeated names: each name is bound once exactly if the arguments
      are distinct in their first 14 characters and none is "." or "..". */
  lemma RootUnique(names: seq<seq<byte>>)
    requires |names| < 0xFFFE
    ensures UniqueNames(RootDir(names)) <==> DistinctNames(names)
  {
    hide Inum, NameAt, CStr, RootDir, FullName;
    var c := RootDir(names);
    RootCount(names);
    forall k: nat | k < Count(c)
      ensures k < |names| + 2 ==> Inum(c, k) != 0 && NameAt(c, k) == CStr(FullName(names, k), DIRSIZ)
      ensures k >= |names| + 2 ==> Inum(c, k) == 0
    {
      RootEntry(names, k);
    }
    if UniqueNames(c) {
      forall j, k | 0 <= j < k < |names| + 2
        ensures CStr(FullName(names, j), DIRSIZ) != CStr(FullName(names, k), DIRSIZ)
      {
        assert NameAt(c, j) != NameAt(c, k);
      }
    }
  }

  /** What mkfs has written: the root directory, one linked inode for each file, and nothing
      else in use. */
  ghost predicate MadeByMkfs(l: Layout, f: Fs, owner: Owner, names: seq<seq<byte>>) {
    && Owns(l, f, owner) && |names| < 0xFFFE && |names| + 2 <= l.ninodes
    && (forall i: nat :: i < l.ninodes ==> Synced(l, f, i))
    && f.inode[ROOTINO].size <= MAXBYTES && Contents(f, ROOTINO) == RootDir(names)
    && (forall i: nat :: i < l.ninodes ==> Fresh(f.inode[i], i, |names|))
  }

  ghost predicate Fresh(ip: Inode, i: nat, n: nat) {
    if i == ROOTINO then ip.kind == T_DIR && ip.nlink == 1
    else if 2 <= i < n + 2 then ip.kind == T_FILE && ip.nlink == 1
    else ip.kind == 0
  }

  ghost predicate Cold(c: seq<Slot>) {
    |c| == NINODE && forall k :: 0 <= k < NINODE ==> c[k] == Slot(0, 0, false)
  }

  lemma RootBelow(names: seq<seq<byte>>, n: nat)
    requires |names| < 0xFFFE && |names| + 2 <= n
    ensures EntriesBelow(RootDir(names), n)
  {
    hide Inum, NameAt, CStr, RootDir;
    forall k: nat | k < Count(RootDir(names)) ensures Inum(RootDir(names), k) < n {
      RootEntry(names, k);
    }
  }

  lemma FirstAnchored(l: Layout, f: Fs, owner: Owner, names: seq<seq<byte>>, c: seq<Slot>)
    requires MadeByMkfs(l, f, owner, names)
    ensures |f.inode| == l.ninodes && AllAnchored(l, f, c)
  {
    hide Owns, Synced, Lookup, Contents, HeldValid, RootDir;
    OwnsShape(l, f, owner);
    forall i: nat, name: seq<byte> |
      i < l.ninodes && 0 < Step(f, i, name) < l.ninodes && f.inode[Step(f, i, name)].kind != 0
      ensures Anchored(f, c, Step(f, i, name))
    {
      assert Fresh(f.inode[Step(f, i, name)], Step(f, i, name), |names|);
    }
  }

  /** The name layer starts out right: on a disk written by mkfs, with an empty inode table,
      its invariant holds exactly if the file names are distinct. */
  lemma FirstTreeIsSound(l: Layout, f: Fs, owner: Owner, names: seq<seq<byte>>, c: seq<Slot>)
    requires MadeByMkfs(l, f, owner, names) && Cold(c)
    ensures NameInv(l, f, owner, c) <==> DistinctNames(names)
  {
    hide Owns, Synced, Contents, DistinctNames, UniqueNames, EntriesBelow, AllAnchored, RootDir;
    OwnsShape(l, f, owner);
    RootUnique(names);
    RootBelow(names, l.ninodes);
    RootCount(names);
    assert |Contents(f, ROOTINO)| == f.inode[ROOTINO].size by { DirEnd(f, ROOTINO); }
    FirstAnchored(l, f, owner, names, c);
    assert Fresh(f.inode[ROOTINO], ROOTINO, |names|);
    if DistinctNames(names) {
      forall i: nat | i < l.ninodes && f.inode[i].kind == T_DIR ensures DirOk(l, f, i) {
        assert Fresh(f.inode[i], i, |names|);
      }
    }
  }

  /** Rounding the size up makes a hole in the root directory exactly if the entries fill
      whole blocks. */
  lemma FirstHole(l: Layout, f: Fs, owner: Owner, names: seq<seq<byte>>)
    requires MadeByMkfs(l, f, owner, names)
    requires forall bn: nat :: bn < MAXFILE ==> (BlockAddr(f, ROOTINO, bn) != 0 <==> bn * BSIZE < DIRENT * (|names| + 2))
    ensures |f.inode| == l.ninodes && (NoDirHoles(l, f) <==> (|names| + 2) % 32 != 0)
  {
    hide Owns, Synced, SlotAddr, Entries;
    OwnsShape(l, f, owner);
    EntriesSize(names, |names| + 2);
    var m, size := DIRENT * (|names| + 2), f.inode[ROOTINO].size;
    assert |Contents(f, ROOTINO)| == size by { DirEnd(f, ROOTINO); }
    assert Fresh(f.inode[ROOTINO], ROOTINO, |names|);
    assert forall i: nat :: i < l.ninodes && f.inode[i].kind == T_DIR ==> Fresh(f.inode[i], i, |names|);
    var last := m / BSIZE;
    assert size == (last + 1) * BSIZE;
    assert last < MAXFILE && last * BSIZE < size;
    if NoHoles(f, ROOTINO) {
      assert BlockAddr(f, ROOTINO, last) != 0;
    }
  }
}
