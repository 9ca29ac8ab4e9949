/** The in-memory inode table, directory lookup and path resolution of fs.c. */
module NameLayer {
  import opened Blocks
  import opened FsLayout
  import opened FsOwner
  import opened FsJournal
  import opened FsSpace
  import opened FileSystem
  import opened Wrappers
  import opened Paths
  import opened Directories

  const NINODE := 50
  const ROOTINO := 1

  /** An entry of icache: i-number, reference count, I_VALID. */
  datatype Slot = Slot(inum: nat, ref: nat, valid: bool)

  /** A result that may also be a panic (no free table entry, no free block). */
  datatype Res<T> = Ok(value: T) | Absent | Panic

  /** References to inode i held in memory. */
  function Refs(c: seq<Slot>, i: nat): nat {
    if c == [] then 0 else Refs(c[..|c| - 1], i) + Held(c[|c| - 1], i)
  }

  function Held(s: Slot, i: nat): nat {
    if s.inum == i then s.ref else 0
  }

  lemma {:induction false} RefsUpdate(c: seq<Slot>, k: nat, x: Slot, i: nat)
    requires k < |c|
    ensures Refs(c[k := x], i) == Refs(c, i) - Held(c[k], i) + Held(x, i)
  {
    if k < |c| - 1 {
      RefsUpdate(c[..|c| - 1], k, x, i);
      assert c[k := x][..|c| - 1] == c[..|c| - 1][k := x];
    } else {
      assert c[k := x][..|c| - 1] == c[..|c| - 1];
    }
  }

  /** At most one entry in use per inode. */
  ghost predicate UniqueSlots(c: seq<Slot>) {
    forall j, k :: 0 <= j < k < |c| && c[j].ref > 0 && c[k].ref > 0 ==> c[j].inum != c[k].inum
  }

  /** With one entry per inode, its count is the number of references. */
  lemma {:induction false} RefsOfSlot(c: seq<Slot>, k: nat)
    requires UniqueSlots(c) && k < |c| && c[k].ref > 0
    ensures Refs(c, c[k].inum) == c[k].ref
  {
    if k < |c| - 1 {
      RefsOfSlot(c[..|c| - 1], k);
    } else {
      NoRefs(c[..k], c[k].inum);
    }
  }

  lemma {:induction false} NoRefs(c: seq<Slot>, i: nat)
    requires forall j :: 0 <= j < |c| && c[j].ref > 0 ==> c[j].inum != i
    ensures Refs(c, i) == 0
  {
    if c != [] {
      NoRefs(c[..|c| - 1], i);
    }
  }

  /** All counts as before, except one more (or less) for inode i. */
  ghost predicate RefsPlus(c: seq<Slot>, c': seq<Slot>, i: nat, d: int) {
    forall j: nat :: Refs(c', j) == Refs(c, j) + if j == i then d else 0
  }

  /** The count of an entry is part of the references. */
  lemma {:induction false} RefsAtLeast(c: seq<Slot>, k: nat)
    requires k < |c|
    ensures Refs(c, c[k].inum) >= c[k].ref
  {
    if k < |c| - 1 {
      RefsAtLeast(c[..|c| - 1], k);
    }
  }

  lemma {:induction false} RefsHeld(c: seq<Slot>, i: nat)
    requires Refs(c, i) > 0
    ensures exists s :: 0 <= s < |c| && c[s].inum == i && c[s].ref > 0
  {
    var n := |c| - 1;
    if Held(c[n], i) == 0 {
      RefsHeld(c[..n], i);
      var s :| 0 <= s < n && c[..n][s].inum == i && c[..n][s].ref > 0;
      assert c[s].inum == i && c[s].ref > 0;
    }
  }

  // ---------- what the name layer keeps ----------

  /** Somebody holds the inode and has read it in. */
  ghost predicate HeldValid(c: seq<Slot>, i: nat) {
    exists s :: 0 <= s < |c| && c[s].inum == i && c[s].ref > 0 && c[s].valid
  }

  /** Directories are in order: whole entries, each name once, no i-number out of range. An
      entry may name an inode that has been freed, as ".." in a removed directory does. */
  ghost predicate Tree(l: Layout, f: Fs) {
    && |f.inode| == l.ninodes && ROOTINO < l.ninodes && f.inode[ROOTINO].kind != 0 && f.inode[ROOTINO].nlink > 0
    && forall i: nat :: i < l.ninodes && f.inode[i].kind == T_DIR ==> DirOk(l, f, i)
  }

  ghost predicate DirOk(l: Layout, f: Fs, i: nat)
    requires i < |f.inode|
  {
    && f.inode[i].size <= MAXBYTES && f.inode[i].size % DIRENT == 0
    && UniqueNames(Contents(f, i)) && EntriesBelow(Contents(f, i), l.ninodes)
  }

  ghost predicate EntriesBelow(c: seq<byte>, n: nat) {
    forall k: nat :: k < Count(c) ==> Inum(c, k) < n
  }

  /** What a path can reach is not freed: it is linked or somebody holds it. */
  ghost predicate Anchored(f: Fs, c: seq<Slot>, i: nat)
    requires i < |f.inode|
  {
    f.inode[i].nlink > 0 || HeldValid(c, i)
  }

  /** An entry for inode i does no harm: it is a free inode or an anchored one. */
  ghost predicate MayName(l: Layout, f: Fs, c: seq<Slot>, i: nat)
    requires |f.inode| == l.ninodes
  {
    i < l.ninodes && (f.inode[i].kind != 0 ==> Anchored(f, c, i))
  }

  /** Every inode in use that a directory entry names is anchored. */
  ghost predicate AllAnchored(l: Layout, f: Fs, c: seq<Slot>)
    requires |f.inode| == l.ninodes
  {
    forall i: nat, name: seq<byte> ::
      i < l.ninodes && 0 < Step(f, i, name) < l.ninodes && f.inode[Step(f, i, name)].kind != 0 ==>
      Anchored(f, c, Step(f, i, name))
  }

  /** An inode that differs from its sector is held; a valid entry is an inode in use. */
  ghost predicate Coherent(l: Layout, f: Fs, c: seq<Slot>) {
    Shape(l, f) && SyncedOrHeld(l, f, c) && ValidUsed(f, c)
  }

  ghost predicate SyncedOrHeld(l: Layout, f: Fs, c: seq<Slot>)
    requires Shape(l, f)
  {
    forall i: nat :: i < l.ninodes ==> Synced(l, f, i) || HeldValid(c, i)
  }

  ghost predicate ValidUsed(f: Fs, c: seq<Slot>) {
    forall s :: 0 <= s < |c| && c[s].ref > 0 && c[s].valid ==> c[s].inum < |f.inode| && f.inode[c[s].inum].kind != 0
  }

  /** The invariant of the name layer. */
  ghost predicate NameInv(l: Layout, f: Fs, owner: Owner, c: seq<Slot>) {
    && |c| == NINODE && UniqueSlots(c) && Owns(l, f, owner)
    && Tree(l, f) && AllAnchored(l, f, c) && Coherent(l, f, c)
  }

  ghost predicate NoDirHoles(l: Layout, f: Fs)
    requires |f.inode| == l.ninodes
  {
    forall i: nat :: i < l.ninodes && f.inode[i].kind == T_DIR ==> NoHoles(f, i)
  }

  /** One lookup in directory cur: the i-number bound to the name, or zero. */
  ghost function Step(f: Fs, cur: nat, name: seq<byte>): nat
    requires cur < |f.inode|
  {
    if f.inode[cur].kind != T_DIR || f.inode[cur].size > MAXBYTES then 0
    else Lookup(Contents(f, cur), name)
  }

  /** Path resolution as a fold: follow the name maps from inode `cur`. */
  ghost function Walk(f: Fs, cur: nat, names: seq<seq<byte>>): Option<nat>
    decreases |names|
  {
    if cur >= |f.inode| then None
    else if names == [] then Some(cur)
    else if Step(f, cur, names[0]) == 0 then None
    else Walk(f, Step(f, cur, names[0]), names[1..])
  }

  /** What namex looks for: the whole path, or its parent directory. */
  ghost function Target(f: Fs, cur: nat, names: seq<seq<byte>>, parent: bool): Option<nat> {
    if !parent then Walk(f, cur, names)
    else if names == [] then None
    else
      var d := Walk(f, cur, names[..|names| - 1]);
      if d.Some? && d.value < |f.inode| && f.inode[d.value].kind == T_DIR then d else None
  }

  /** Taking one step along the path does not change the target. */
  lemma TargetStep(f: Fs, cur: nat, name: seq<byte>, rest: seq<seq<byte>>, parent: bool)
    requires cur < |f.inode| && !(parent && rest == [])
    ensures Target(f, cur, [name] + rest, parent) ==
            if Step(f, cur, name) == 0 then None else Target(f, Step(f, cur, name), rest, parent)
  {
    hide Step;
    var names := [name] + rest;
    assert names[1..] == rest;
    if parent {
      var init := names[..|names| - 1];
      assert init[0] == name && init[1..] == rest[..|rest| - 1];
    }
  }

  /** On the way an inode must be locked that has been freed. */
  ghost predicate MeetsFreed(f: Fs, cur: nat, names: seq<seq<byte>>)
    decreases |names|
  {
    && cur < |f.inode| && names != []
    && (f.inode[cur].kind == 0 || (Step(f, cur, names[0]) != 0 && MeetsFreed(f, Step(f, cur, names[0]), names[1..])))
  }

  /** Every directory the walk looks into is mapped as far as it is read. */
  ghost predicate Solid(f: Fs, cur: nat, names: seq<seq<byte>>, parent: bool)
    decreases |names|
  {
    cur < |f.inode| && names != [] && f.inode[cur].kind == T_DIR && !(parent && |names| == 1) ==>
      && f.inode[cur].size <= MAXBYTES && Readable(f, cur, names[0])
      && (Step(f, cur, names[0]) != 0 ==> Solid(f, Step(f, cur, names[0]), names[1..], parent))
  }

  /** A lookup of the name reads mapped blocks only. */
  ghost predicate Readable(f: Fs, i: nat, name: seq<byte>)
    requires i < |f.inode| && f.inode[i].size <= MAXBYTES
  {
    var e := ScanEnd(Contents(f, i), name);
    e <= MAXFILE && AllMapped(f, i, 0, e)
  }

  lemma SolidStep(f: Fs, cur: nat, name: seq<byte>, rest: seq<seq<byte>>, parent: bool)
    requires cur < |f.inode| && f.inode[cur].kind == T_DIR && !(parent && rest == [])
    requires Solid(f, cur, [name] + rest, parent)
    ensures f.inode[cur].size <= MAXBYTES && Readable(f, cur, name)
    ensures Step(f, cur, name) != 0 ==> Solid(f, Step(f, cur, name), rest, parent)
  {
    hide Readable, Step;
    assert ([name] + rest)[1..] == rest;
  }

  /** Without holes in directories every walk only reads. */
  lemma {:induction false} SolidWithoutHoles(l: Layout, f: Fs, cur: nat, names: seq<seq<byte>>, parent: bool)
    requires Tree(l, f) && NoDirHoles(l, f) && cur < l.ninodes
    ensures Solid(f, cur, names, parent)
    decreases |names|
  {
    hide Step, Contents, ScanEnd, AllMapped, NoHoles, DirOk;
    if names != [] && f.inode[cur].kind == T_DIR {
      DirReadable(l, f, cur, names[0]);
      StepBelow(l, f, cur, names[0]);
      SolidWithoutHoles(l, f, Step(f, cur, names[0]), names[1..], parent);
    }
  }

  lemma StepBelow(l: Layout, f: Fs, cur: nat, name: seq<byte>)
    requires Tree(l, f) && cur < l.ninodes
    ensures Step(f, cur, name) < l.ninodes
  {
    hide Contents, Inum, NameAt, UniqueNames;
    if Step(f, cur, name) != 0 {
      assert DirOk(l, f, cur);
      var c := Contents(f, cur);
      var j: nat :| j < Count(c) && Binds(c, j, name) && Inum(c, j) == Lookup(c, name);
      assert Inum(c, j) < l.ninodes;
    }
  }

  lemma TruncatedOwns(l: Layout, f: Fs, owner: Owner, f': Fs, owner': Owner, i: nat)
    requires i < l.ninodes && Truncated(l, f, owner, f', owner', i)
    ensures Owns(l, f', owner')
  {
  }

  /** An entry read on its own is the same entry. */
  lemma EntryIs(c: seq<byte>, k: nat)
    requires k < Count(c)
    ensures Count(c[DIRENT * k..DIRENT * k + DIRENT]) == 1
    ensures Inum(c[DIRENT * k..DIRENT * k + DIRENT], 0) == Inum(c, k)
    ensures CStr(c[DIRENT * k..DIRENT * k + DIRENT][2..DIRENT], DIRSIZ) == NameAt(c, k)
  {
    assert c[DIRENT * k..DIRENT * k + DIRENT][2..DIRENT] == c[DIRENT * k + 2..DIRENT * k + DIRENT];
  }

  lemma TargetEnd(f: Fs, cur: nat, parent: bool)
    requires cur < |f.inode|
    ensures Target(f, cur, [], parent) == if parent then None else Some(cur)
  {
  }

  lemma TargetHere(f: Fs, cur: nat, name: seq<byte>)
    requires cur < |f.inode| && f.inode[cur].kind == T_DIR
    ensures Target(f, cur, [name], true) == Some(cur)
  {
    assert [name][..0] == [];
  }

  lemma NotADirectory(f: Fs, cur: nat, names: seq<seq<byte>>, parent: bool)
    requires cur < |f.inode| && f.inode[cur].kind != T_DIR && names != []
    ensures Target(f, cur, names, parent) == None
  {
    assert Step(f, cur, names[0]) == 0;
    if parent && |names| > 1 {
      assert names[..|names| - 1][0] == names[0];
    }
  }

  lemma NoNul(name: seq<byte>, p: seq<byte>)
    requires 0 !in p && |name| <= DIRSIZ && forall b :: b in name ==> b in p
    ensures CStr(name, DIRSIZ) == name
  {
    forall j | 0 <= j < |name| ensures name[j] != 0 {
      assert name[j] in p;
    }
    CStrIs(name, DIRSIZ, |name|);
    assert name[..|name|] == name;
  }

  lemma StepIsLookup(f: Fs, i: nat, name: seq<byte>)
    requires i < |f.inode| && f.inode[i].kind == T_DIR && f.inode[i].size <= MAXBYTES
    ensures Step(f, i, name) == Lookup(Contents(f, i), name)
  {
  }

  lemma ContentsSame(f: Fs, f': Fs, j: nat)
    requires SameBytes(f, f') && j < |f.inode| && f'.inode[j].size == f.inode[j].size <= MAXBYTES
    ensures Contents(f', j) == Contents(f, j)
  {
    hide FileByte;
  }

  // ---------- table entries come and go ----------

  /** Entries in use stay, with what they hold. */
  ghost predicate Keeps(c: seq<Slot>, c': seq<Slot>) {
    && |c'| == |c|
    && forall s :: 0 <= s < |c| && c[s].ref > 0 ==> KeepsSlot(c[s], c'[s])
  }

  ghost predicate KeepsSlot(x: Slot, y: Slot) {
    y.ref > 0 && y.inum == x.inum && (x.valid ==> y.valid)
  }

  lemma KeepsHeld(c: seq<Slot>, c': seq<Slot>, i: nat)
    requires Keeps(c, c') && HeldValid(c, i)
    ensures HeldValid(c', i)
  {
    var s :| 0 <= s < |c| && c[s].inum == i && c[s].ref > 0 && c[s].valid;
    assert KeepsSlot(c[s], c'[s]);
  }

  lemma KeepsInv(l: Layout, f: Fs, owner: Owner, c: seq<Slot>, c': seq<Slot>)
    requires NameInv(l, f, owner, c) && Keeps(c, c') && UniqueSlots(c') && ValidUsed(f, c')
    ensures NameInv(l, f, owner, c')
  {
    hide Owns, Tree, Synced, Step, HeldValid;
    assert |f.inode| == l.ninodes;
    forall i: nat | i < l.ninodes ensures Synced(l, f, i) || HeldValid(c', i) {
      if HeldValid(c, i) { KeepsHeld(c, c', i); }
    }
    forall i: nat, name: seq<byte> |
      i < l.ninodes && 0 < Step(f, i, name) < l.ninodes && f.inode[Step(f, i, name)].kind != 0
      ensures Anchored(f, c', Step(f, i, name))
    {
      assert Anchored(f, c, Step(f, i, name));
      if HeldValid(c, Step(f, i, name)) { KeepsHeld(c, c', Step(f, i, name)); }
    }
  }

  lemma KeepsChain(a: seq<Slot>, b: seq<Slot>, c: seq<Slot>)
    requires Keeps(a, b) && Keeps(b, c)
    ensures Keeps(a, c)
  {
    forall s | 0 <= s < |a| && a[s].ref > 0 ensures KeepsSlot(a[s], c[s]) {
      assert KeepsSlot(a[s], b[s]) && KeepsSlot(b[s], c[s]);
    }
  }

  lemma NotHeldValid(c: seq<Slot>, k: nat)
    requires UniqueSlots(c) && k < |c| && c[k].ref > 0 && !c[k].valid
    ensures !HeldValid(c, c[k].inum)
  {
  }

  // ---------- iput and the invariant ----------

  /** Freeing the last reference to an unlinked inode keeps the directories in order. */
  lemma FreedTree(l: Layout, f: Fs, owner: Owner, f': Fs, owner': Owner, i: nat)
    requires Tree(l, f) && i < l.ninodes && f.inode[i].nlink == 0
    requires Truncated(l, f, owner, f', owner', i) && f'.inode[i].kind == 0
    ensures Tree(l, f')
    ensures forall j: nat, name: seq<byte> :: j < l.ninodes ==>
              Step(f', j, name) == if j == i then 0 else Step(f, j, name)
  {
    hide Owns, Marked, SlotAddr, FileByte, UniqueNames, EntriesBelow, Lookup;
    TruncatedShape(l, f, owner, f', owner', i);
    forall j: nat | j < l.ninodes && j != i && f.inode[j].size <= MAXBYTES
      ensures Contents(f', j) == Contents(f, j)
    {
    }
    assert forall j: nat :: j < l.ninodes && f'.inode[j].kind == T_DIR ==> DirOk(l, f, j);
  }

  /** Freeing an inode leaves the blocks of every directory where they are. */
  lemma FreedNoDirHoles(l: Layout, f: Fs, owner: Owner, f': Fs, owner': Owner, i: nat)
    requires Owns(l, f, owner) && i < l.ninodes && Truncated(l, f, owner, f', owner', i) && f'.inode[i].kind == 0
    requires NoDirHoles(l, f)
    ensures |f'.inode| == l.ninodes && NoDirHoles(l, f')
  {
    hide Marked, SlotAddr, FileByte;
    TruncatedShape(l, f, owner, f', owner', i);
    forall j: nat, bn: nat | j < l.ninodes && f'.inode[j].kind == T_DIR && bn < MAXFILE && bn * BSIZE < f'.inode[j].size
      ensures BlockAddr(f', j, bn) != 0
    {
      assert NoHoles(f, j);
      var a := BlockAddr(f, j, bn);
      assert SlotOk(f, owner, j, SlotFor(bn)) && a in owner';
      assert OwnerOk(l, f', owner', a);
    }
  }

  lemma FreedInv(l: Layout, f: Fs, owner: Owner, c: seq<Slot>, f': Fs, owner': Owner, c': seq<Slot>, k: nat)
    requires NameInv(l, f, owner, c) && k < NINODE && c[k].ref == 1 && c[k].valid
    requires c[k].inum < l.ninodes && f.inode[c[k].inum].nlink == 0
    requires Truncated(l, f, owner, f', owner', c[k].inum) && f'.inode[c[k].inum].kind == 0
    requires Owns(l, f', owner') && Synced(l, f', c[k].inum)
    requires forall s :: 0 <= s < l.ninodes + 3 && s != l.Iblock(c[k].inum) ==> f'.img[s] == f.img[s]
    requires c' == c[k := Slot(c[k].inum, 0, false)]
    ensures NameInv(l, f', owner', c')
  {
    hide Owns, Tree, Step, HeldValid, DecodeInode;
    var i := c[k].inum;
    FreedTree(l, f, owner, f', owner', i);
    TruncatedShape(l, f, owner, f', owner', i);
    forall j: nat | j < l.ninodes && j != i && HeldValid(c, j) ensures HeldValid(c', j) {
      HeldElsewhere(c, c', k, j);
    }
    forall j: nat | j < l.ninodes ensures Synced(l, f', j) || HeldValid(c', j) {
      if j != i && Synced(l, f, j) {
        assert f'.img[l.Iblock(j)] == f.img[l.Iblock(j)];
      }
    }
    forall j: nat, name: seq<byte> |
      j < l.ninodes && 0 < Step(f', j, name) < l.ninodes && f'.inode[Step(f', j, name)].kind != 0
      ensures Anchored(f', c', Step(f', j, name))
    {
      assert Anchored(f, c, Step(f, j, name));
    }
  }

  lemma HeldElsewhere(c: seq<Slot>, c': seq<Slot>, k: nat, j: nat)
    requires k < |c| == |c'| && c' == c[k := c'[k]] && j != c[k].inum && HeldValid(c, j)
    ensures HeldValid(c', j)
  {
    var s :| 0 <= s < |c| && c[s].inum == j && c[s].ref > 0 && c[s].valid;
    assert c'[s] == c[s];
  }

  lemma TruncatedShape(l: Layout, f: Fs, owner: Owner, f': Fs, owner': Owner, i: nat)
    requires i < l.ninodes && Truncated(l, f, owner, f', owner', i)
    ensures Shape(l, f) && Shape(l, f')
    ensures forall j :: 0 <= j < l.ninodes && j != i ==> f'.inode[j] == f.inode[j]
  {
  }

  /** One reference less to an inode that is not freed: the invariant is kept exactly if the
      entry is still in use or the inode on disk is up to date. */
  lemma DroppedInv(l: Layout, f: Fs, owner: Owner, c: seq<Slot>, c': seq<Slot>, k: nat)
    requires NameInv(l, f, owner, c) && k < NINODE && c[k].ref > 0 && c[k].inum < l.ninodes
    requires !(c[k].ref == 1 && c[k].valid && f.inode[c[k].inum].nlink == 0)
    requires c' == c[k := c[k].(ref := c[k].ref - 1)]
    ensures NameInv(l, f, owner, c') <==> c[k].ref > 1 || Synced(l, f, c[k].inum)
  {
    hide Owns, Tree, Step, Synced;
    var i := c[k].inum;
    forall j: nat | HeldValid(c, j) ensures HeldValid(c', j) || (j == i && c[k].ref == 1 && c[k].valid) {
      var s :| 0 <= s < |c| && c[s].inum == j && c[s].ref > 0 && c[s].valid;
      if s != k { assert c'[s] == c[s]; } else { assert c'[s].inum == j; }
    }
    forall j: nat, name: seq<byte> |
      j < l.ninodes && 0 < Step(f, j, name) < l.ninodes && f.inode[Step(f, j, name)].kind != 0
      ensures Anchored(f, c', Step(f, j, name))
    {
      assert Anchored(f, c, Step(f, j, name));
    }
    if c[k].ref == 1 {
      assert !HeldValid(c', i);
    }
  }

  // ---------- directories that gain a block or an entry ----------

  /** Filling holes of a directory that somebody holds. */
  lemma FilledInv(l: Layout, f: Fs, owner: Owner, f': Fs, owner': Owner, c: seq<Slot>, i: nat)
    requires NameInv(l, f, owner, c) && Owns(l, f', owner') && HeldValid(c, i) && i < l.ninodes
    requires SameBytes(f, f') && OnlyAddrs(f, f', i) && SameInodeSectors(l, f.img, f'.img)
    ensures NameInv(l, f', owner', c)
  {
    hide Owns, FileByte, HeldValid, UniqueNames, EntriesBelow, Lookup, DecodeInode;
    OwnsShape(l, f, owner);
    OwnsShape(l, f', owner');
    forall j: nat | j < l.ninodes && f.inode[j].size <= MAXBYTES ensures Contents(f', j) == Contents(f, j) {
      ContentsSame(f, f', j);
    }
    forall j: nat | j < l.ninodes && f'.inode[j].kind == T_DIR ensures DirOk(l, f', j) {
      assert DirOk(l, f, j);
    }
    SameNamesAnchored(l, f, f', c);
    forall j: nat | j < l.ninodes ensures Synced(l, f', j) || HeldValid(c, j) {
      if j != i && Synced(l, f, j) {
        assert f'.img[l.Iblock(j)] == f.img[l.Iblock(j)];
      }
    }
  }

  lemma SameNamesAnchored(l: Layout, f: Fs, f': Fs, c: seq<Slot>)
    requires |f.inode| == |f'.inode| == l.ninodes && AllAnchored(l, f, c)
    requires forall j: nat :: j < l.ninodes ==>
               f'.inode[j].kind == f.inode[j].kind && f'.inode[j].nlink == f.inode[j].nlink && f'.inode[j].size == f.inode[j].size
    requires forall j: nat :: j < l.ninodes && f.inode[j].size <= MAXBYTES ==> Contents(f', j) == Contents(f, j)
    ensures AllAnchored(l, f', c)
  {
    hide Contents, Lookup, HeldValid;
    forall j: nat, name: seq<byte> |
      j < l.ninodes && 0 < Step(f', j, name) < l.ninodes && f'.inode[Step(f', j, name)].kind != 0
      ensures Anchored(f', c, Step(f', j, name))
    {
      assert Step(f', j, name) == Step(f, j, name);
      assert Anchored(f, c, Step(f, j, name));
    }
  }

  /** The directory's name map gains nm -> inum; nothing else changes. */
  ghost predicate Bound(f: Fs, f': Fs, i: nat, nm: seq<byte>, inum: nat) {
    && |f'.inode| == |f.inode| && i < |f.inode| && f.inode[i].size <= MAXBYTES && f'.inode[i].size <= MAXBYTES
    && f'.inode[i] == f.inode[i].(addrs := f'.inode[i].addrs, size := f'.inode[i].size)
    && UniqueNames(Contents(f', i)) && Lookup(Contents(f', i), nm) == inum
    && (forall other :: other != nm ==> Lookup(Contents(f', i), other) == Lookup(Contents(f, i), other))
    && (forall j: nat :: j < |f.inode| && j != i && f.inode[j].size <= MAXBYTES ==>
          f'.inode[j] == f.inode[j] && Contents(f', j) == Contents(f, j))
  }

  /** Writing the entry after a scan that may have filled holes. */
  lemma LinkBinds(l: Layout, f: Fs, mid: Fs, f': Fs, i: nat, n: nat, inum: nat, name: seq<byte>)
    requires Tree(l, f) && i < l.ninodes && f.inode[i].kind == T_DIR && 0 < inum < 0x1_0000
    requires SameBytes(f, mid) && OnlyAddrs(f, mid, i)
    requires n <= Count(Contents(f, i)) && (n < Count(Contents(f, i)) ==> Inum(Contents(f, i), n) == 0)
    requires Lookup(Contents(f, i), CStr(name, DIRSIZ)) == 0
    requires mid.inode[i].size <= MAXBYTES && WroteFile(mid, f', i, DIRENT * n, Dirent(inum, name))
    ensures Bound(f, f', i, CStr(name, DIRSIZ), inum)
    ensures inum < l.ninodes ==> DirOk(l, f', i)
    ensures |f'.inode| == |mid.inode|
    ensures f'.inode[i].size == if n < Count(Contents(f, i)) then f.inode[i].size else f.inode[i].size + DIRENT
  {
    hide FileByte, Inum, Lookup, CStr, Overwritten, Dirent, UniqueNames, Contents, NameAt;
    assert DirOk(l, f, i);
    var c := Contents(f, i);
    ContentsSame(f, mid, i);
    LinkAddsBinding(c, n, inum, name);
    LinkSize(c, n, inum, name);
    forall j: nat | j < |f.inode| && j != i && f.inode[j].size <= MAXBYTES
      ensures f'.inode[j] == f.inode[j] && Contents(f', j) == Contents(f, j)
    {
      ContentsSame(f, mid, j);
    }
    if inum < l.ninodes {
      LinkEntries(c, n, inum, name, l.ninodes);
    }
  }

  lemma LinkSize(c: seq<byte>, n: nat, inum: nat, name: seq<byte>)
    requires |c| % DIRENT == 0 && n <= Count(c) && 0 < inum < 0x1_0000
    ensures |Overwritten(c, DIRENT * n, Dirent(inum, name))| == if n < Count(c) then |c| else |c| + DIRENT
  {
  }

  lemma LinkEntries(c: seq<byte>, n: nat, inum: nat, name: seq<byte>, m: nat)
    requires |c| % DIRENT == 0 && n <= Count(c) && 0 < inum < 0x1_0000 && inum < m && EntriesBelow(c, m)
    ensures EntriesBelow(Overwritten(c, DIRENT * n, Dirent(inum, name)), m)
  {
    hide Overwritten, Dirent, Inum, NameAt, CStr;
    var c' := Overwritten(c, DIRENT * n, Dirent(inum, name));
    LinkedEntry(c, n, inum, name);
    forall j: nat | j < Count(c') ensures Inum(c', j) < m {
      if j != n {
        LinkOtherEntry(c, n, inum, name, j);
      }
    }
  }

  /** A new entry for an inode that is anchored, in a directory that is held. */
  lemma LinkedInv(l: Layout, f: Fs, owner: Owner, f': Fs, owner': Owner, c: seq<Slot>, i: nat, nm: seq<byte>, inum: nat)
    requires NameInv(l, f, owner, c) && Owns(l, f', owner') && HeldValid(c, i) && i < l.ninodes
    requires f.inode[i].kind == T_DIR && Bound(f, f', i, nm, inum) && DirOk(l, f', i) && 0 < inum < l.ninodes
    requires f.inode[inum].kind != 0 ==> Anchored(f, c, inum)
    requires forall j :: 0 <= j < l.ninodes && j != i ==> f'.inode[j] == f.inode[j]
    requires forall s :: 0 <= s < l.ninodes + 3 && s != l.Iblock(i) ==> f'.img[s] == f.img[s]
    ensures NameInv(l, f', owner', c)
  {
    hide Owns, HeldValid, UniqueNames, EntriesBelow, Lookup, Contents, DecodeInode;
    OwnsShape(l, f, owner);
    OwnsShape(l, f', owner');
    forall j: nat | j < l.ninodes && f'.inode[j].kind == T_DIR ensures DirOk(l, f', j) {
      if j != i {
        assert DirOk(l, f, j);
      }
    }
    forall j: nat, name: seq<byte> |
      j < l.ninodes && 0 < Step(f', j, name) < l.ninodes && f'.inode[Step(f', j, name)].kind != 0
      ensures Anchored(f', c, Step(f', j, name))
    {
      assert Step(f', j, name) == if j == i && name == nm then inum else Step(f, j, name);
      assert !(j == i && name == nm) ==> Anchored(f, c, Step(f, j, name));
    }
    forall j: nat | j < l.ninodes ensures Synced(l, f', j) || HeldValid(c, j) {
      if j != i && Synced(l, f, j) {
        assert f'.img[l.Iblock(j)] == f.img[l.Iblock(j)];
      }
    }
  }

  // ---------- scanning a directory ----------

  /** Index of the first entry that binds the name, or the number of entries. */
  function FirstAt(c: seq<byte>, name: seq<byte>, k: nat := 0): (r: nat)
    requires k <= Count(c)
    ensures k <= r <= Count(c)
    decreases Count(c) - k
  {
    if k == Count(c) || Binds(c, k, name) then k else FirstAt(c, name, k + 1)
  }

  /** One past the last block dirlookup reads: it stops behind the entry it finds. */
  ghost function ScanEnd(c: seq<byte>, name: seq<byte>): nat {
    EndBlock(0, DIRENT * if FirstAt(c, name) < Count(c) then FirstAt(c, name) + 1 else Count(c))
  }

  lemma ScanEndIs(c: seq<byte>, name: seq<byte>, n: nat)
    requires n <= Count(c) && FirstAt(c, name) == FirstAt(c, name, n)
    ensures n == Count(c) ==> ScanEnd(c, name) == EndBlock(0, DIRENT * n)
    ensures n < Count(c) && Binds(c, n, name) ==> ScanEnd(c, name) == EndBlock(0, DIRENT * (n + 1))
  {
  }

  /** A further entry is in the block of the entry before it or in the next block. */
  lemma EntryBlock(n: nat)
    ensures EndBlock(0, DIRENT * n + DIRENT) == DIRENT * n / BSIZE + 1 == EndBlock(DIRENT * n, DIRENT)
    ensures EndBlock(0, DIRENT * n) == DIRENT * n / BSIZE || EndBlock(0, DIRENT * n) == DIRENT * n / BSIZE + 1
  {
  }

  lemma ScanMore(l: Layout, a: Snapshot, m: Snapshot, b: Snapshot, i: nat, n: nat)
    requires Mapping(l, a, m, i, 0, EndBlock(0, DIRENT * n)) && DIRENT * n / BSIZE < MAXFILE
    requires Mapping(l, m, b, i, DIRENT * n / BSIZE, DIRENT * n / BSIZE + 1)
    ensures Mapping(l, a, b, i, 0, EndBlock(0, DIRENT * (n + 1)))
  {
    hide Mapping, EndBlock;
    EntryBlock(n);
    var bn := DIRENT * n / BSIZE;
    if EndBlock(0, DIRENT * n) == bn {
      MappingJoin(l, a, m, b, i, 0, bn);
    } else {
      MappingAgain(l, a, m, b, i, 0, bn + 1, bn);
    }
  }

  lemma DirEnd(f: Fs, i: nat)
    requires i < |f.inode| && f.inode[i].size <= MAXBYTES
    ensures |Contents(f, i)| == f.inode[i].size
  {
  }

  /** The disk is full and a hole stands in the way of the lookup. */
  ghost predicate Stuck(l: Layout, f: Fs, f': Fs, i: nat, name: seq<byte>) {
    && l.DataStart() <= |f'.img| && Full(l, f'.img) && i < |f.inode| && f.inode[i].size <= MAXBYTES
    && ScanEnd(Contents(f, i), CStr(name, DIRSIZ)) <= MAXFILE
    && !AllMapped(f, i, 0, ScanEnd(Contents(f, i), CStr(name, DIRSIZ)))
  }

  ghost predicate NotStuck(l: Layout, f: Fs, f': Fs, i: nat, name: seq<byte>)
    requires i < |f.inode|
  {
    f.inode[i].size % DIRENT == 0 && !Stuck(l, f, f', i, name)
  }

  /** A dirent lies in one block, and so does what is left of one. */
  lemma DirentBlock(f: Fs, i: nat, off: nat)
    requires i < |f.inode| && off < f.inode[i].size <= MAXBYTES && off % DIRENT == 0
    ensures off / BSIZE < MAXFILE && ReadEnd(f, i, off, DIRENT) == off / BSIZE + 1
  {
  }

  lemma NoBlocks()
    ensures EndBlock(0, 0) == 0
  {
  }

  /** An entry the scan comes to lies within what it reads. */
  lemma ScanReaches(c: seq<byte>, name: seq<byte>, n: nat)
    requires n < Count(c) && FirstAt(c, name) == FirstAt(c, name, n)
    ensures DIRENT * n / BSIZE < ScanEnd(c, name)
  {
    var v := if FirstAt(c, name) < Count(c) then FirstAt(c, name) + 1 else Count(c);
    assert n < v;
    EntryBlock(v - 1);
    assert DIRENT * n <= DIRENT * (v - 1);
  }

  lemma ScanEndBound(f: Fs, i: nat, name: seq<byte>)
    requires i < |f.inode| && f.inode[i].size <= MAXBYTES
    ensures ScanEnd(Contents(f, i), name) <= EndBlock(0, f.inode[i].size) <= MAXFILE
    ensures FirstAt(Contents(f, i), name) == Count(Contents(f, i)) && f.inode[i].size % DIRENT == 0 ==>
              ScanEnd(Contents(f, i), name) == EndBlock(0, f.inode[i].size)
  {
    hide FileByte;
    var c := Contents(f, i);
    var v := if FirstAt(c, name) < Count(c) then FirstAt(c, name) + 1 else Count(c);
    assert DIRENT * v <= |c|;
  }

  lemma {:induction false} AbsentFirst(c: seq<byte>, name: seq<byte>, k: nat)
    requires k <= Count(c) && Lookup(c, name, k) == 0
    ensures FirstAt(c, name, k) == Count(c)
    decreases Count(c) - k
  {
    if k < Count(c) {
      AbsentFirst(c, name, k + 1);
    }
  }

  lemma StuckScan(l: Layout, a: Snapshot, m: Snapshot, i: nat, c: seq<byte>, name: seq<byte>, n: nat)
    requires Mapping(l, a, m, i, 0, EndBlock(0, DIRENT * n)) && ScanEnd(c, name) <= MAXFILE
    requires n < Count(c) && FirstAt(c, name) == FirstAt(c, name, n) && DIRENT * n / BSIZE < MAXFILE
    requires i < |m.fs.inode| && BlockAddr(m.fs, i, DIRENT * n / BSIZE) == 0
    ensures i < |a.fs.inode| && !AllMapped(a.fs, i, 0, ScanEnd(c, name))
  {
    hide EndBlock, ScanEnd, SlotAddr, FirstAt, Paid, Grew, OnlyAddrs, SameBytes, AllReady;
    assert i < |a.fs.inode| by { MappingDone(l, a, m, i, 0, EndBlock(0, DIRENT * n)); }
    ScanReaches(c, name, n);
    EntryBlock(n);
    var bn := DIRENT * n / BSIZE;
    if EndBlock(0, DIRENT * n) == bn + 1 {
      MappedAt(m.fs, i, 0, bn + 1, bn);
    } else {
      MappingStuck(l, a, m, i, 0, bn, ScanEnd(c, name));
    }
  }

  /** A directory without holes is looked up without touching anything. */
  lemma DirReadable(l: Layout, f: Fs, i: nat, name: seq<byte>)
    requires Tree(l, f) && i < l.ninodes && f.inode[i].kind == T_DIR && NoHoles(f, i)
    ensures f.inode[i].size <= MAXBYTES && f.inode[i].size % DIRENT == 0
    ensures ScanEnd(Contents(f, i), name) <= MAXFILE && AllMapped(f, i, 0, ScanEnd(Contents(f, i), name))
  {
    hide SlotAddr, Contents, ScanEnd, NoHoles;
    assert DirOk(l, f, i);
    ScanEndBound(f, i, name);
    NoHolesMapped(f, i, 0, f.inode[i].size);
  }

  lemma DirWhole(l: Layout, f: Fs, i: nat)
    requires Tree(l, f) && i < l.ninodes && f.inode[i].kind == T_DIR
    ensures f.inode[i].size % DIRENT == 0
  {
    assert DirOk(l, f, i);
  }

  // ---------- walking ----------

  lemma StepHeld(l: Layout, f: Fs, c: seq<Slot>, cur: nat, name: seq<byte>)
    requires |f.inode| == l.ninodes && AllAnchored(l, f, c) && cur < l.ninodes && 0 < Step(f, cur, name) < l.ninodes
    ensures var e := Step(f, cur, name); f.inode[e].kind == 0 || f.inode[e].nlink > 0 || Refs(c, e) > 0
  {
    hide Step, Refs;
    var e := Step(f, cur, name);
    if f.inode[e].kind != 0 {
      assert Anchored(f, c, e);
      if HeldValid(c, e) {
        var s :| 0 <= s < |c| && c[s].inum == e && c[s].ref > 0 && c[s].valid;
        RefsAtLeast(c, s);
      }
    }
  }

  lemma OneChanged(f: Fs, c: seq<Slot>, c': seq<Slot>, k: nat)
    requires |c'| == |c| && k < |c| && (forall j :: 0 <= j < |c| && j != k ==> c'[j] == c[j])
    requires c[k].ref > 0 ==> KeepsSlot(c[k], c'[k])
    requires c'[k].valid ==> c[k].ref > 0 && c[k].valid && c[k].inum == c'[k].inum
    requires ValidUsed(f, c)
    ensures Keeps(c, c') && ValidUsed(f, c')
  {
  }

  /** The walk that started with table c0 has reached entry k and holds nothing else. */
  ghost predicate At(l: Layout, f: Fs, c0: seq<Slot>, c: seq<Slot>, k: nat) {
    && k < |c| && c[k].ref > 0 && c[k].inum < l.ninodes
    && RefsPlus(c0, c, c[k].inum, 1) && Keeps(c0, c) && ValidUsed(f, c)
  }

  /** Putting inode i back will not free it. */
  ghost predicate Safe(f: Fs, c0: seq<Slot>, i: nat)
    requires i < |f.inode|
  {
    f.inode[i].nlink > 0 || Refs(c0, i) > 0
  }

  lemma AtStart(l: Layout, f: Fs, c0: seq<Slot>, c: seq<Slot>, k: nat, cwd: nat)
    requires Tree(l, f) && ValidUsed(f, c0) && k < |c| == |c0| && cwd < |c0| && c0[cwd].ref > 0
    requires c[k].ref > 0 && c[k].inum < l.ninodes && ((k == cwd && c[k].inum == c0[cwd].inum) || c[k].inum == ROOTINO)
    requires RefsPlus(c0, c, c[k].inum, 1) && forall j :: 0 <= j < |c0| && j != k ==> c[j] == c0[j]
    requires c0[k].ref > 0 ==> KeepsSlot(c0[k], c[k])
    requires c[k].valid ==> c0[k].ref > 0 && c0[k].valid && c0[k].inum == c[k].inum
    ensures At(l, f, c0, c, k) && c[k].inum < |f.inode| && Safe(f, c0, c[k].inum)
  {
    hide Refs;
    OneChanged(f, c0, c, k);
    RefsAtLeast(c0, cwd);
  }

  lemma RootIs(l: Layout, f: Fs)
    requires Tree(l, f)
    ensures ROOTINO < l.ninodes == |f.inode|
  {
  }

  lemma AtInv(l: Layout, f: Fs, owner: Owner, c0: seq<Slot>, c: seq<Slot>, k: nat)
    requires NameInv(l, f, owner, c0) && At(l, f, c0, c, k) && UniqueSlots(c)
    ensures NameInv(l, f, owner, c) && Coherent(l, f, c) && c[k].ref > 0 && c[k].inum < l.ninodes
    ensures Keeps(c0, c) && RefsPlus(c0, c, c[k].inum, 1)
  {
    KeepsInv(l, f, owner, c0, c);
  }

  lemma AtEnd(l: Layout, f: Fs, owner: Owner, c0: seq<Slot>, c: seq<Slot>)
    requires NameInv(l, f, owner, c0) && Keeps(c0, c) && UniqueSlots(c) && ValidUsed(f, c)
    ensures NameInv(l, f, owner, c)
  {
    KeepsInv(l, f, owner, c0, c);
  }

  lemma AtLocked(l: Layout, f: Fs, owner: Owner, c0: seq<Slot>, c1: seq<Slot>, c: seq<Slot>, k: nat)
    requires At(l, f, c0, c1, k) && Keeps(c1, c) && c[k].ref > 0 && c[k].inum == c1[k].inum && Coherent(l, f, c)
    requires forall j: nat :: Refs(c, j) == Refs(c1, j)
    ensures At(l, f, c0, c, k)
  {
    hide Refs;
    KeepsChain(c0, c1, c);
  }

  /** What is left of the path, from inode i on, is what the whole path means from `start`. */
  ghost predicate OnWay(f: Fs, start: nat, path: seq<byte>, i: nat, p: seq<byte>, parent: bool) {
    && Target(f, start, Components(path), parent) == Target(f, i, Components(p), parent)
    && (MeetsFreed(f, i, Components(p)) ==> MeetsFreed(f, start, Components(path)))
    && (parent ==> p == path || Components(p) != []) && Solid(f, i, Components(p), parent)
    && (Components(p) != [] ==>
          Components(path) != [] && Components(p)[|Components(p)| - 1] == Components(path)[|Components(path)| - 1])
  }

  lemma OnWayStart(f: Fs, start: nat, path: seq<byte>, parent: bool)
    requires Solid(f, start, Components(path), parent)
    ensures OnWay(f, start, path, start, path, parent)
  {
  }

  lemma OnWayFreed(f: Fs, start: nat, path: seq<byte>, i: nat, p: seq<byte>, parent: bool)
    requires OnWay(f, start, path, i, p, parent) && Components(p) != [] && i < |f.inode| && f.inode[i].kind == 0
    ensures MeetsFreed(f, start, Components(path))
  {
    hide Components, Target, Solid;
    FreedHere(f, i, Components(p));
  }

  lemma OnWayNoDir(f: Fs, start: nat, path: seq<byte>, i: nat, p: seq<byte>, parent: bool)
    requires OnWay(f, start, path, i, p, parent) && Components(p) != [] && i < |f.inode| && f.inode[i].kind != T_DIR
    ensures Target(f, start, Components(path), parent) == None
  {
    hide Components, MeetsFreed, Solid;
    NotADirectory(f, i, Components(p), parent);
  }

  lemma OnWayHere(f: Fs, start: nat, path: seq<byte>, i: nat, p: seq<byte>, elem: seq<byte>)
    requires OnWay(f, start, path, i, p, true) && i < |f.inode| && f.inode[i].kind == T_DIR
    requires |Components(p)| == 1 && Components(p)[0] == elem
    ensures Target(f, start, Components(path), true) == Some(i)
    ensures Components(path) != [] && elem == Components(path)[|Components(path)| - 1]
  {
    hide Components, MeetsFreed, Target, Solid;
    assert Components(p) == [elem];
    TargetHere(f, i, elem);
  }

  lemma OnWayStep(f: Fs, start: nat, path: seq<byte>, i: nat, p: seq<byte>, elem: seq<byte>, rest: seq<byte>, parent: bool)
    requires OnWay(f, start, path, i, p, parent) && i < |f.inode| && Step(f, i, elem) != 0
    requires Components(p) == [elem] + Components(rest) && !(parent && rest == [])
    requires rest == [] <==> |Components(p)| == 1
    requires f.inode[i].kind == T_DIR
    ensures OnWay(f, start, path, Step(f, i, elem), rest, parent)
  {
    hide Components, MeetsFreed, Target, Step, Solid;
    assert Components(rest) == [] <==> rest == [];
    SolidStep(f, i, elem, Components(rest), parent);
    TargetStep(f, i, elem, Components(rest), parent);
    if MeetsFreed(f, Step(f, i, elem), Components(rest)) {
      FreedStep(f, i, elem, Components(rest));
    }
  }

  lemma OnWayLost(f: Fs, start: nat, path: seq<byte>, i: nat, p: seq<byte>, elem: seq<byte>, rest: seq<byte>, parent: bool)
    requires OnWay(f, start, path, i, p, parent) && i < |f.inode| && Step(f, i, elem) == 0
    requires Components(p) == [elem] + Components(rest) && !(parent && rest == [])
    requires rest == [] <==> |Components(p)| == 1
    ensures Target(f, start, Components(path), parent) == None
  {
    hide Components, MeetsFreed, Target, Step, Solid;
    TargetStep(f, i, elem, Components(rest), parent);
  }

  lemma OnWayReads(f: Fs, start: nat, path: seq<byte>, i: nat, p: seq<byte>, elem: seq<byte>, rest: seq<byte>, parent: bool)
    requires OnWay(f, start, path, i, p, parent) && i < |f.inode| && f.inode[i].kind == T_DIR
    requires Components(p) == [elem] + Components(rest) && !(parent && rest == [])
    requires rest == [] <==> |Components(p)| == 1
    ensures f.inode[i].size <= MAXBYTES && Readable(f, i, elem)
  {
    hide Components, MeetsFreed, Target, Step, Solid, Readable;
    assert Components(rest) == [] <==> rest == [];
    SolidStep(f, i, elem, Components(rest), parent);
  }

  lemma OnWayEnd(f: Fs, start: nat, path: seq<byte>, i: nat, p: seq<byte>, parent: bool)
    requires OnWay(f, start, path, i, p, parent) && i < |f.inode| && Components(p) == []
    ensures Target(f, start, Components(path), parent) == if parent then None else Some(i)
    ensures parent ==> p == path
  {
    hide Components, MeetsFreed, Target, Solid;
    TargetEnd(f, i, parent);
  }

  lemma FreedHere(f: Fs, cur: nat, names: seq<seq<byte>>)
    requires cur < |f.inode| && names != [] && f.inode[cur].kind == 0
    ensures MeetsFreed(f, cur, names)
  {
  }

  lemma FreedStep(f: Fs, cur: nat, name: seq<byte>, rest: seq<seq<byte>>)
    requires cur < |f.inode| && Step(f, cur, name) != 0 && MeetsFreed(f, Step(f, cur, name), rest)
    ensures MeetsFreed(f, cur, [name] + rest)
  {
    assert ([name] + rest)[1..] == rest;
  }

  // ---------- dirlink ----------

  /** What a link costs: the blocks missing from the directory, the new one included. */
  lemma LinkPaid(l: Layout, a: Snapshot, m: Snapshot, fs: Fs, owner: Owner, i: nat, n: nat, size: nat)
    requires size % DIRENT == 0 && size <= MAXBYTES && DIRENT * n <= size
    requires Mapping(l, a, m, i, 0, EndBlock(0, size))
    requires Paid(l, m.fs, m.owner, fs, owner, i, DIRENT * n / BSIZE, EndBlock(DIRENT * n, DIRENT))
    ensures Paid(l, a.fs, a.owner, fs, owner, i, 0,
              EndBlock(0, if DIRENT * n < size then size else size + DIRENT))
  {
    hide Paid, EndBlock, Grew, OnlyAddrs, SameBytes, AllReady, SlotAddr;
    var bn, e := DIRENT * n / BSIZE, EndBlock(0, size);
    EntryBlock(n);
    PaidBounds(l, a.fs, a.owner, m.fs, m.owner, i, 0, e);
    if DIRENT * n == size && e == bn {
      PaidJoin(l, a.fs, a.owner, m.fs, m.owner, fs, owner, i, 0, bn, bn + 1);
    } else {
      LinkInside(n, size);
      PaidInside(l, a.fs, a.owner, m.fs, m.owner, fs, owner, i, 0, e, bn, bn + 1);
    }
  }

  lemma LinkInside(n: nat, size: nat)
    requires size % DIRENT == 0 && DIRENT * n <= size && !(DIRENT * n == size && EndBlock(0, size) == DIRENT * n / BSIZE)
    ensures DIRENT * n / BSIZE + 1 <= EndBlock(0, size)
    ensures DIRENT * n == size ==> EndBlock(0, size + DIRENT) == EndBlock(0, size)
  {
    var k := size / DIRENT;
    assert size == DIRENT * k;
    EntryBlock(n);
    EntryBlock(k);
  }

  /** A file that is mapped to its end has no hole. */
  lemma MappedNoHoles(f: Fs, i: nat)
    requires i < |f.inode| && f.inode[i].size <= MAXBYTES && EndBlock(0, f.inode[i].size) <= MAXFILE
    requires AllMapped(f, i, 0, EndBlock(0, f.inode[i].size))
    ensures NoHoles(f, i)
  {
    hide SlotAddr;
    forall bn: nat | bn < MAXFILE && bn * BSIZE < f.inode[i].size ensures BlockAddr(f, i, bn) != 0 {
      assert bn < EndBlock(0, f.inode[i].size);
    }
  }

  lemma GrewChain(a: Fs, b: Fs, c: Fs)
    requires Grew(a, b) && Grew(b, c)
    ensures Grew(a, c)
  {
    hide SlotAddr;
  }

  /** Slots that only fill up make no hole in a directory that does not grow. */
  lemma GrewNoDirHoles(l: Layout, f: Fs, f': Fs, i: nat)
    requires |f.inode| == l.ninodes && NoDirHoles(l, f) && Grew(f, f')
    requires forall j: nat :: j < l.ninodes && j != i ==> f'.inode[j] == f.inode[j]
    requires i < l.ninodes ==> NoHoles(f', i) || (f'.inode[i].kind == f.inode[i].kind && f'.inode[i].size == f.inode[i].size)
    ensures |f'.inode| == l.ninodes && NoDirHoles(l, f')
  {
    hide SlotAddr;
    forall j: nat | j < l.ninodes && f'.inode[j].kind == T_DIR ensures NoHoles(f', j) {
      if !(j == i && NoHoles(f', i)) {
        assert NoHoles(f, j);
        forall bn: nat | bn < MAXFILE && bn * BSIZE < f'.inode[j].size ensures BlockAddr(f', j, bn) != 0 {
          assert BlockAddr(f, j, bn) != 0;
        }
      }
    }
  }

  /** Where the on-disk inode of the directory stands after a link. */
  lemma LinkSynced(l: Layout, f: Fs, mid: Fs, f': Fs, i: nat, grew: bool, ready: bool)
    requires i < |f.inode| == |mid.inode| == |f'.inode| && l.Iblock(i) < |f.img| == |mid.img| == |f'.img|
    requires Synced(l, f, i) && mid.img[l.Iblock(i)] == f.img[l.Iblock(i)]
    requires OnlyAddrs(f, mid, i) && (mid.inode == f.inode <==> ready)
    requires grew ==> Synced(l, f', i)
    requires !grew ==> f'.img[l.Iblock(i)] == mid.img[l.Iblock(i)] && f'.inode[i] == mid.inode[i]
    ensures Synced(l, f', i) <==> grew || ready
  {
    hide DecodeInode;
    if mid.inode != f.inode {
      assert mid.inode[i] != f.inode[i];
    }
  }

  /** A link in a directory that is held, after a scan that may have filled holes. */
  lemma AfterLink(l: Layout, a: Snapshot, m: Snapshot, f': Fs, owner': Owner, c: seq<Slot>,
                  i: nat, n: nat, inum: nat, name: seq<byte>)
    requires NameInv(l, a.fs, a.owner, c) && HeldValid(c, i) && i < l.ninodes && a.fs.inode[i].kind == T_DIR
    requires Owns(l, m.fs, m.owner) && Owns(l, f', owner') && Mapping(l, a, m, i, 0, EndBlock(0, a.fs.inode[i].size))
    requires a.fs.inode[i].size <= MAXBYTES && n <= Count(Contents(a.fs, i)) && 0 < inum < 0x1_0000
    requires n < Count(Contents(a.fs, i)) ==> Inum(Contents(a.fs, i), n) == 0
    requires Lookup(Contents(a.fs, i), CStr(name, DIRSIZ)) == 0
    requires m.fs.inode[i].size <= MAXBYTES && WroteFile(m.fs, f', i, DIRENT * n, Dirent(inum, name))
    requires forall j :: 0 <= j < l.ninodes && j != i ==> f'.inode[j] == m.fs.inode[j]
    requires forall s :: 0 <= s < l.ninodes + 3 && s != l.Iblock(i) ==> f'.img[s] == m.fs.img[s]
    ensures Bound(a.fs, f', i, CStr(name, DIRSIZ), inum)
    ensures f'.inode[i].size ==
            if n < Count(Contents(a.fs, i)) then a.fs.inode[i].size else a.fs.inode[i].size + DIRENT
    ensures MayName(l, a.fs, c, inum) ==> NameInv(l, f', owner', c)
  {
    hide Owns, HeldValid, Inum, Lookup, CStr, Dirent, UniqueNames, Contents, NameAt, WroteFile, Paid, Grew, AllMapped, AllReady;
    hide EndBlock, FileByte, NameInv, Bound, DirOk, Overwritten;
    assert Tree(l, a.fs) by { InvTree(l, a.fs, a.owner, c); }
    MappingDone(l, a, m, i, 0, EndBlock(0, a.fs.inode[i].size));
    LinkBinds(l, a.fs, m.fs, f', i, n, inum, name);
    FilledInv(l, a.fs, a.owner, m.fs, m.owner, c, i);
    if MayName(l, a.fs, c, inum) {
      InvTree(l, m.fs, m.owner, c);
      SlotsSelf(m.fs);
      SameGrew(m.fs, i);
      ContentsSame(a.fs, m.fs, i);
      LinkBinds(l, m.fs, m.fs, f', i, n, inum, name);
      LinkedInv(l, m.fs, m.owner, f', owner', c, i, CStr(name, DIRSIZ), inum);
    }
  }

  /** The size of a directory with one more entry: an empty entry is used if there is one. */
  ghost function LinkedSize(c: seq<byte>): nat {
    if HasEmpty(c) then |c| else |c| + DIRENT
  }

  ghost predicate HasEmpty(c: seq<byte>) {
    exists k: nat :: k < Count(c) && Inum(c, k) == 0
  }

  lemma EmptyFound(c: seq<byte>, n: nat)
    requires n <= Count(c) && (n < Count(c) ==> Inum(c, n) == 0) && forall j: nat :: j < n ==> Inum(c, j) != 0
    ensures HasEmpty(c) <==> n < Count(c)
  {
    hide Inum;
  }

  /** What a successful dirlink has done to the file system: the binding, what it cost, and
      where the inode on disk stands. */
  ghost predicate Linked(l: Layout, f: Fs, owner: Owner, f': Fs, owner': Owner, i: nat, nm: seq<byte>, inum: nat) {
    && Shape(l, f) && Shape(l, f') && i < l.ninodes && Bound(f, f', i, nm, inum)
    && f'.inode[i].size == LinkedSize(Contents(f, i))
    && Paid(l, f, owner, f', owner', i, 0, EndBlock(0, f'.inode[i].size))
    && (forall j :: 0 <= j < l.ninodes && j != i ==> f'.inode[j] == f.inode[j])
    && (forall s :: 0 <= s < l.ninodes + 3 && s != l.Iblock(i) ==> f'.img[s] == f.img[s])
    && (Synced(l, f, i) ==>
          (Synced(l, f', i) <==>
           f'.inode[i].size > f.inode[i].size || AllReady(f, i, 0, EndBlock(0, f.inode[i].size))))
  }

  lemma LinkStart(l: Layout, a: Snapshot, c: seq<Slot>, k: nat)
    requires NameInv(l, a.fs, a.owner, c) && k < NINODE && c[k].ref > 0 && c[k].valid && c[k].inum < l.ninodes
    requires a.fs.inode[c[k].inum].kind == T_DIR
    ensures Owns(l, a.fs, a.owner) && Shape(l, a.fs) && HeldValid(c, c[k].inum) && Tree(l, a.fs) && UniqueSlots(c)
    ensures a.fs.inode[c[k].inum].size <= MAXBYTES && a.fs.inode[c[k].inum].size % DIRENT == 0
    ensures EndBlock(0, a.fs.inode[c[k].inum].size) <= MAXFILE
  {
    hide Contents, UniqueNames, EntriesBelow;
    assert DirOk(l, a.fs, c[k].inum);
  }

  lemma StuckFull(l: Layout, f: Fs, f': Fs, i: nat, name: seq<byte>)
    ensures Stuck(l, f, f', i, name) ==> l.DataStart() <= |f'.img| && Full(l, f'.img)
  {
  }

  lemma LinkFound(l: Layout, f: Fs, f': Fs, owner: Owner, c: seq<Slot>, c': seq<Slot>, i: nat, nm: seq<byte>, s: nat)
    requires NameInv(l, f', owner, c) && |f.inode| == l.ninodes && OnlyAddrs(f, f', i) && i < l.ninodes && s < |c| == |c'|
    requires SameBytes(f, f') && 0 < Step(f, i, nm) < l.ninodes && c'[s].inum == Step(f, i, nm)
    requires c[s].ref > 0 ==> KeepsSlot(c[s], c'[s])
    requires c'[s].valid ==> c[s].ref > 0 && c[s].valid && c[s].inum == c'[s].inum
    requires forall j :: 0 <= j < |c| && j != s ==> c'[j] == c[j]
    ensures var e := c'[s].inum; f'.inode[e].nlink > 0 || Refs(c, e) > 0 || !c'[s].valid
    ensures ValidUsed(f', c')
  {
    hide Refs, Contents, Lookup, Owns, FileByte, HeldValid, Tree;
    assert |f'.inode| == l.ninodes && AllAnchored(l, f', c) && ValidUsed(f', c);
    OneChanged(f', c, c', s);
    if f.inode[i].size <= MAXBYTES {
      ContentsSame(f, f', i);
    }
    StepHeld(l, f', c, i, nm);
  }

  lemma AllScanned(l: Layout, a: Snapshot, m: Snapshot, i: nat, e: nat)
    requires Mapping(l, a, m, i, 0, e)
    ensures e <= MAXFILE && i < |m.fs.inode| && AllMapped(m.fs, i, 0, e)
    ensures i < |a.fs.inode| && (m.fs.inode == a.fs.inode <==> AllReady(a.fs, i, 0, e))
  {
    hide Grew, OnlyAddrs, SameBytes, AllReady, AllMapped;
  }

  lemma ContentsSize(f: Fs, i: nat, n: nat)
    requires i < |f.inode| && f.inode[i].size <= MAXBYTES && f.inode[i].size % DIRENT == 0
    requires n <= Count(Contents(f, i))
    ensures DIRENT * n <= DIRENT * Count(Contents(f, i)) == f.inode[i].size
    ensures n < Count(Contents(f, i)) <==> DIRENT * n < f.inode[i].size
  {
  }

  lemma LinkDone(l: Layout, a: Snapshot, m: Snapshot, f': Fs, owner': Owner, i: nat, n: nat, inum: nat, nm: seq<byte>)
    requires Shape(l, a.fs) && Shape(l, m.fs) && Shape(l, f') && i < l.ninodes && Bound(a.fs, f', i, nm, inum)
    requires a.fs.inode[i].size <= MAXBYTES && a.fs.inode[i].size % DIRENT == 0
    requires Mapping(l, a, m, i, 0, EndBlock(0, a.fs.inode[i].size))
    requires DIRENT * n <= a.fs.inode[i].size
    requires HasEmpty(Contents(a.fs, i)) <==> DIRENT * n < a.fs.inode[i].size
    requires f'.inode[i].size == if DIRENT * n < a.fs.inode[i].size then a.fs.inode[i].size else a.fs.inode[i].size + DIRENT
    requires Paid(l, m.fs, m.owner, f', owner', i, DIRENT * n / BSIZE, EndBlock(DIRENT * n, DIRENT))
    requires forall j :: 0 <= j < l.ninodes && j != i ==> f'.inode[j] == m.fs.inode[j]
    requires forall s :: 0 <= s < l.ninodes + 3 && s != l.Iblock(i) ==> f'.img[s] == m.fs.img[s]
    requires DIRENT * n + DIRENT > m.fs.inode[i].size ==> Synced(l, f', i)
    requires DIRENT * n + DIRENT <= m.fs.inode[i].size ==>
               && f'.img[l.Iblock(i)] == m.fs.img[l.Iblock(i)]
               && (f'.inode == m.fs.inode <==> AllReady(m.fs, i, DIRENT * n / BSIZE, EndBlock(DIRENT * n, DIRENT)))
    ensures Linked(l, a.fs, a.owner, f', owner', i, nm, inum)
  {
    hide Paid, EndBlock, Grew, SameBytes, AllReady, AllMapped, Synced, Bound, Mapping, HasEmpty;
    var size := a.fs.inode[i].size;
    AllScanned(l, a, m, i, EndBlock(0, size));
    MappingDone(l, a, m, i, 0, EndBlock(0, size));
    LinkPaid(l, a, m, f', owner', i, n, size);
    if DIRENT * n < size {
      MultipleBelow(n, size);
      LinkInside(n, size);
      EntryBlock(n);
      MappedPart(m.fs, i, EndBlock(0, size), DIRENT * n / BSIZE);
    }
    if Synced(l, a.fs, i) {
      LinkSynced(l, a.fs, m.fs, f', i, DIRENT * n == size, AllReady(a.fs, i, 0, EndBlock(0, size)));
    }
  }

  lemma MultipleBelow(n: nat, size: nat)
    requires size % DIRENT == 0 && DIRENT * n < size
    ensures DIRENT * n + DIRENT <= size
  {
  }

  lemma MappedPart(f: Fs, i: nat, e: nat, bn: nat)
    requires i < |f.inode| && bn < e <= MAXFILE && AllMapped(f, i, 0, e)
    ensures AllReady(f, i, bn, bn + 1)
  {
    hide SlotAddr;
    assert AllMapped(f, i, bn, bn + 1);
    MappedReady(f, i, bn, bn + 1);
  }

  lemma InvTree(l: Layout, f: Fs, owner: Owner, c: seq<Slot>)
    requires NameInv(l, f, owner, c)
    ensures Tree(l, f) && AllAnchored(l, f, c) && ValidUsed(f, c) && UniqueSlots(c) && Owns(l, f, owner) && Coherent(l, f, c)
  {
  }

  class Names {
    const fs: FileSystem
    const cache: array<Slot>

    constructor (fs: FileSystem)
      ensures this.fs == fs && fresh(cache) && cache.Length == NINODE && UniqueSlots(cache[..])
      ensures forall k :: 0 <= k < NINODE ==> cache[k] == Slot(0, 0, false)
      ensures forall i: nat :: Refs(cache[..], i) == 0
    {
      this.fs := fs;
      cache := new Slot[NINODE](_ => Slot(0, 0, false));
      new;
      forall i: nat ensures Refs(cache[..], i) == 0 {
        NoRefs(cache[..], i);
      }
    }

    ghost predicate Valid()
      reads this, cache
    {
      cache.Length == NINODE && UniqueSlots(cache[..])
    }

    ghost predicate Inv()
      reads this, cache, fs
    {
      cache.Length == NINODE && NameInv(fs.l, fs.State(), fs.owner, cache[..])
    }

    /** iget: the entry of the inode, found or taken from a free slot, with one more
        reference. None is the panic "iget: no inodes". */
    method Iget(inum: nat) returns (r: Option<nat>)
      requires Valid()
      modifies cache
      ensures Valid() && Keeps(old(cache[..]), cache[..])
      ensures r.Some? ==> r.value < NINODE && cache[r.value].inum == inum && cache[r.value].ref == old(cache[r.value]).ref + 1
      ensures r.Some? && old(cache[r.value]).ref > 0 ==> old(cache[r.value]).inum == inum
      ensures r.Some? ==> cache[r.value].valid == (old(cache[r.value]).ref > 0 && old(cache[r.value]).valid)
      ensures r.Some? ==> RefsPlus(old(cache[..]), cache[..], inum, 1)
      ensures r.Some? ==> forall j :: 0 <= j < NINODE && j != r.value ==> cache[j] == old(cache[j])
      ensures r.None? ==>
        cache[..] == old(cache[..]) && forall k :: 0 <= k < NINODE ==> cache[k].ref > 0 && cache[k].inum != inum
    {
      var empty: Option<nat> := None;
      var k := 0;
      while k < NINODE
        invariant 0 <= k <= NINODE && cache[..] == old(cache[..])
        invariant forall j :: 0 <= j < k ==> !(cache[j].ref > 0 && cache[j].inum == inum)
        invariant empty.Some? ==> empty.value < k && cache[empty.value].ref == 0
        invariant empty.None? ==> forall j :: 0 <= j < k ==> cache[j].ref > 0
      {
        if cache[k].ref > 0 && cache[k].inum == inum {
          BumpRef(k, 1);
          return Some(k);
        }
        if empty.None? && cache[k].ref == 0 {
          empty := Some(k);
        }
        k := k + 1;
      }
      if empty.None? {
        return None;
      }
      ghost var before := cache[..];
      cache[empty.value] := Slot(inum, 1, false);
      forall j: nat ensures Refs(cache[..], j) == Refs(before, j) + if j == inum then 1 else 0 {
        RefsUpdate(before, empty.value, Slot(inum, 1, false), j);
        assert cache[..] == before[empty.value := Slot(inum, 1, false)];
      }
      return empty;
    }

    /** The reference count of entry k goes up or down by one. */
    method BumpRef(k: nat, d: int)
      requires Valid() && k < NINODE && cache[k].ref > 0 && (d == 1 || d == -1)
      modifies cache
      ensures Valid() && cache[..] == old(cache[..])[k := old(cache[k]).(ref := old(cache[k]).ref + d)]
      ensures RefsPlus(old(cache[..]), cache[..], cache[k].inum, d)
    {
      ghost var before, x := cache[..], cache[k].(ref := cache[k].ref + d);
      cache[k] := cache[k].(ref := cache[k].ref + d);
      assert cache[..] == before[k := x];
      forall j: nat ensures Refs(cache[..], j) == Refs(before, j) + if j == before[k].inum then d else 0 {
        RefsUpdate(before, k, x, j);
      }
    }

    /** iput: one reference less; the last reference to an unlinked inode frees it. The
        invariant is kept exactly if the inode is freed, still held, or up to date on disk. */
    method Iput(k: nat)
      requires Valid() && k < NINODE && cache[k].ref > 0
      requires Owns(fs.l, fs.State(), fs.owner) && cache[k].inum < fs.l.ninodes
      modifies cache, fs
      ensures Valid() && RefsPlus(old(cache[..]), cache[..], old(cache[k]).inum, -1)
      ensures forall j :: 0 <= j < NINODE && j != k ==> cache[j] == old(cache[j])
      ensures cache[k].inum == old(cache[k]).inum && cache[k].ref == old(cache[k]).ref - 1
      ensures Owns(fs.l, fs.State(), fs.owner) && Logs(old(fs.Tape()), fs.Tape())
      ensures var i := old(cache[k]).inum;
        if old(cache[k]).ref == 1 && old(cache[k]).valid && old(fs.inode[i]).nlink == 0
        then
          && Truncated(fs.l, old(fs.State()), old(fs.owner), fs.State(), fs.owner, i) && fs.inode[i].kind == 0
          && (old(Inv()) ==> Inv())
          && |fs.inode| == fs.l.ninodes
          && (NoDirHoles(fs.l, old(fs.State())) ==> NoDirHoles(fs.l, fs.State()))
        else
          && fs.Now() == old(fs.Now()) && cache[k].valid == old(cache[k]).valid
          && (old(Inv()) ==> (Inv() <==> old(cache[k]).ref > 1 || Synced(fs.l, fs.State(), i)))
    {
      hide Owns, Truncated, Synced, Logs, NameInv, Refs, NoDirHoles;
      ghost var i, c := cache[k].inum, cache[..];
      LogsSelf(fs.Tape());
      OwnsShape(fs.l, fs.State(), fs.owner);
      if cache[k].ref == 1 && cache[k].valid && fs.inode[cache[k].inum].nlink == 0 {
        fs.FreeInode(cache[k].inum);
        TruncatedOwns(fs.l, old(fs.State()), old(fs.owner), fs.State(), fs.owner, i);
        cache[k] := cache[k].(valid := false);
        ghost var c1 := cache[..];
        assert c1 == c[k := c[k].(valid := false)];
        forall j: nat ensures Refs(c1, j) == Refs(c, j) {
          RefsUpdate(c, k, c[k].(valid := false), j);
        }
        BumpRef(k, -1);
        assert cache[..] == c[k := Slot(i, 0, false)];
        if NoDirHoles(fs.l, old(fs.State())) {
          FreedNoDirHoles(fs.l, old(fs.State()), old(fs.owner), fs.State(), fs.owner, i);
        }
        OwnsShape(fs.l, fs.State(), fs.owner);
        if old(Inv()) {
          FreedInv(fs.l, old(fs.State()), old(fs.owner), c, fs.State(), fs.owner, cache[..], k);
        }
        return;
      }
      BumpRef(k, -1);
      if old(Inv()) {
        DroppedInv(fs.l, fs.State(), fs.owner, c, cache[..], k);
      }
    }

    /** One dirent read through readi; Absent is a short read, Panic "out of blocks". */
    method ReadDirent(i: nat, off: nat) returns (r: Res<seq<byte>>)
      requires Owns(fs.l, fs.State(), fs.owner) && i < |fs.inode| == fs.l.ninodes && fs.inode[i].kind == T_DIR
      requires fs.inode[i].size <= MAXBYTES && off < fs.inode[i].size && off % DIRENT == 0
      modifies fs
      ensures Owns(fs.l, fs.State(), fs.owner) && Logs(old(fs.Tape()), fs.Tape())
      ensures r.Ok? ==>
        && off + DIRENT <= old(fs.inode[i]).size && r.value == Contents(old(fs.State()), i)[off..off + DIRENT]
        && Mapping(fs.l, old(fs.Now()), fs.Now(), i, off / BSIZE, off / BSIZE + 1)
      ensures r.Absent? ==> off + DIRENT > old(fs.inode[i]).size
      ensures r.Panic? ==>
        && fs.l.DataStart() <= |fs.img| && Full(fs.l, fs.img)
        && off / BSIZE < MAXFILE && BlockAddr(old(fs.State()), i, off / BSIZE) == 0
    {
      hide Owns, FileByte, Contents, Mapping, Logs, Full, SameBytes, SlotAddr, ReadEnd, AllFree, Missing;
      DirentBlock(fs.State(), i, off);
      var de := fs.Readi(i, off, DIRENT);
      OwnsShape(fs.l, fs.State(), fs.owner);
      if !de.Done? {
        return Panic;
      }
      return if |de.value| == DIRENT then Ok(de.value) else Absent;
    }

    /** dirlookup's scan: the i-number of the first matching entry, zero if none. Panic is a
        size that is no multiple of the entry size, or no free block for a hole. */
    method Scan(i: nat, name: seq<byte>) returns (r: Res<nat>)
      requires Owns(fs.l, fs.State(), fs.owner) && i < |fs.inode| == fs.l.ninodes && fs.inode[i].kind == T_DIR
      requires fs.inode[i].size <= MAXBYTES
      modifies fs
      ensures Owns(fs.l, fs.State(), fs.owner) && Logs(old(fs.Tape()), fs.Tape()) && !r.Absent?
      ensures r.Ok? ==> var c := Contents(old(fs.State()), i); var nm := CStr(name, DIRSIZ);
        && r.value == Lookup(c, nm) && Mapping(fs.l, old(fs.Now()), fs.Now(), i, 0, ScanEnd(c, nm))
        && (r.value == 0 ==> old(fs.inode[i]).size % DIRENT == 0)
      ensures r.Panic? ==>
        || Stuck(fs.l, old(fs.State()), fs.State(), i, name)
        || old(fs.inode[i]).size % DIRENT != 0
    {
      hide Owns, FileByte, CStr, Inum, Contents, NameAt, Mapping, Logs, Full, EndBlock, SameBytes, ScanEnd;
      hide AllMapped, BlockAddr;
      ghost var a, c, nm, n := fs.Now(), Contents(fs.State(), i), CStr(name, DIRSIZ), 0;
      MappingNone(fs.l, a, i, 0);
      LogsSelf(a.tape);
      NoBlocks();
      var off := 0;
      while off < fs.inode[i].size
        invariant off == DIRENT * n && 0 <= n <= Count(c) && |c| == a.fs.inode[i].size
        invariant Owns(fs.l, fs.State(), fs.owner) && Logs(a.tape, fs.Tape())
        invariant Mapping(fs.l, a, fs.Now(), i, 0, EndBlock(0, DIRENT * n))
        invariant |fs.inode| == fs.l.ninodes && fs.inode[i].size == a.fs.inode[i].size && fs.inode[i].kind == T_DIR
        invariant Contents(fs.State(), i) == c
        invariant Lookup(c, nm) == Lookup(c, nm, n) && FirstAt(c, nm) == FirstAt(c, nm, n)
        decreases |c| - off
      {
        ghost var m := fs.Now();
        var de := ReadDirent(i, off);
        LogsChain(a.tape, m.tape, fs.Tape());
        if !de.Ok? {
          if n < Count(c) {
            ScanEndBound(a.fs, i, nm);
            StuckScan(fs.l, a, m, i, c, nm, n);
          }
          return Panic;
        }
        EntryIs(c, n);
        EndBlocks(0, 0, off + DIRENT);
        ScanMore(fs.l, a, m, fs.Now(), i, n);
        MappingDone(fs.l, a, fs.Now(), i, 0, EndBlock(0, DIRENT * (n + 1)));
        ContentsSame(a.fs, fs.State(), i);
        OwnsShape(fs.l, fs.State(), fs.owner);
        var inum := Inum(de.value, 0);
        var same := SameName(name, de.value[2..DIRENT]);
        if inum != 0 && same {
          ScanEndIs(c, nm, n);
          return Ok(inum);
        }
        off := off + DIRENT;
        n := n + 1;
      }
      ScanEndIs(c, nm, n);
      return Ok(0);
    }

    /** dirlookup on a locked directory: the entry of the inode the name is bound to,
        with one more reference. It only reads exactly if the blocks up to the entry (all
        blocks, if there is none) are mapped. */
    method Dirlookup(k: nat, name: seq<byte>) returns (r: Res<nat>)
      requires Valid() && k < NINODE && Owns(fs.l, fs.State(), fs.owner)
      requires cache[k].inum < |fs.inode| == fs.l.ninodes && fs.inode[cache[k].inum].kind == T_DIR
      requires fs.inode[cache[k].inum].size <= MAXBYTES
      modifies cache, fs
      ensures Valid() && Keeps(old(cache[..]), cache[..])
      ensures Owns(fs.l, fs.State(), fs.owner) && Logs(old(fs.Tape()), fs.Tape())
      ensures !r.Panic? || NotStuck(fs.l, old(fs.State()), fs.State(), old(cache[k]).inum, name) ==>
        var i := old(cache[k]).inum; var e := ScanEnd(Contents(old(fs.State()), i), CStr(name, DIRSIZ));
        && Mapping(fs.l, old(fs.Now()), fs.Now(), i, 0, e)
        && e <= MAXFILE && (fs.Now() == old(fs.Now()) <==> AllMapped(old(fs.State()), i, 0, e))
      ensures r.Absent? ==>
        && cache[..] == old(cache[..]) && Step(old(fs.State()), old(cache[k]).inum, CStr(name, DIRSIZ)) == 0
        && old(fs.inode[cache[k].inum]).size % DIRENT == 0
      ensures r.Ok? ==>
        && r.value < NINODE && cache[r.value].ref == old(cache[r.value]).ref + 1
        && cache[r.value].inum == Step(old(fs.State()), old(cache[k]).inum, CStr(name, DIRSIZ)) != 0
        && (old(cache[r.value]).ref > 0 ==> old(cache[r.value]).inum == cache[r.value].inum)
        && cache[r.value].valid == (old(cache[r.value]).ref > 0 && old(cache[r.value]).valid)
        && RefsPlus(old(cache[..]), cache[..], cache[r.value].inum, 1)
        && (forall j :: 0 <= j < NINODE && j != r.value ==> cache[j] == old(cache[j]))
      ensures r.Panic? ==>
        || (forall j :: 0 <= j < NINODE ==> cache[j].ref > 0)
        || Stuck(fs.l, old(fs.State()), fs.State(), old(cache[k]).inum, name)
        || old(fs.inode[cache[k].inum]).size % DIRENT != 0
    {
      hide Stuck, Owns, FileByte, Refs, Lookup, Contents, Mapping, Logs, Full, UniqueSlots, CStr;
      hide ScanEnd, AllMapped, Grew, SameBytes;
      StepIsLookup(fs.State(), cache[k].inum, CStr(name, DIRSIZ));
      var inum := Scan(cache[k].inum, name);
      if inum.Panic? {
        return Panic;
      }
      MappingDone(fs.l, old(fs.Now()), fs.Now(), cache[k].inum, 0,
        ScanEnd(Contents(old(fs.State()), cache[k].inum), CStr(name, DIRSIZ)));
      if inum.value == 0 {
        return Absent;
      }
      var s := Iget(inum.value);
      return if s.Some? then Ok(s.value) else Panic;
    }

    /** ilock: the inode is read from its sector unless the entry is valid. Since an inode
        that differs from its sector is held, the read brings back what everybody means.
        False is the panic "ilock: no type". */
    method Ilock(k: nat) returns (ok: bool)
      requires Valid() && k < NINODE && cache[k].ref > 0 && cache[k].inum < fs.l.ninodes
      requires Owns(fs.l, fs.State(), fs.owner) && Coherent(fs.l, fs.State(), cache[..])
      modifies cache, fs
      ensures Valid() && fs.Now() == old(fs.Now()) && |fs.inode| == fs.l.ninodes
      ensures cache[..] == old(cache[..])[k := old(cache[k]).(valid := true)]
      ensures ok <==> old(cache[k]).valid || fs.inode[cache[k].inum].kind != 0
      ensures ok ==> fs.inode[cache[k].inum].kind != 0 && Coherent(fs.l, fs.State(), cache[..])
      ensures forall j: nat :: Refs(cache[..], j) == Refs(old(cache[..]), j)
      ensures Keeps(old(cache[..]), cache[..])
    {
      hide Owns, DecodeInode, Refs;
      ghost var before, f := cache[..], fs.State();
      var i := cache[k].inum;
      if !cache[k].valid {
        NotHeldValid(before, k);
        assert Synced(fs.l, f, i);
        fs.inode := fs.inode[i := DecodeInode(fs.img[fs.l.Iblock(i)])];
        assert fs.inode == f.inode;
        cache[k] := cache[k].(valid := true);
        ok := fs.inode[i].kind != 0;
      } else {
        ok := true;
      }
      assert cache[..] == before[k := before[k].(valid := true)];
      forall j: nat ensures Refs(cache[..], j) == Refs(before, j) {
        RefsUpdate(before, k, before[k].(valid := true), j);
      }
      forall j: nat | HeldValid(before, j) ensures HeldValid(cache[..], j) {
        KeepsHeld(before, cache[..], j);
      }
    }

    /** iunlockput during a walk never frees: what the walk has reached is linked, was held
        before the walk, or is free already. */
    method PutReached(k: nat, ghost c0: seq<Slot>)
      requires Valid() && k < NINODE && cache[k].ref > 0
      requires Owns(fs.l, fs.State(), fs.owner) && cache[k].inum < |fs.inode| == fs.l.ninodes
      requires fs.inode[cache[k].inum].nlink > 0 || Refs(c0, cache[k].inum) > 0 || !cache[k].valid
      requires Refs(cache[..], cache[k].inum) > Refs(c0, cache[k].inum) && Keeps(c0, cache[..])
      modifies cache, fs
      ensures Valid() && RefsPlus(old(cache[..]), cache[..], old(cache[k]).inum, -1)
      ensures forall j :: 0 <= j < NINODE && j != k ==> cache[j] == old(cache[j])
      ensures cache[k] == old(cache[k]).(ref := old(cache[k]).ref - 1)
      ensures Keeps(c0, cache[..]) && Owns(fs.l, fs.State(), fs.owner) && fs.Now() == old(fs.Now())
      ensures ValidUsed(fs.State(), old(cache[..])) ==> ValidUsed(fs.State(), cache[..])
    {
      hide Owns, Truncated, Refs, NameInv, Logs, Synced, UniqueSlots;
      RefsOfSlot(cache[..], k);
      if c0[k].ref > 0 {
        RefsAtLeast(c0, k);
        assert KeepsSlot(c0[k], cache[k]);
      }
      Iput(k);
    }

    /** The end of a walk that leads nowhere: the entry it holds is put back. */
    method GiveUp(k: nat, ghost c0: seq<Slot>)
      requires Valid() && NameInv(fs.l, fs.State(), fs.owner, c0)
      requires k < NINODE && cache[k].inum < |fs.inode| == fs.l.ninodes && At(fs.l, fs.State(), c0, cache[..], k)
      requires Safe(fs.State(), c0, cache[k].inum)
      modifies cache, fs
      ensures fs.Now() == old(fs.Now()) && Inv() && Keeps(c0, cache[..]) && RefsPlus(c0, cache[..], 0, 0)
    {
      hide Owns, Refs, NameInv, Keeps, ValidUsed, UniqueSlots;
      InvTree(fs.l, fs.State(), fs.owner, c0);
      PutReached(k, c0);
      AtEnd(fs.l, fs.State(), fs.owner, c0, cache[..]);
    }

    /** namex starts at the root or at the current directory. */
    method StartWalk(fromRoot: bool, cwd: nat) returns (r: Option<nat>)
      requires Inv() && cwd < NINODE && cache[cwd].ref > 0 && cache[cwd].inum < fs.l.ninodes
      modifies cache
      ensures Valid() && |fs.inode| == fs.l.ninodes
      ensures r.Some? ==>
        && r.value < NINODE && At(fs.l, fs.State(), old(cache[..]), cache[..], r.value)
        && cache[r.value].inum == (if fromRoot then ROOTINO else old(cache[cwd]).inum) < fs.l.ninodes
        && Safe(fs.State(), old(cache[..]), cache[r.value].inum)
      ensures r.None? ==> forall j :: 0 <= j < NINODE ==> cache[j].ref > 0
    {
      hide Owns, Refs, Tree, UniqueSlots, NameInv, ValidUsed, RefsPlus, Coherent, AllAnchored;
      ghost var c0 := cache[..];
      InvTree(fs.l, fs.State(), fs.owner, c0);
      RootIs(fs.l, fs.State());
      r := Some(cwd);
      if fromRoot {
        r := Iget(ROOTINO);
        if r.None? {
          return;
        }
      } else {
        BumpRef(cwd, 1);
      }
      AtStart(fs.l, fs.State(), c0, cache[..], r.value, cwd);
    }

    /** namex locks the entry it has reached. */
    method LockReached(k: nat, ghost c0: seq<Slot>) returns (ok: bool)
      requires Valid() && NameInv(fs.l, fs.State(), fs.owner, c0)
      requires k < NINODE && At(fs.l, fs.State(), c0, cache[..], k)
      modifies cache, fs
      ensures Valid() && fs.Now() == old(fs.Now()) && cache[k].inum == old(cache[k]).inum < |fs.inode| == fs.l.ninodes
      ensures ok ==> At(fs.l, fs.State(), c0, cache[..], k)
      ensures ok <==> fs.inode[cache[k].inum].kind != 0
    {
      hide Owns, Refs, NameInv, Keeps, ValidUsed, UniqueSlots, Coherent;
      ghost var c1 := cache[..];
      InvTree(fs.l, fs.State(), fs.owner, c0);
      AtInv(fs.l, fs.State(), fs.owner, c0, c1, k);
      ok := Ilock(k);
      if ok {
        AtLocked(fs.l, fs.State(), fs.owner, c0, c1, cache[..], k);
      } else {
        assert !c1[k].valid;
      }
    }

    /** One step of namex: look the name up and give the directory back. */
    method Descend(k: nat, name: seq<byte>, ghost c0: seq<Slot>) returns (r: Res<nat>)
      requires Valid() && Owns(fs.l, fs.State(), fs.owner) && Tree(fs.l, fs.State())
      requires k < NINODE && cache[k].inum < |fs.inode| == fs.l.ninodes && At(fs.l, fs.State(), c0, cache[..], k)
      requires fs.inode[cache[k].inum].kind == T_DIR && fs.inode[cache[k].inum].size <= MAXBYTES
      requires Readable(fs.State(), cache[k].inum, name) && CStr(name, DIRSIZ) == name
      requires Safe(fs.State(), c0, cache[k].inum)
      modifies cache, fs
      ensures Valid() && fs.Now() == old(fs.Now())
      ensures r.Absent? ==>
        && Step(fs.State(), old(cache[k]).inum, name) == 0 && RefsPlus(c0, cache[..], 0, 0)
        && Keeps(c0, cache[..]) && ValidUsed(fs.State(), cache[..])
      ensures r.Ok? ==>
        && r.value < NINODE && At(fs.l, fs.State(), c0, cache[..], r.value)
        && cache[r.value].inum == Step(fs.State(), old(cache[k]).inum, name) != 0 && cache[r.value].inum < fs.l.ninodes
      ensures r.Panic? ==> forall j :: 0 <= j < NINODE ==> cache[j].ref > 0
    {
      hide Owns, Refs, Tree, Step, Mapping, AllMapped, NoHoles, Logs, Full, Contents, ScanEnd, CStr, UniqueSlots;
      ghost var i := cache[k].inum;
      DirWhole(fs.l, fs.State(), i);
      StepBelow(fs.l, fs.State(), i, name);
      r := Dirlookup(k, name);
      assert NotStuck(fs.l, old(fs.State()), fs.State(), i, name);
      if r.Panic? {
        return;
      }
      KeepsChain(c0, old(cache[..]), cache[..]);
      if r.Ok? {
        OneChanged(fs.State(), old(cache[..]), cache[..], r.value);
      }
      PutReached(k, c0);
    }

    /** namex: the inode a path leads to, or with `parent` the directory holding its
        last component, whose name is returned. The result is the fold of the name
        maps over the path's components; reference counts are left as they were, plus
        one for the inode returned. It panics only if the inode table is full or the path
        leads through an inode that has been freed. */
    method Namex(path: seq<byte>, parent: bool, cwd: nat) returns (r: Res<nat>, name: seq<byte>)
      requires Inv() && 0 !in path && cwd < NINODE && cache[cwd].ref > 0 && cache[cwd].inum < fs.l.ninodes
      requires Solid(fs.State(), if path != [] && path[0] == SLASH then ROOTINO else cache[cwd].inum, Components(path), parent)
      modifies cache, fs
      ensures fs.Now() == old(fs.Now()) && (!r.Panic? ==> Inv() && Keeps(old(cache[..]), cache[..]))
      ensures var start := if path != [] && path[0] == SLASH then ROOTINO else old(cache[cwd]).inum;
        var target := Target(fs.State(), start, Components(path), parent);
        match r
        case Ok(k) =>
          && k < NINODE && target == Some(cache[k].inum) && RefsPlus(old(cache[..]), cache[..], cache[k].inum, 1)
          && (parent ==> name == Components(path)[|Components(path)| - 1])
        case Absent => target == None && RefsPlus(old(cache[..]), cache[..], 0, 0)
        case Panic =>
          || (forall j :: 0 <= j < NINODE ==> cache[j].ref > 0)
          || MeetsFreed(fs.State(), start, Components(path))
    {
      hide Owns, Refs, Tree, Step, Components, AllAnchored, NoHoles, Target, UniqueSlots, MeetsFreed, NameInv;
      hide ValidUsed, Keeps, At, OnWay, Coherent, RefsPlus, Solid, Readable;
      ghost var f, c0 := fs.State(), cache[..];
      InvTree(fs.l, f, fs.owner, c0);
      OwnsShape(fs.l, f, fs.owner);
      ghost var start := if path != [] && path[0] == SLASH then ROOTINO else cache[cwd].inum;
      var from := StartWalk(path != [] && path[0] == SLASH, cwd);
      if from.None? {
        return Panic, [];
      }
      var k: nat, p := from.value, path;
      OnWayStart(f, start, path, parent);
      name := [];
      while true
        invariant Valid() && fs.Now() == old(fs.Now()) && 0 !in p
        invariant k < NINODE && cache[k].inum < fs.l.ninodes && At(fs.l, f, c0, cache[..], k)
        invariant OnWay(f, start, path, cache[k].inum, p, parent)
        invariant f.inode[cache[k].inum].kind == 0 || Safe(f, c0, cache[k].inum)
        invariant p == path ==> Safe(f, c0, cache[k].inum)
        decreases |p|
      {
        var found, elem, rest := Skipelem(p);
        if !found {
          break;
        }
        name := elem;
        var ok := LockReached(k, c0);
        if !ok {
          OnWayFreed(f, start, path, cache[k].inum, p, parent);
          return Panic, name;
        }
        if fs.inode[cache[k].inum].kind != T_DIR {
          OnWayNoDir(f, start, path, cache[k].inum, p, parent);
          GiveUp(k, c0);
          return Absent, name;
        }
        if parent && rest == [] {
          OnWayHere(f, start, path, cache[k].inum, p, elem);
          AtInv(fs.l, f, fs.owner, c0, cache[..], k);
          return Ok(k), name;
        }
        NoNul(elem, p);
        OnWayReads(f, start, path, cache[k].inum, p, elem, rest, parent);
        ghost var cur := cache[k].inum;
        var next := Descend(k, elem, c0);
        if !next.Ok? {
          if next.Absent? {
            OnWayLost(f, start, path, cur, p, elem, rest, parent);
            AtEnd(fs.l, f, fs.owner, c0, cache[..]);
          }
          return next, name;
        }
        OnWayStep(f, start, path, cur, p, elem, rest, parent);
        StepHeld(fs.l, f, c0, cur, elem);
        k := next.value;
        p := rest;
      }
      OnWayEnd(f, start, path, cache[k].inum, p, parent);
      if parent {
        GiveUp(k, c0);
        return Absent, name;
      }
      AtInv(fs.l, f, fs.owner, c0, cache[..], k);
      return Ok(k), name;
    }

    /** dirlink's second scan, after a lookup has read the whole directory: the first empty
        entry, or the end. */
    method EmptyEntry(i: nat) returns (n: nat)
      requires Owns(fs.l, fs.State(), fs.owner) && i < |fs.inode| == fs.l.ninodes && fs.inode[i].kind == T_DIR
      requires fs.inode[i].size <= MAXBYTES && fs.inode[i].size % DIRENT == 0
      requires EndBlock(0, fs.inode[i].size) <= MAXFILE && AllMapped(fs.State(), i, 0, EndBlock(0, fs.inode[i].size))
      modifies fs
      ensures fs.Now() == old(fs.Now())
      ensures n <= Count(Contents(fs.State(), i))
      ensures n < Count(Contents(fs.State(), i)) ==> Inum(Contents(fs.State(), i), n) == 0
      ensures forall j: nat :: j < n ==> Inum(Contents(fs.State(), i), j) != 0
    {
      hide Owns, FileByte, CStr, Inum, Contents, NameAt, Logs, Full, EndBlock, Mapping, BlockAddr;
      ghost var a := fs.Now();
      ghost var c := Contents(a.fs, i);
      n := 0;
      while DIRENT * n < fs.inode[i].size
        invariant 0 <= n <= Count(c) && DIRENT * Count(c) == |c|
        invariant fs.Now() == a
        invariant forall j: nat :: j < n ==> Inum(c, j) != 0
        decreases |c| - DIRENT * n
      {
        LinkInside(n, fs.inode[i].size);
        MappedAt(a.fs, i, 0, EndBlock(0, fs.inode[i].size), DIRENT * n / BSIZE);
        var de := ReadDirent(i, DIRENT * n);
        MappingDone(fs.l, a, fs.Now(), i, DIRENT * n / BSIZE, DIRENT * n / BSIZE + 1);
        EntryIs(c, n);
        if Inum(de.value, 0) == 0 {
          return;
        }
        n := n + 1;
      }
    }

    /** dirlink on a locked directory: false if the name is bound already; otherwise exactly
        one binding is added. Reference counts do not change, no file's contents other than
        the directory's do, and the invariant is kept if inum is an inode that is anchored. */
    method Dirlink(k: nat, name: seq<byte>, inum: nat) returns (r: Res<bool>)
      requires Inv() && k < NINODE && cache[k].ref > 0 && cache[k].valid
      requires cache[k].inum < fs.l.ninodes && fs.inode[cache[k].inum].kind == T_DIR && 0 < inum < 0x1_0000
      modifies cache, fs
      ensures Valid() && !r.Absent? && Owns(fs.l, fs.State(), fs.owner) && Logs(old(fs.Tape()), fs.Tape())
      ensures r.Ok? ==> RefsPlus(old(cache[..]), cache[..], 0, 0)
      ensures r.Ok? ==> (r.value <==> Lookup(Contents(old(fs.State()), old(cache[k]).inum), CStr(name, DIRSIZ)) == 0)
      ensures r == Ok(false) ==> SameBytes(old(fs.State()), fs.State()) && Inv()
      ensures r.Ok? ==> Grew(old(fs.State()), fs.State()) && |fs.inode| == fs.l.ninodes
      ensures r == Ok(true) ==> NoHoles(fs.State(), old(cache[k]).inum)
      ensures r.Ok? && NoDirHoles(fs.l, old(fs.State())) ==> NoDirHoles(fs.l, fs.State())
      ensures r == Ok(true) ==>
        && Linked(fs.l, old(fs.State()), old(fs.owner), fs.State(), fs.owner, old(cache[k]).inum, CStr(name, DIRSIZ), inum)
        && (MayName(fs.l, old(fs.State()), old(cache[..]), inum) ==> Inv())
      ensures r.Panic? ==>
        || (forall j :: 0 <= j < NINODE ==> cache[j].ref > 0)
        || (fs.l.DataStart() <= |fs.img| && Full(fs.l, fs.img))
        || DIRENT * Count(Contents(old(fs.State()), old(cache[k]).inum)) + DIRENT > MAXBYTES
    {
      hide Owns, Refs, Step, Contents, CStr, Overwritten, Inum, NameAt, Lookup, Tree, AllAnchored, Coherent, UniqueNames, Logs;
      hide Synced, AllReady, AllMapped, TouchedBlocks, Mapping, Full, Keeps, ScanEnd, EndBlock, Paid, Grew, WroteFile;
      hide SameBytes, ValidUsed, UniqueSlots, Bound, Anchored, HeldValid, NameInv, Linked, Stuck, HasEmpty, NoHoles, NoDirHoles;
      ghost var a, c0, nm := fs.Now(), cache[..], CStr(name, DIRSIZ);
      var i := cache[k].inum;
      LinkStart(fs.l, a, c0, k);
      StepIsLookup(a.fs, i, nm);
      StepBelow(fs.l, a.fs, i, nm);
      var found := Dirlookup(k, name);
      if found.Panic? {
        StuckFull(fs.l, a.fs, fs.State(), i, name);
        return Panic;
      }
      MappingDone(fs.l, a, fs.Now(), i, 0, ScanEnd(Contents(a.fs, i), nm));
      OwnsShape(fs.l, fs.State(), fs.owner);
      FilledInv(fs.l, a.fs, a.owner, fs.State(), fs.owner, c0, i);
      if found.Ok? {
        LinkFound(fs.l, a.fs, fs.State(), fs.owner, c0, cache[..], i, nm, found.value);
        PutReached(found.value, c0);
        KeepsInv(fs.l, fs.State(), fs.owner, c0, cache[..]);
        if NoDirHoles(fs.l, a.fs) {
          GrewNoDirHoles(fs.l, a.fs, fs.State(), i);
        }
        return Ok(false);
      }
      AbsentFirst(Contents(a.fs, i), nm, 0);
      ScanEndBound(a.fs, i, nm);
      ContentsSame(a.fs, fs.State(), i);
      ghost var m := fs.Now();
      AllScanned(fs.l, a, m, i, EndBlock(0, a.fs.inode[i].size));
      MappedNoHoles(m.fs, i);
      var n := EmptyEntry(i);
      ContentsSize(a.fs, i, n);
      EmptyFound(Contents(a.fs, i), n);
      var w := fs.Writei(i, DIRENT * n, Dirent(inum, name));
      LogsChain(a.tape, m.tape, fs.Tape());
      OwnsShape(fs.l, fs.State(), fs.owner);
      if !w.Done? {
        return Panic;
      }
      AfterLink(fs.l, a, m, fs.State(), fs.owner, c0, i, n, inum, name);
      LinkDone(fs.l, a, m, fs.State(), fs.owner, i, n, inum, nm);
      GrewChain(a.fs, m.fs, fs.State());
      if NoDirHoles(fs.l, a.fs) {
        GrewNoDirHoles(fs.l, a.fs, fs.State(), i);
      }
      return Ok(true);
    }
  }
}
