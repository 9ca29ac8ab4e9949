/** Failures of the file-system code at concrete inputs: small disks on which its methods are
    called. */
module SmallDisks {
  import opened Blocks
  import opened FsLayout
  import opened FsOwner
  import opened FsJournal
  import opened FsSpace
  import opened FileSystem
  import opened Wrappers
  import opened Paths
  import opened Directories
  import opened NameLayer
  import opened FirstTree

  /** Eight sectors: boot block, superblock, two inodes, an unused sector, the bitmap, one data
      block and one block of log. */
  const TINY := Layout(8, 2, 1)

  function NoAddrs(): (a: Addrs)
    ensures forall k :: 0 <= k <= NDIRECT ==> a[k] == 0
  {
    seq<uint>(NDIRECT + 1, i => 0)
  }

  function Unused(): Inode {
    Inode(0, 0, 0, 0, 0, NoAddrs())
  }

  /** A file of 100 bytes in the one data block. */
  function Whole(): Inode {
    Inode(T_FILE, 0, 0, 1, 100, NoAddrs()[0 := 6])
  }

  /** The bitmap with the first n blocks marked, as mkfs writes it. */
  function MarkFirst(l: Layout, img: seq<Block>, n: nat): (r: seq<Block>)
    requires n <= l.size && l.DataStart() <= |img|
    ensures |r| == |img|
  {
    if n == 0 then img else WithMark(l, MarkFirst(l, img, n - 1), n - 1, true)
  }

  lemma {:induction false} MarkFirstAt(l: Layout, img: seq<Block>, n: nat, c: nat)
    requires n <= l.size && l.DataStart() <= |img| && c < l.size
    ensures Marked(l, MarkFirst(l, img, n), c) <==> c < n || Marked(l, img, c)
  {
    hide Marked, WithMark;
    if n > 0 {
      MarkFirstAt(l, img, n - 1, c);
      WithMarkAt(l, MarkFirst(l, img, n - 1), n - 1, true, c);
    }
  }

  lemma ZeroUnmarked(l: Layout, img: seq<Block>, c: nat)
    requires c < l.size && l.DataStart() <= |img| && img[l.Bblock(c)] == ZeroBlock()
    ensures !Marked(l, img, c)
  {
    ZeroBit(c % BPB % 8);
  }

  lemma {:induction false} ZeroBit(k: nat)
    ensures !Bit(0, k)
  {
    if k > 0 {
      ZeroBit(k - 1);
    }
  }

  function TinyDisk(used: nat, ip: Inode): (r: seq<Block>)
    requires used <= TINY.size
    ensures |r| == TINY.size
  {
    var empty: seq<Block> := seq<Block>(8, i => ZeroBlock());
    MarkFirst(TINY, empty, used)[2 := EncodeInode(Unused())][3 := EncodeInode(ip)]
  }

  lemma TinyMarks(used: nat, ip: Inode, c: nat)
    requires used <= TINY.size && c < TINY.size
    ensures Marked(TINY, TinyDisk(used, ip), c) <==> c < used
  {
    hide EncodeInode, MarkFirst;
    var empty: seq<Block> := seq<Block>(8, i => ZeroBlock());
    MarkFirstAt(TINY, empty, used, c);
    BblockBound(TINY, c);
    assert !Marked(TINY, empty, c) by { ZeroUnmarked(TINY, empty, c); }
    assert TinyDisk(used, ip)[TINY.Bblock(c)] == MarkFirst(TINY, empty, used)[TINY.Bblock(c)];
  }

  lemma TinyShape(used: nat, ip: Inode)
    requires used <= TINY.size
    ensures Shape(TINY, Fs(TinyDisk(used, ip), [Unused(), ip]))
  {
    hide TinyDisk;
  }

  lemma SolidOwns()
    ensures Owns(TINY, Fs(TinyDisk(7, Whole()), [Unused(), Whole()]), map[6 := (1, 0)])
  {
    hide Marked, TinyDisk, Word;
    var fs, owner: Owner := Fs(TinyDisk(7, Whole()), [Unused(), Whole()]), map[6 := (1, 0)];
    TinyShape(7, Whole());
    forall b | 0 <= b < TINY.size ensures Marked(TINY, fs.img, b) <==> b < TINY.DataStart() || b in owner {
      TinyMarks(7, Whole(), b);
    }
    forall i: nat, k: nat | i < 2 && k < SLOTS ensures SlotAddr(fs, i, k) == if i == 1 && k == 0 then 6 else 0 {
      assert fs.inode[i].addrs[NDIRECT] == 0;
    }
  }

  /** With the data block in use, balloc hands out the sector of the log header. */
  method ScanIntoLog() returns (r: Option<nat>)
    ensures r == Some(7) && 7 == TINY.LogStart()
  {
    hide Owns, Marked, TinyDisk, Logs;
    SolidOwns();
    ghost var img := TinyDisk(7, Whole());
    OwnsShape(TINY, Fs(img, [Unused(), Whole()]), map[6 := (1, 0)]);
    forall b: nat | b < 8 ensures Marked(TINY, img, b) <==> b < 7 {
      TinyMarks(7, Whole(), b);
    }
    var fs := new FileSystem(TINY, TinyDisk(7, Whole()), [Unused(), Whole()], map[6 := (1, 0)]);
    assert fs.img == img && !Marked(TINY, img, 7);
    r := fs.Balloc();
    assert r.Some? ==> !Marked(TINY, img, r.value);
  }

  // ---- a root directory that fills its block ----

  /** Room for 32 inodes, two data blocks and one block of log. */
  const ROOTED := Layout(39, 32, 1)

  /** The root directory with 32 entries: one block of them, the size rounded up to two. */
  function RootInode(): Inode {
    Inode(T_DIR, 0, 0, 1, 1024, NoAddrs()[0 := 36])
  }

  function EmptyFile(): Inode {
    Inode(T_FILE, 0, 0, 1, 0, NoAddrs())
  }

  function Nth(i: nat): Inode {
    if i == 0 then Unused() else if i == ROOTINO then RootInode() else EmptyFile()
  }

  function RootBlock(names: seq<seq<byte>>): Block
    requires |names| == 30
  {
    EntriesSize(names, 32);
    Entries(names, 32)
  }

  function RootedMarks(): (r: seq<Block>)
    ensures |r| == ROOTED.size
  {
    var empty: seq<Block> := seq<Block>(39, i => ZeroBlock());
    MarkFirst(ROOTED, empty, 37)
  }

  function RootedSector(names: seq<seq<byte>>, s: nat): Block
    requires |names| == 30 && s < 39
  {
    if 2 <= s < 34 then EncodeInode(Nth(s - 2)) else if s == 36 then RootBlock(names) else RootedMarks()[s]
  }

  /** The disk that mkfs makes of 30 empty files. */
  function RootedDisk(names: seq<seq<byte>>): (r: seq<Block>)
    requires |names| == 30
    ensures |r| == ROOTED.size
  {
    seq<Block>(39, s requires 0 <= s < 39 => RootedSector(names, s))
  }

  function Inodes(): (r: seq<Inode>)
    ensures |r| == 32
  {
    seq<Inode>(32, i requires 0 <= i < 32 => Nth(i))
  }

  ghost function Rooted(names: seq<seq<byte>>): Fs
    requires |names| == 30
  {
    Fs(RootedDisk(names), Inodes())
  }

  ghost function RootOwner(): Owner {
    map[36 := (ROOTINO, 0)]
  }

  lemma RootedMarked(names: seq<seq<byte>>, c: nat)
    requires |names| == 30 && c < ROOTED.size
    ensures Marked(ROOTED, RootedDisk(names), c) <==> c < 37
  {
    hide EncodeInode, MarkFirst, RootBlock;
    var empty: seq<Block> := seq<Block>(39, i => ZeroBlock());
    MarkFirstAt(ROOTED, empty, 37, c);
    BblockBound(ROOTED, c);
    assert ROOTED.Bblock(c) == 35;
    assert !Marked(ROOTED, empty, c) by { ZeroUnmarked(ROOTED, empty, c); }
    assert RootedDisk(names)[35] == RootedMarks()[35];
  }

  lemma RootedSlots(names: seq<seq<byte>>, i: nat, k: nat)
    requires |names| == 30 && i < 32 && k < SLOTS
    ensures SlotAddr(Rooted(names), i, k) == if i == ROOTINO && k == 0 then 36 else 0
  {
    hide RootedDisk, Word;
    assert Inodes()[i] == Nth(i) && Nth(i).addrs[NDIRECT] == 0;
  }

  lemma RootedOwns(names: seq<seq<byte>>)
    requires |names| == 30
    ensures Owns(ROOTED, Rooted(names), RootOwner())
  {
    hide Marked, RootedDisk, SlotAddr, Inodes;
    var fs := Rooted(names);
    forall b | 0 <= b < ROOTED.size ensures Marked(ROOTED, fs.img, b) <==> b < ROOTED.DataStart() || b in RootOwner() {
      RootedMarked(names, b);
    }
    forall i: nat, k: nat | i < 32 && k < SLOTS ensures SlotOk(fs, RootOwner(), i, k) {
      RootedSlots(names, i, k);
    }
    RootedSlots(names, ROOTINO, 0);
  }

  lemma RootedSynced(names: seq<seq<byte>>, i: nat)
    requires |names| == 30 && i < 32
    ensures Synced(ROOTED, Rooted(names), i)
  {
    hide EncodeInode, DecodeInode, RootBlock, RootedMarks;
    InodeRoundTrip(Nth(i));
    assert RootedDisk(names)[i + 2] == EncodeInode(Nth(i));
  }

  lemma RootedByte(names: seq<seq<byte>>, pos: nat)
    requires |names| == 30 && pos < 1024
    ensures FileByte(Rooted(names), ROOTINO, pos) == if pos < BSIZE then RootBlock(names)[pos] else 0
  {
    hide SlotAddr, RootBlock, RootedMarks, EncodeInode, Inodes;
    RootedSlots(names, ROOTINO, SlotFor(pos / BSIZE));
    assert RootedDisk(names)[36] == RootBlock(names);
  }

  lemma RootedContents(names: seq<seq<byte>>)
    requires |names| == 30
    ensures Inodes()[ROOTINO] == RootInode() && Contents(Rooted(names), ROOTINO) == RootDir(names)
  {
    hide FileByte, Entries, RootedDisk;
    var fs, c := Rooted(names), RootDir(names);
    EntriesSize(names, 32);
    forall p | 0 <= p < 1024 ensures Contents(fs, ROOTINO)[p] == c[p] {
      RootedByte(names, p);
    }
  }

  /** Such a disk is one that mkfs makes, and its root directory has a hole. */
  lemma RootedIsMade(names: seq<seq<byte>>)
    requires |names| == 30
    ensures MadeByMkfs(ROOTED, Rooted(names), RootOwner(), names) && !NoDirHoles(ROOTED, Rooted(names))
  {
    hide Owns, Contents, RootDir, RootedDisk, Synced, SlotAddr;
    var fs := Rooted(names);
    RootedOwns(names);
    RootedContents(names);
    forall i: nat | i < 32 ensures Synced(ROOTED, fs, i) && Fresh(fs.inode[i], i, 30) {
      RootedSynced(names, i);
    }
    forall bn: nat | bn < MAXFILE ensures BlockAddr(fs, ROOTINO, bn) != 0 <==> bn * BSIZE < DIRENT * 32 {
      RootedSlots(names, ROOTINO, SlotFor(bn));
    }
    FirstHole(ROOTED, fs, RootOwner(), names);
  }

  lemma RootedMissing(names: seq<seq<byte>>)
    requires |names| == 30
    ensures var fs := Rooted(names);
      && fs.inode[ROOTINO] == RootInode() && Missing(fs, ROOTINO, 1, 2) == 1 && !AllMapped(fs, ROOTINO, 1, 2)
      && !AllReady(fs, ROOTINO, 1, 2) && EndBlock(512, DIRENT) == 2 && ReadEnd(fs, ROOTINO, 512, DIRENT) == 2
    ensures |AllFree(ROOTED, RootOwner())| >= 1
  {
    hide SlotAddr, RootedDisk;
    var fs := Rooted(names);
    RootedSlots(names, ROOTINO, 1);
    assert BlockAddr(fs, ROOTINO, 1) == 0 && Missing(fs, ROOTINO, 1, 1) == 0;
    assert !AddrReady(fs, ROOTINO, 1);
    assert 37 in AllFree(ROOTED, RootOwner());
  }

  /** Reading the first entry behind the full block, as a lookup of a new name does, changes
      the file system. */
  method ReadAllocates(names: seq<seq<byte>>) returns (r: Io<seq<byte>>, ghost before: Fs, ghost after: Fs)
    requires |names| == 30
    ensures MadeByMkfs(ROOTED, before, RootOwner(), names) && r.Done? && after != before
  {
    hide Owns, Marked, RootedDisk, Missing, AllFree, Mapping, Logs, FileByte, AllMapped, Full, MadeByMkfs, ReadEnd, Inodes;
    RootedOwns(names);
    RootedIsMade(names);
    RootedMissing(names);
    var fs := new FileSystem(ROOTED, RootedDisk(names), Inodes(), RootOwner());
    before := fs.State();
    r := fs.Readi(ROOTINO, 512, DIRENT);
    after := fs.State();
  }

  /** Writing the entry there, as dirlink does, leaves the inode on disk behind. */
  method WriteUnsynced(names: seq<seq<byte>>, name: seq<byte>) returns (r: Io<nat>, ghost before: Fs, ghost after: Fs)
    requires |names| == 30
    ensures MadeByMkfs(ROOTED, before, RootOwner(), names) && r == Done(DIRENT)
    ensures |before.inode| == |after.inode| == 32 && |before.img| == |after.img| == ROOTED.size
    ensures Synced(ROOTED, before, ROOTINO) && !Synced(ROOTED, after, ROOTINO)
  {
    hide Owns, Marked, RootedDisk, Missing, AllFree, Paid, Logs, FileByte, AllReady, Full, Inodes, MadeByMkfs;
    hide WroteFile, TouchedBlocks, Grew, NoHoles, EndBlock, Dirent, DecodeInode;
    RootedOwns(names);
    RootedIsMade(names);
    RootedSynced(names, ROOTINO);
    RootedMissing(names);
    var fs := new FileSystem(ROOTED, RootedDisk(names), Inodes(), RootOwner());
    before := fs.State();
    OwnsShape(ROOTED, before, RootOwner());
    var de := Dirent(2, name);
    assert |de| == DIRENT by { DirentSize(name); }
    r := fs.Writei(ROOTINO, 512, de);
    after := fs.State();
    OwnsShape(ROOTED, after, fs.owner);
  }

  lemma DirentSize(name: seq<byte>)
    ensures |Dirent(2, name)| == DIRENT
  {
  }
}
