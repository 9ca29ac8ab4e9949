/** Block allocation, block maps and byte-range I/O of fs.c, and filewrite's
    chunking from file.c. bread/log_write/brelse appear as reads and updates of
    the transaction's view of the disk; `writes` is the tape of log_write calls since
    begin_trans and `logged` the set of their sectors. */
module FileSystem {
  import opened Blocks
  import opened FsLayout
  import opened FsOwner
  import opened FsJournal
  import opened FsSpace
  import opened Finite
  import opened Wrappers
  import LogDisk
  import LogMachine

  /** The outcome of readi and writei: done, the error return -1, or the panic
      "balloc: out of blocks". */
  datatype Io<T> = Done(value: T) | Failed | OutOfBlocks

  ghost predicate Full(l: Layout, img: seq<Block>)
    requires l.DataStart() <= |img|
  {
    forall b :: 0 <= b < l.size ==> Marked(l, img, b)
  }

  ghost function Bitmap(l: Layout): set<nat> {
    Range(l.ninodes + 3, l.DataStart())
  }

  ghost predicate SameInodeSectors(l: Layout, img: seq<Block>, img': seq<Block>) {
    |img| == |img'| && forall s :: 0 <= s < l.ninodes + 3 && s < |img| ==> img'[s] == img[s]
  }

  /** Used slots keep their block. */
  ghost predicate Grew(fs: Fs, fs': Fs) {
    && |fs'.inode| == |fs.inode| && |fs'.img| == |fs.img|
    && (forall j: nat, m: nat :: j < |fs.inode| && m < SLOTS && SlotAddr(fs, j, m) != 0 ==>
         SlotAddr(fs', j, m) == SlotAddr(fs, j, m))
  }

  /** Inodes agree except for the addrs of inode i. */
  ghost predicate OnlyAddrs(fs: Fs, fs': Fs, i: nat) {
    && |fs'.inode| == |fs.inode|
    && (forall j :: 0 <= j < |fs.inode| && j != i ==> fs'.inode[j] == fs.inode[j])
    && (i < |fs.inode| ==> fs'.inode[i] == fs.inode[i].(addrs := fs'.inode[i].addrs))
  }

  /** m bytes of file i from position off on. */
  function FileBytes(fs: Fs, i: nat, off: nat, m: nat): (r: seq<byte>)
    requires i < |fs.inode| && off + m <= MAXBYTES
    ensures |r| == m
  {
    seq<byte>(m, p requires 0 <= p < m => FileByte(fs, i, off + p))
  }

  /** bmap finds the block, or the indirect block leading to it, in ip->addrs. */
  ghost predicate AddrReady(fs: Fs, i: nat, bn: nat)
    requires i < |fs.inode|
  {
    fs.inode[i].addrs[if bn < NDIRECT then bn else NDIRECT] != 0
  }

  ghost predicate AllReady(fs: Fs, i: nat, lo: nat, hi: nat)
    requires i < |fs.inode|
  {
    forall bn: nat :: lo <= bn < hi ==> AddrReady(fs, i, bn)
  }

  /** An address once filled in stays filled in. */
  lemma StillDifferent(a: Fs, b: Fs, c: Fs, i: nat)
    requires Grew(a, b) && OnlyAddrs(a, b, i) && Grew(b, c) && i < |a.inode| && b.inode != a.inode
    ensures c.inode != a.inode
  {
    hide Word;
    var k :| 0 <= k <= NDIRECT && b.inode[i].addrs[k] != a.inode[i].addrs[k];
    assert SlotAddr(a, i, k) == a.inode[i].addrs[k] && SlotAddr(b, i, k) == b.inode[i].addrs[k];
    assert SlotAddr(c, i, k) == c.inode[i].addrs[k];
  }

  lemma OwnsShape(l: Layout, fs: Fs, owner: Owner)
    requires Owns(l, fs, owner)
    ensures Shape(l, fs)
  {
  }

  lemma FullFree(l: Layout, fs: Fs, owner: Owner)
    requires Owns(l, fs, owner) && Full(l, fs.img)
    ensures |AllFree(l, owner)| == 0
  {
    hide Owns, Marked;
    NoneFree(l, fs, owner) by { FullMarked(l, fs, owner); }
  }

  lemma FullMarked(l: Layout, fs: Fs, owner: Owner)
    requires Owns(l, fs, owner) && Full(l, fs.img)
    ensures l.DataStart() <= |fs.img| && forall b :: 0 <= b < l.size ==> Marked(l, fs.img, b)
  {
  }

  lemma TookAll(l: Layout, a: Owner, b: Owner, n: nat)
    requires Took(l, a, b, n) && |AllFree(l, b)| == 0
    ensures |AllFree(l, a)| == n
  {
  }

  lemma Chain(a: Fs, b: Fs, c: Fs, i: nat)
    requires Grew(a, b) && OnlyAddrs(a, b, i) && Grew(b, c) && OnlyAddrs(b, c, i)
    ensures Grew(a, c) && OnlyAddrs(a, c, i)
  {
    hide SlotAddr;
  }

  lemma SameGrew(fs: Fs, i: nat)
    ensures Grew(fs, fs) && OnlyAddrs(fs, fs, i) && SameBytes(fs, fs)
  {
  }

  lemma SameBytesChain(a: Fs, b: Fs, c: Fs)
    requires SameBytes(a, b) && SameBytes(b, c)
    ensures SameBytes(a, c)
  {
    hide FileByte;
  }

  /** The bytes of file i. */
  function Contents(fs: Fs, i: nat): (r: seq<byte>)
    requires i < |fs.inode| && fs.inode[i].size <= MAXBYTES
    ensures |r| == fs.inode[i].size
  {
    FileBytes(fs, i, 0, fs.inode[i].size)
  }

  /** `src` laid over `c` at `off`, which may be at most |c|. */
  function Overwritten(c: seq<byte>, off: nat, src: seq<byte>): seq<byte>
    requires off <= |c|
  {
    c[..off] + src + (if off + |src| < |c| then c[off + |src|..] else [])
  }

  /** The n bytes of c from off on, or what there is of them. */
  function Clip(c: seq<byte>, off: nat, n: nat): seq<byte> {
    if off > |c| then [] else if off + n <= |c| then c[off..off + n] else c[off..]
  }

  lemma ClipBytes(fs: Fs, i: nat, off: nat, m: nat, n: nat)
    requires i < |fs.inode| && off + m <= fs.inode[i].size <= MAXBYTES
    requires m == n || (m < n && off + m == fs.inode[i].size)
    ensures FileBytes(fs, i, off, m) == Clip(Contents(fs, i), off, n)
  {
    hide FileByte;
    var c := Contents(fs, i);
    assert Clip(c, off, n) == c[off..off + m];
    forall q | 0 <= q < m ensures FileBytes(fs, i, off, m)[q] == c[off..off + m][q] {
    }
  }

  ghost predicate NoHoles(fs: Fs, i: nat)
    requires i < |fs.inode|
  {
    forall bn: nat :: bn < MAXFILE && bn * BSIZE < fs.inode[i].size ==> BlockAddr(fs, i, bn) != 0
  }

  /** The inode's sector holds the in-memory inode. */
  ghost predicate Synced(l: Layout, fs: Fs, i: nat)
    requires i < |fs.inode| && l.Iblock(i) < |fs.img|
  {
    DecodeInode(fs.img[l.Iblock(i)]) == fs.inode[i]
  }

  lemma InBlock(off: nat, q: nat)
    requires off % BSIZE + q < BSIZE
    ensures (off + q) / BSIZE == off / BSIZE && (off + q) % BSIZE == off % BSIZE + q
  {
  }

  /** A piece of one block is a piece of the file. */
  lemma ReadPiece(fs: Fs, i: nat, off: nat, m: nat)
    requires i < |fs.inode| && off < MAXBYTES && off % BSIZE + m <= BSIZE
    requires 0 < BlockAddr(fs, i, off / BSIZE) < |fs.img|
    ensures off + m <= MAXBYTES
    ensures FileBytes(fs, i, off, m) == fs.img[BlockAddr(fs, i, off / BSIZE)][off % BSIZE..off % BSIZE + m]
  {
    hide BlockAddr;
    var piece := fs.img[BlockAddr(fs, i, off / BSIZE)][off % BSIZE..off % BSIZE + m];
    forall q | 0 <= q < m ensures FileBytes(fs, i, off, m)[q] == piece[q] {
      InBlock(off, q);
    }
  }

  lemma SameBytesSlice(fs: Fs, fs': Fs, i: nat, off: nat, m: nat)
    requires SameBytes(fs, fs') && i < |fs.inode| && off + m <= MAXBYTES
    ensures FileBytes(fs', i, off, m) == FileBytes(fs, i, off, m)
  {
    hide FileByte;
  }

  /** `src` is written into file i at off; no other byte of any file changes. */
  ghost predicate Patched(fs: Fs, fs': Fs, i: nat, off: nat, src: seq<byte>) {
    && |fs'.inode| == |fs.inode|
    && forall j: nat, pos: nat :: j < |fs.inode| && pos < MAXBYTES ==>
         FileByte(fs', j, pos) == if j == i && off <= pos < off + |src| then src[pos - off] else FileByte(fs, j, pos)
  }

  lemma PatchMore(fs: Fs, fs1: Fs, fs2: Fs, i: nat, off: nat, src: seq<byte>, tot: nat, m: nat)
    requires tot + m <= |src|
    requires Patched(fs, fs1, i, off, src[..tot]) && Patched(fs1, fs2, i, off + tot, src[tot..tot + m])
    ensures Patched(fs, fs2, i, off, src[..tot + m])
  {
    hide FileByte;
    forall j: nat, pos: nat | j < |fs.inode| && pos < MAXBYTES
      ensures FileByte(fs2, j, pos) ==
              if j == i && off <= pos < off + tot + m then src[..tot + m][pos - off] else FileByte(fs, j, pos)
    {
      assert FileByte(fs1, j, pos) ==
        if j == i && off <= pos < off + tot then src[..tot][pos - off] else FileByte(fs, j, pos);
    }
  }

  lemma PatchNothing(fs: Fs, i: nat, off: nat)
    ensures Patched(fs, fs, i, off, [])
  {
  }

  /** In terms of whole files: file i is spliced, the others stay as they are. */
  lemma PatchedContents(fs: Fs, fs': Fs, i: nat, off: nat, src: seq<byte>)
    requires Patched(fs, fs', i, off, src) && i < |fs.inode|
    requires off <= fs.inode[i].size <= MAXBYTES && off + |src| <= MAXBYTES
    requires forall j :: 0 <= j < |fs.inode| && j != i ==> fs'.inode[j] == fs.inode[j]
    requires fs'.inode[i].size == if off + |src| > fs.inode[i].size then off + |src| else fs.inode[i].size
    ensures Contents(fs', i) == Overwritten(Contents(fs, i), off, src)
    ensures forall j: nat :: j < |fs.inode| && j != i && fs.inode[j].size <= MAXBYTES ==>
              Contents(fs', j) == Contents(fs, j)
  {
    hide FileByte;
    var c, c' := Contents(fs, i), Contents(fs', i);
    forall p | 0 <= p < |c'| ensures c'[p] == Overwritten(c, off, src)[p] {
      assert c'[p] == FileByte(fs', i, p);
    }
    forall j: nat | j < |fs.inode| && j != i && fs.inode[j].size <= MAXBYTES
      ensures Contents(fs', j) == Contents(fs, j)
    {
      forall p | 0 <= p < fs.inode[j].size ensures Contents(fs', j)[p] == Contents(fs, j)[p] {
        assert FileByte(fs', j, p) == FileByte(fs, j, p);
      }
    }
  }

  lemma PiecePatched(fs0: Fs, fs1: Fs, fs2: Fs, i: nat, off: nat, piece: seq<byte>, blk: Block)
    requires SameBytes(fs0, fs1) && |fs2.inode| == |fs0.inode| && i < |fs0.inode|
    requires off % BSIZE + |piece| <= BSIZE && off < MAXBYTES
    requires 0 < BlockAddr(fs1, i, off / BSIZE) < |fs1.img|
    requires var old_ := fs1.img[BlockAddr(fs1, i, off / BSIZE)]; var o := off % BSIZE;
      blk == old_[..o] + piece + old_[o + |piece|..]
    requires forall j: nat, pos: nat :: j < |fs0.inode| && pos < MAXBYTES ==>
               FileByte(fs2, j, pos) ==
               if j == i && pos / BSIZE == off / BSIZE then blk[pos % BSIZE] else FileByte(fs1, j, pos)
    ensures Patched(fs0, fs2, i, off, piece)
  {
    hide SlotAddr;
    forall j: nat, pos: nat | j < |fs0.inode| && pos < MAXBYTES
      ensures FileByte(fs2, j, pos) ==
              if j == i && off <= pos < off + |piece| then piece[pos - off] else FileByte(fs0, j, pos)
    {
      assert FileByte(fs1, j, pos) == FileByte(fs0, j, pos);
      if off <= pos < off + |piece| {
        InBlock(off, pos - off);
      }
    }
  }

  /** The block that bmap returned, overwritten from off % BSIZE on. */
  lemma BlockWritten(l: Layout, fs0: Fs, fs1: Fs, owner: Owner, fs2: Fs, i: nat, off: nat, piece: seq<byte>, blk: Block)
    requires Owns(l, fs1, owner) && i < l.ninodes && off % BSIZE + |piece| <= BSIZE && off < MAXBYTES
    requires SameBytes(fs0, fs1) && Grew(fs0, fs1) && SameInodeSectors(l, fs0.img, fs1.img)
    requires 0 < BlockAddr(fs1, i, off / BSIZE) < |fs1.img| && l.DataStart() <= BlockAddr(fs1, i, off / BSIZE)
    requires var cur := fs1.img[BlockAddr(fs1, i, off / BSIZE)]; var o := off % BSIZE;
      blk == cur[..o] + piece + cur[o + |piece|..]
    requires fs2 == fs1.(img := fs1.img[BlockAddr(fs1, i, off / BSIZE) := blk])
    ensures Owns(l, fs2, owner) && Grew(fs0, fs2) && SameInodeSectors(l, fs0.img, fs2.img)
    ensures Patched(fs0, fs2, i, off, piece) && BlockAddr(fs2, i, off / BSIZE) == BlockAddr(fs1, i, off / BSIZE)
    ensures SameSlots(fs1, fs2)
    ensures TouchedBlocks(l, fs2, i, off / BSIZE, off / BSIZE + 1) ==
            TouchedBlocks(l, fs1, i, off / BSIZE, off / BSIZE + 1)
  {
    hide FileByte, SlotAddr, Marked, OwnerOk, SlotOk, Patched;
    DataWrite(l, fs1, owner, fs2, i, off / BSIZE, blk);
    PiecePatched(fs0, fs1, fs2, i, off, piece, blk);
    TouchedSame(l, fs1, fs2, i, off / BSIZE, off / BSIZE + 1);
  }

  ghost predicate AllMapped(fs: Fs, i: nat, lo: nat, hi: nat)
    requires i < |fs.inode| && hi <= MAXFILE
  {
    forall bn: nat :: lo <= bn < hi ==> BlockAddr(fs, i, bn) != 0
  }

  /** Addresses of the file's blocks lo..hi-1. */
  ghost function AddrSet(fs: Fs, i: nat, lo: nat, hi: nat): (r: set<nat>)
    requires i < |fs.inode| && hi <= MAXFILE
    ensures lo <= hi ==> |r| <= hi - lo
    decreases hi
  {
    if lo >= hi then {} else AddrSet(fs, i, lo, hi - 1) + {BlockAddr(fs, i, hi - 1)}
  }

  /** Sectors that writing blocks lo..hi-1 of file i may log: the blocks, the
      indirect block, the bitmap. */
  ghost function TouchedBlocks(l: Layout, fs: Fs, i: nat, lo: nat, hi: nat): (r: set<nat>)
    requires i < |fs.inode| && hi <= MAXFILE
    ensures lo <= hi ==> |r| <= hi - lo + 1 + l.size / BPB + 1
  {
    AddrSet(fs, i, lo, hi)
    + (if fs.inode[i].addrs[NDIRECT] == 0 then {} else {fs.inode[i].addrs[NDIRECT]})
    + Bitmap(l)
  }

  lemma TouchedOne(l: Layout, fs: Fs, i: nat, bn: nat, was: set<nat>, now: set<nat>)
    requires i < |fs.inode| && bn < MAXFILE
    requires forall s :: s in now && s !in was ==>
               s in Bitmap(l) || s == BlockAddr(fs, i, bn) || (s == fs.inode[i].addrs[NDIRECT] && s != 0)
    ensures now + {BlockAddr(fs, i, bn)} <= was + TouchedBlocks(l, fs, i, bn, bn + 1)
  {
  }

  /** One past the last block that n bytes from off on reach into. */
  function EndBlock(off: nat, n: nat): nat {
    if n == 0 then off / BSIZE else (off + n - 1) / BSIZE + 1
  }

  /** A round of the copy loop ends at a block boundary or at the end of the data. */
  lemma NextBlock(off: nat, tot: nat, m: nat)
    requires 0 < m && (off + tot) % BSIZE + m <= BSIZE
    requires tot == 0 || (off + tot) % BSIZE == 0
    ensures off / BSIZE <= (off + tot) / BSIZE == EndBlock(off, tot)
    ensures EndBlock(off, tot + m) == EndBlock(off, tot) + 1
  {
    InBlock(off + tot, m - 1);
  }

  lemma MappedNone(fs: Fs, i: nat, lo: nat)
    requires i < |fs.inode|
    ensures lo <= MAXFILE ==> AllMapped(fs, i, lo, lo)
  {
  }

  lemma MappedAt(fs: Fs, i: nat, lo: nat, hi: nat, bn: nat)
    requires i < |fs.inode| && lo <= bn < hi <= MAXFILE && AllMapped(fs, i, lo, hi)
    ensures BlockAddr(fs, i, bn) != 0
  {
  }

  lemma EndBlocks(off: nat, tot: nat, n: nat)
    requires tot <= n && off + n <= MAXBYTES
    ensures EndBlock(off, 0) == off / BSIZE <= EndBlock(off, tot) <= EndBlock(off, n) <= MAXFILE
    ensures tot < n && (tot == 0 || (off + tot) % BSIZE == 0) ==> EndBlock(off, tot) < EndBlock(off, n)
  {
  }

  lemma SubsetChain<T>(o: set<T>, a: set<T>, b: set<T>, t1: set<T>, t2: set<T>, t: set<T>)
    requires a <= o + t1 && b <= a + t2 && t1 <= t && t2 <= t
    ensures b <= o + t
  {
  }

  lemma {:induction false} AddrsGrow(fs: Fs, fs': Fs, i: nat, lo: nat, hi: nat)
    requires Grew(fs, fs') && i < |fs.inode| && hi <= MAXFILE && AllMapped(fs, i, lo, hi)
    ensures AllMapped(fs', i, lo, hi) && AddrSet(fs', i, lo, hi) == AddrSet(fs, i, lo, hi)
    decreases hi
  {
    hide SlotAddr;
    if lo < hi {
      AddrsGrow(fs, fs', i, lo, hi - 1);
      assert BlockAddr(fs, i, hi - 1) != 0;
    }
  }

  /** Blocks touched so far stay the same blocks when one more is written. */
  lemma TouchedGrows(l: Layout, fs: Fs, fs': Fs, i: nat, lo: nat, hi: nat)
    requires Grew(fs, fs') && i < |fs.inode| && lo <= hi < MAXFILE
    requires AllMapped(fs, i, lo, hi) && BlockAddr(fs', i, hi) != 0
    ensures AllMapped(fs', i, lo, hi + 1)
    ensures TouchedBlocks(l, fs, i, lo, hi) <= TouchedBlocks(l, fs', i, lo, hi + 1)
    ensures TouchedBlocks(l, fs', i, hi, hi + 1) <= TouchedBlocks(l, fs', i, lo, hi + 1)
  {
    assert SlotAddr(fs, i, NDIRECT) == fs.inode[i].addrs[NDIRECT];
    AddrsGrow(fs, fs', i, lo, hi);
  }

  lemma ReadyMore(fs: Fs, mid: Fs, fs': Fs, i: nat, lo: nat, hi: nat)
    requires i < |fs.inode| && Grew(fs, mid) && OnlyAddrs(fs, mid, i) && Grew(mid, fs') && lo <= hi
    requires mid.inode == fs.inode <==> AllReady(fs, i, lo, hi)
    requires fs'.inode == mid.inode <==> AddrReady(mid, i, hi)
    ensures fs'.inode == fs.inode <==> AllReady(fs, i, lo, hi + 1)
  {
    if mid.inode != fs.inode {
      StillDifferent(fs, mid, fs', i);
    } else {
      assert AddrReady(mid, i, hi) <==> AddrReady(fs, i, hi);
    }
  }

  lemma MappedSame(fs: Fs, fs': Fs, i: nat, lo: nat, hi: nat)
    requires SameSlots(fs, fs') && i < |fs.inode| && hi <= MAXFILE && AllMapped(fs, i, lo, hi)
    ensures AllMapped(fs', i, lo, hi)
  {
    hide SlotAddr;
    forall bn: nat | lo <= bn < hi ensures BlockAddr(fs', i, bn) != 0 {
      assert BlockAddr(fs, i, bn) != 0;
    }
  }

  lemma GrewSame(a: Fs, b: Fs, c: Fs)
    requires Grew(a, b) && SameSlots(b, c) && |c.img| == |b.img|
    ensures Grew(a, c)
  {
    hide SlotAddr;
  }

  lemma ReadyNothing(fs: Fs, i: nat, lo: nat)
    requires i < |fs.inode|
    ensures AllReady(fs, i, lo, lo)
  {
  }

  /** A mapped block needs no new address. */
  lemma MappedReady(fs: Fs, i: nat, lo: nat, hi: nat)
    requires i < |fs.inode| && hi <= MAXFILE && AllMapped(fs, i, lo, hi)
    ensures AllReady(fs, i, lo, hi)
  {
    forall bn: nat | lo <= bn < hi ensures AddrReady(fs, i, bn) {
      assert BlockAddr(fs, i, bn) != 0;
    }
  }

  /** What a successful writei means: the file is spliced, the others are not
      touched. */
  ghost predicate WroteFile(fs: Fs, fs': Fs, i: nat, off: nat, src: seq<byte>)
    requires i < |fs.inode| && fs.inode[i].size <= MAXBYTES
  {
    && |fs'.inode| == |fs.inode|
    && off <= fs.inode[i].size && fs'.inode[i].size <= MAXBYTES
    && Contents(fs', i) == Overwritten(Contents(fs, i), off, src)
    && fs'.inode[i] == fs.inode[i].(addrs := fs'.inode[i].addrs, size := fs'.inode[i].size)
    && forall j: nat :: j < |fs.inode| && j != i && fs.inode[j].size <= MAXBYTES ==>
         fs'.inode[j] == fs.inode[j] && Contents(fs', j) == Contents(fs, j)
  }

  lemma WroteFileBy(fs: Fs, mid: Fs, fs': Fs, i: nat, off: nat, src: seq<byte>)
    requires i < |fs.inode| && fs.inode[i].size <= MAXBYTES && off <= fs.inode[i].size && off + |src| <= MAXBYTES
    requires Patched(fs, mid, i, off, src) && SameBytes(mid, fs') && OnlyAddrs(fs, mid, i)
    requires forall j :: 0 <= j < |fs.inode| && j != i ==> fs'.inode[j] == mid.inode[j]
    requires fs'.inode[i] == mid.inode[i].(addrs := fs'.inode[i].addrs, size := fs'.inode[i].size)
    requires fs'.inode[i].size == if off + |src| > fs.inode[i].size then off + |src| else fs.inode[i].size
    ensures WroteFile(fs, fs', i, off, src)
  {
    hide FileByte, Contents, Overwritten;
    assert Patched(fs, fs', i, off, src) by {
      forall j: nat, pos: nat | j < |fs.inode| && pos < MAXBYTES
        ensures FileByte(fs', j, pos) ==
                if j == i && off <= pos < off + |src| then src[pos - off] else FileByte(fs, j, pos)
      {
        assert FileByte(fs', j, pos) == FileByte(mid, j, pos);
      }
    }
    PatchedContents(fs, fs', i, off, src);
  }

  /** Writing inside a file without holes touches only mapped blocks. */
  lemma NoHolesMapped(fs: Fs, i: nat, off: nat, n: nat)
    requires i < |fs.inode| && NoHoles(fs, i) && off + n <= MAXBYTES
    ensures EndBlock(off, n) <= MAXFILE
    ensures off + n <= fs.inode[i].size ==> AllMapped(fs, i, off / BSIZE, EndBlock(off, n))
    ensures off + n <= fs.inode[i].size ==> AllReady(fs, i, off / BSIZE, EndBlock(off, n))
  {
    hide SlotAddr;
    if off + n <= fs.inode[i].size {
      forall bn: nat | off / BSIZE <= bn < EndBlock(off, n) ensures BlockAddr(fs, i, bn) != 0 {
        assert bn * BSIZE < fs.inode[i].size;
      }
      MappedReady(fs, i, off / BSIZE, EndBlock(off, n));
    }
  }

  lemma GrownNoHoles(fs: Fs, mid: Fs, fs': Fs, i: nat, off: nat, n: nat)
    requires i < |fs.inode| && NoHoles(fs, i) && Grew(fs, mid) && SameSlots(mid, fs')
    requires off <= fs.inode[i].size && off + n <= MAXBYTES && EndBlock(off, n) <= MAXFILE
    requires AllMapped(mid, i, off / BSIZE, EndBlock(off, n))
    requires fs'.inode[i].size <= fs.inode[i].size || fs'.inode[i].size == off + n
    ensures NoHoles(fs', i)
  {
    hide SlotAddr;
    forall bn: nat | bn < MAXFILE && bn * BSIZE < fs'.inode[i].size ensures BlockAddr(fs', i, bn) != 0 {
      if bn * BSIZE < fs.inode[i].size {
        assert BlockAddr(fs, i, bn) != 0;
      } else {
        assert off / BSIZE <= bn < EndBlock(off, n);
        assert BlockAddr(mid, i, bn) != 0;
      }
    }
  }

  lemma {:induction false} AddrSetSame(fs: Fs, fs': Fs, i: nat, lo: nat, hi: nat)
    requires SameSlots(fs, fs') && i < |fs.inode| && hi <= MAXFILE
    ensures AddrSet(fs', i, lo, hi) == AddrSet(fs, i, lo, hi)
    decreases hi
  {
    if lo < hi {
      AddrSetSame(fs, fs', i, lo, hi - 1);
    }
  }

  lemma SlotsSelf(fs: Fs)
    ensures SameSlots(fs, fs) && SameBytes(fs, fs)
  {
  }

  lemma SlotsChain(a: Fs, b: Fs, c: Fs)
    requires SameSlots(a, b) && SameSlots(b, c)
    ensures SameSlots(a, c)
  {
    hide SlotAddr;
  }

  lemma TouchedSame(l: Layout, fs: Fs, fs': Fs, i: nat, lo: nat, hi: nat)
    requires SameSlots(fs, fs') && i < |fs.inode| && hi <= MAXFILE
    ensures TouchedBlocks(l, fs', i, lo, hi) == TouchedBlocks(l, fs, i, lo, hi)
  {
    AddrSetSame(fs, fs', i, lo, hi);
    assert SlotAddr(fs', i, NDIRECT) == SlotAddr(fs, i, NDIRECT);
  }

  /** Owners lost are all of file i; nothing else changes hands. */
  ghost predicate Shrunk(owner: Owner, owner': Owner, i: nat) {
    && (forall b :: b in owner' ==> b in owner && owner'[b] == owner[b])
    && (forall b :: b in owner && owner[b].0 != i ==> b in owner')
  }

  /** How far itrunc has come: fs and owner against the state it started from. */
  ghost predicate Truncating(l: Layout, fs0: Fs, owner0: Owner, fs: Fs, owner: Owner, i: nat, n: nat) {
    && OwnsBut(l, fs, owner, i, n) && Shape(l, fs0) && Shrunk(owner0, owner, i)
    && (forall s :: 0 <= s < l.size && !(l.ninodes + 3 <= s < l.DataStart()) ==> fs.img[s] == fs0.img[s])
    && OnlyAddrs(fs0, fs, i)
  }

  /** What itrunc achieves: exactly the blocks of file i are free again. */
  ghost predicate Truncated(l: Layout, fs: Fs, owner: Owner, fs': Fs, owner': Owner, i: nat)
    requires i < l.ninodes
  {
    && Owns(l, fs', owner') && Shape(l, fs)
    && (forall k: nat :: k < SLOTS ==> SlotAddr(fs', i, k) == 0)
    && (forall b :: b in owner' <==> b in owner && owner[b].0 != i)
    && (forall b :: b in owner' ==> owner'[b] == owner[b])
    && (forall b :: 0 <= b < l.size ==>
          (Marked(l, fs'.img, b) <==> Marked(l, fs.img, b) && !(b in owner && owner[b].0 == i)))
    && fs'.inode[i].size == 0
    && (forall j: nat, pos: nat :: j < l.ninodes && j != i && pos < MAXBYTES ==>
          FileByte(fs', j, pos) == FileByte(fs, j, pos))
    && (forall j :: 0 <= j < l.ninodes && j != i ==> fs'.inode[j] == fs.inode[j])
  }

  lemma DataSameSlots(l: Layout, fs: Fs, owner: Owner, fs': Fs, i: nat, n: nat)
    requires OwnsBut(l, fs, owner, i, n) && Shape(l, fs') && fs'.inode == fs.inode
    requires forall s :: l.DataStart() <= s < l.size ==> fs'.img[s] == fs.img[s]
    ensures forall j: nat, m: nat :: j < l.ninodes && m < SLOTS ==> SlotAddr(fs', j, m) == SlotAddr(fs, j, m)
  {
    hide Word, Marked;
    forall j: nat, m: nat | j < l.ninodes && m < SLOTS ensures SlotAddr(fs', j, m) == SlotAddr(fs, j, m) {
      if fs.inode[j].addrs[NDIRECT] != 0 {
        IndirectInRange(l, fs, owner, i, n, j);
      }
    }
  }

  /** "freeing free block" cannot happen: what a slot names is marked. */
  lemma Freeable(l: Layout, fs: Fs, owner: Owner, i: nat, n: nat, k: nat)
    requires OwnsBut(l, fs, owner, i, n) && i < l.ninodes && k < SLOTS && !(NDIRECT < k <= NDIRECT + n)
    requires SlotAddr(fs, i, k) != 0
    ensures l.DataStart() <= SlotAddr(fs, i, k) < l.size && Marked(l, fs.img, SlotAddr(fs, i, k))
    ensures SlotAddr(fs, i, k) in owner && owner[SlotAddr(fs, i, k)] == (i, k)
  {
    hide SlotAddr, Marked;
    assert SlotOk(fs, owner, i, k);
    assert OwnerOk(l, fs, owner, SlotAddr(fs, i, k));
  }

  lemma TruncatingStep(l: Layout, fs0: Fs, owner0: Owner, fs: Fs, owner: Owner, fs': Fs, i: nat, n: nat, n': nat, b: nat)
    requires Truncating(l, fs0, owner0, fs, owner, i, n) && OwnsBut(l, fs', owner - {b}, i, n')
    requires b in owner && owner[b].0 == i && b < l.size && OnlyAddrs(fs, fs', i)
    requires l.DataStart() <= |fs.img| && Unmarked(l, fs.img, fs'.img, b)
    ensures Truncating(l, fs0, owner0, fs', owner - {b}, i, n')
  {
    hide OwnsBut, Marked;
    assert Shape(l, fs') && Shape(l, fs) by { OwnsButShape(l, fs', owner - {b}, i, n'); OwnsButShape(l, fs, owner, i, n); }
    BblockBound(l, b);
  }

  lemma OwnsButShape(l: Layout, fs: Fs, owner: Owner, i: nat, n: nat)
    requires OwnsBut(l, fs, owner, i, n)
    ensures Shape(l, fs)
  {
  }

  lemma FreeAddrStep(l: Layout, fs: Fs, owner: Owner, fs': Fs, i: nat, k: nat)
    requires OwnsBut(l, fs, owner, i, 0) && i < l.ninodes && k < NDIRECT && SlotAddr(fs, i, k) != 0
    requires SlotAddr(fs, i, k) < l.size && Unmarked(l, fs.img, fs'.img, SlotAddr(fs, i, k))
    requires fs'.inode == fs.inode[i := fs.inode[i].(addrs := fs.inode[i].addrs[k := 0])]
    ensures OwnsBut(l, fs', owner - {SlotAddr(fs, i, k)}, i, 0)
  {
    hide Marked, Unmarked;
    UnmarkKeepsData(l, fs.img, fs'.img, SlotAddr(fs, i, k));
    ClearAddrSlots(l, fs, owner, fs', i, 0, k);
    DropOwner(l, fs, owner, fs', i, 0, k, 0);
  }

  lemma FreeEntryStep(l: Layout, fs: Fs, owner: Owner, fs': Fs, i: nat, n: nat)
    requires OwnsBut(l, fs, owner, i, n) && i < l.ninodes && n < NINDIRECT
    requires SlotAddr(fs, i, NDIRECT + 1 + n) != 0 && SlotAddr(fs, i, NDIRECT + 1 + n) < l.size
    requires fs'.inode == fs.inode && Unmarked(l, fs.img, fs'.img, SlotAddr(fs, i, NDIRECT + 1 + n))
    ensures OwnsBut(l, fs', owner - {SlotAddr(fs, i, NDIRECT + 1 + n)}, i, n + 1)
  {
    hide Marked, Unmarked;
    UnmarkKeepsData(l, fs.img, fs'.img, SlotAddr(fs, i, NDIRECT + 1 + n));
    DataSameSlots(l, fs, owner, fs', i, n);
    DropOwner(l, fs, owner, fs', i, n, NDIRECT + 1 + n, n + 1);
  }

  lemma FreeIndirectStep(l: Layout, fs: Fs, owner: Owner, fs': Fs, i: nat)
    requires OwnsBut(l, fs, owner, i, NINDIRECT) && i < l.ninodes && SlotAddr(fs, i, NDIRECT) != 0
    requires SlotAddr(fs, i, NDIRECT) < l.size && Unmarked(l, fs.img, fs'.img, SlotAddr(fs, i, NDIRECT))
    requires fs'.inode == fs.inode[i := fs.inode[i].(addrs := fs.inode[i].addrs[NDIRECT := 0])]
    ensures OwnsBut(l, fs', owner - {SlotAddr(fs, i, NDIRECT)}, i, 0)
  {
    hide Marked, Unmarked;
    UnmarkKeepsData(l, fs.img, fs'.img, SlotAddr(fs, i, NDIRECT));
    ClearAddrSlots(l, fs, owner, fs', i, NINDIRECT, NDIRECT);
    DropIndirect(l, fs, owner, fs', i);
    OwnsButNone(l, fs', owner - {SlotAddr(fs, i, NDIRECT)}, i);
  }

  lemma TruncatingStart(l: Layout, fs: Fs, owner: Owner, i: nat)
    requires Owns(l, fs, owner)
    ensures Truncating(l, fs, owner, fs, owner, i, 0) && Shape(l, fs)
  {
    hide Marked, SlotAddr;
    OwnsButNone(l, fs, owner, i);
  }

  lemma TruncatedBy(l: Layout, fs0: Fs, owner0: Owner, mid: Fs, fs': Fs, owner: Owner, i: nat)
    requires Owns(l, fs0, owner0) && Truncating(l, fs0, owner0, mid, owner, i, 0) && i < l.ninodes
    requires Owns(l, fs', owner) && SameSlots(mid, fs') && SameBytes(mid, fs')
    requires forall m :: 0 <= m <= NDIRECT ==> mid.inode[i].addrs[m] == 0
    requires fs'.inode[i].size == 0 && forall j :: 0 <= j < l.ninodes && j != i ==> fs'.inode[j] == mid.inode[j]
    ensures Truncated(l, fs0, owner0, fs', owner, i)
  {
    hide Marked, Word;
    forall k: nat | k < SLOTS ensures SlotAddr(fs', i, k) == 0 {
      assert SlotAddr(mid, i, k) == 0;
    }
    forall b | b in owner ensures owner[b].0 != i {
      assert OwnerOk(l, fs', owner, b);
    }
    OthersSame(l, fs0, owner0, mid, i);
    forall j: nat, pos: nat | j < l.ninodes && j != i && pos < MAXBYTES
      ensures FileByte(fs', j, pos) == FileByte(fs0, j, pos)
    {
      assert FileByte(fs', j, pos) == FileByte(mid, j, pos);
    }
    forall b | b in owner0 ensures l.DataStart() <= b {
      assert OwnerOk(l, fs0, owner0, b);
    }
  }

  /** filewrite's chunk: at most ((LOGSIZE-1-1-2) / 2) * 512 bytes. */
  function ChunkSize(n: nat): (m: nat)
    ensures m <= n && m <= 1536 && (n > 0 ==> m > 0)
  {
    var max := (LogDisk.LOGSIZE - 1 - 1 - 2) / 2 * 512;
    if n > max then max else n
  }

  /** A chunk at any offset reaches into at most four blocks. */
  lemma ChunkBlocks(off: nat, n: nat)
    requires 0 < n <= 1536
    ensures EndBlock(off, n) - off / BSIZE <= 4
  {
  }

  /** Sectors logged by one chunk: at most four blocks, the indirect block, the inode
      and the bitmap. */
  lemma ChunkLogs(l: Layout, fs: Fs, i: nat, off: nat, n: nat, logged: set<nat>, done: bool)
    requires i < |fs.inode| && 0 < n <= 1536
    requires !done ==> logged == {}
    requires done ==>
      EndBlock(off, n) <= MAXFILE && logged <= {} + {l.Iblock(i)} + TouchedBlocks(l, fs, i, off / BSIZE, EndBlock(off, n))
    ensures |logged| <= 7 + l.size / BPB
  {
    if done {
      ChunkBlocks(off, n);
      var t := TouchedBlocks(l, fs, i, off / BSIZE, EndBlock(off, n));
      SubsetSize(logged, {l.Iblock(i)} + t);
    }
  }

  lemma OverwrittenMore(c: seq<byte>, off: nat, a: seq<byte>, b: seq<byte>)
    requires off <= |c|
    ensures off + |a| <= |Overwritten(c, off, a)|
    ensures Overwritten(Overwritten(c, off, a), off + |a|, b) == Overwritten(c, off, a + b)
  {
  }

  lemma WroteMore(fs: Fs, mid: Fs, fs': Fs, i: nat, off: nat, addr: seq<byte>, k: nat, n: nat)
    requires i < |fs.inode| && fs.inode[i].size <= MAXBYTES && k + n <= |addr|
    requires k == 0 ==> mid == fs
    requires k > 0 ==> WroteFile(fs, mid, i, off, addr[..k])
    requires i < |mid.inode| && mid.inode[i].size <= MAXBYTES && WroteFile(mid, fs', i, off + k, addr[k..k + n])
    ensures WroteFile(fs, fs', i, off, addr[..k + n])
    ensures off <= fs.inode[i].size && off + k + n <= fs'.inode[i].size <= MAXBYTES
    ensures fs'.inode[i].kind == mid.inode[i].kind
  {
    hide Contents, Overwritten;
    if k > 0 {
      OverwrittenMore(Contents(fs, i), off, addr[..k], addr[k..k + n]);
      assert addr[..k] + addr[k..k + n] == addr[..k + n];
    } else {
      assert addr[..n] == addr[0..n];
    }
    OverwrittenLength(Contents(mid, i), off + k, addr[k..k + n]);
  }

  lemma OverwrittenLength(c: seq<byte>, off: nat, src: seq<byte>)
    requires off <= |c|
    ensures |Overwritten(c, off, src)| == if off + |src| > |c| then off + |src| else |c|
  {
  }

  /** The image after a sequence of committed transactions. */
  ghost function AllWritten(img: seq<Block>, txns: seq<seq<LogMachine.Event>>): seq<Block> {
    if txns == [] then img
    else LogMachine.Written(AllWritten(img, txns[..|txns| - 1]), txns[|txns| - 1])
  }

  lemma MoreWritten(img: seq<Block>, txns: seq<seq<LogMachine.Event>>, ws: seq<LogMachine.Event>)
    ensures AllWritten(img, txns + [ws]) == LogMachine.Written(AllWritten(img, txns), ws)
  {
    assert (txns + [ws])[..|txns|] == txns;
  }

  lemma NoneWritten(img: seq<Block>)
    ensures AllWritten(img, []) == img
  {
  }

  /** Everything a method of the file system may change. */
  datatype Snapshot = Snapshot(fs: Fs, owner: Owner, tape: Journal)

  /** What looking at blocks lo .. hi-1 of file i has done: they are mapped and paid for, the
      bytes of all files are as before, and nothing at all has changed exactly if they were
      mapped before. */
  ghost predicate Mapping(l: Layout, a: Snapshot, b: Snapshot, i: nat, lo: nat, hi: nat) {
    && Paid(l, a.fs, a.owner, b.fs, b.owner, i, lo, hi) && AllMapped(b.fs, i, lo, hi)
    && Grew(a.fs, b.fs) && OnlyAddrs(a.fs, b.fs, i) && SameBytes(a.fs, b.fs)
    && SameInodeSectors(l, a.fs.img, b.fs.img)
    && (b.fs.inode == a.fs.inode <==> AllReady(a.fs, i, lo, hi))
    && (AllMapped(a.fs, i, lo, hi) ==> b == a)
  }

  lemma MappingNone(l: Layout, a: Snapshot, i: nat, lo: nat)
    requires lo <= MAXFILE && i < |a.fs.inode|
    ensures Mapping(l, a, a, i, lo, lo)
  {
    hide Paid, Grew, OnlyAddrs, SameBytes;
    PaidNone(l, a.fs, a.owner, i, lo);
    SameGrew(a.fs, i);
  }

  /** One round: bmap of block hi. */
  ghost predicate Mapped(l: Layout, a: Snapshot, b: Snapshot, i: nat, bn: nat)
    requires bn < MAXFILE
  {
    && i < |a.fs.inode| && i < |b.fs.inode|
    && OnlyPath(a.fs, b.fs, i, bn) && BlockAddr(b.fs, i, bn) != 0 && Took(l, a.owner, b.owner, Need(a.fs, i, bn))
    && Grew(a.fs, b.fs) && OnlyAddrs(a.fs, b.fs, i) && SameBytes(a.fs, b.fs)
    && SameInodeSectors(l, a.fs.img, b.fs.img)
    && (b.fs.inode == a.fs.inode <==> AddrReady(a.fs, i, bn))
    && (BlockAddr(a.fs, i, bn) != 0 ==> b == a)
  }

  lemma MappingMore(l: Layout, a: Snapshot, m: Snapshot, b: Snapshot, i: nat, lo: nat, hi: nat)
    requires Mapping(l, a, m, i, lo, hi) && lo <= hi < MAXFILE && Mapped(l, m, b, i, hi)
    ensures Mapping(l, a, b, i, lo, hi + 1)
  {
    hide Paid, Took, Grew, OnlyPath, SlotAddr, Need, OnlyAddrs, SameBytes, AllReady, AddrReady;
    assert i < |a.fs.inode| by { PaidBounds(l, a.fs, a.owner, m.fs, m.owner, i, lo, hi); }
    PaidMore(l, a.fs, a.owner, m.fs, m.owner, b.fs, b.owner, i, lo, hi);
    AddrsGrow(m.fs, b.fs, i, lo, hi);
    Chain(a.fs, m.fs, b.fs, i);
    SameBytesChain(a.fs, m.fs, b.fs);
    ReadyMore(a.fs, m.fs, b.fs, i, lo, hi);
    if AllMapped(a.fs, i, lo, hi + 1) {
      MappedAt(a.fs, i, lo, hi + 1, hi);
    }
  }

  /** Looking at the next block afterwards. */
  lemma MappingJoin(l: Layout, a: Snapshot, m: Snapshot, b: Snapshot, i: nat, lo: nat, hi: nat)
    requires Mapping(l, a, m, i, lo, hi) && lo <= hi < MAXFILE && Mapping(l, m, b, i, hi, hi + 1)
    ensures Mapping(l, a, b, i, lo, hi + 1)
  {
    hide Paid, Grew, SlotAddr, OnlyAddrs, SameBytes, AllReady, AddrReady;
    assert i < |a.fs.inode| && i < |m.fs.inode| by { PaidBounds(l, a.fs, a.owner, m.fs, m.owner, i, lo, hi); }
    PaidJoin(l, a.fs, a.owner, m.fs, m.owner, b.fs, b.owner, i, lo, hi, hi + 1);
    AddrsGrow(m.fs, b.fs, i, lo, hi);
    Chain(a.fs, m.fs, b.fs, i);
    SameBytesChain(a.fs, m.fs, b.fs);
    assert AllReady(m.fs, i, hi, hi + 1) <==> AddrReady(m.fs, i, hi) by { ReadyOne(m.fs, i, hi); }
    ReadyMore(a.fs, m.fs, b.fs, i, lo, hi);
    if AllMapped(a.fs, i, lo, hi + 1) {
      MappedAt(a.fs, i, lo, hi + 1, hi);
    }
  }

  lemma ReadyOne(fs: Fs, i: nat, bn: nat)
    requires i < |fs.inode|
    ensures AllReady(fs, i, bn, bn + 1) <==> AddrReady(fs, i, bn)
  {
  }

  /** Looking at a block again changes nothing. */
  lemma MappingAgain(l: Layout, a: Snapshot, m: Snapshot, b: Snapshot, i: nat, lo: nat, hi: nat, bn: nat)
    requires Mapping(l, a, m, i, lo, hi) && lo <= bn < hi && Mapping(l, m, b, i, bn, bn + 1)
    ensures b == m
  {
    hide Paid, Grew, SlotAddr, OnlyAddrs, SameBytes, AllReady;
    assert i < |m.fs.inode| && hi <= MAXFILE by { PaidBounds(l, a.fs, a.owner, m.fs, m.owner, i, lo, hi); }
    MappedAt(m.fs, i, lo, hi, bn);
  }

  /** An unmapped block on the way means that not all blocks were mapped. */
  lemma MappingStuck(l: Layout, a: Snapshot, m: Snapshot, i: nat, lo: nat, hi: nat, end: nat)
    requires Mapping(l, a, m, i, lo, hi) && lo <= hi < end <= MAXFILE
    requires i < |m.fs.inode| && i < |a.fs.inode| && BlockAddr(m.fs, i, hi) == 0
    ensures !AllMapped(a.fs, i, lo, end)
  {
    hide Paid, SlotAddr, Grew, OnlyAddrs, SameBytes, AllReady;
    if AllMapped(a.fs, i, lo, end) {
      MappedAt(a.fs, i, lo, end, hi);
    }
  }

  lemma MappingShort(l: Layout, a: Snapshot, m: Snapshot, i: nat, lo: nat, hi: nat, end: nat)
    requires Mapping(l, a, m, i, lo, hi) && lo <= hi < end <= MAXFILE
    requires i < |m.fs.inode| && i < |a.fs.inode| && |AllFree(l, m.owner)| < Need(m.fs, i, hi)
    ensures |AllFree(l, a.owner)| < Missing(a.fs, i, lo, end)
  {
    hide Paid, SlotAddr, Grew, OnlyAddrs, SameBytes, AllReady, AllFree, Need, Missing;
    PaidShort(l, a.fs, a.owner, m.fs, m.owner, i, lo, hi, end);
  }

  lemma MappingDone(l: Layout, a: Snapshot, b: Snapshot, i: nat, lo: nat, hi: nat)
    requires Mapping(l, a, b, i, lo, hi)
    ensures i < |a.fs.inode| && i < |b.fs.inode| && hi <= MAXFILE
    ensures Grew(a.fs, b.fs) && OnlyAddrs(a.fs, b.fs, i) && SameBytes(a.fs, b.fs)
    ensures SameInodeSectors(l, a.fs.img, b.fs.img)
    ensures b.fs == a.fs <==> AllMapped(a.fs, i, lo, hi)
    ensures AllMapped(a.fs, i, lo, hi) ==> b == a
    ensures |AllFree(l, a.owner)| >= Missing(a.fs, i, lo, hi)
  {
    hide Grew, OnlyAddrs, SameBytes, AllReady, Missing, AllFree, HomeFree, InHome;
  }

  lemma PaidBounds(l: Layout, before: Fs, owner0: Owner, fs: Fs, owner: Owner, i: nat, lo: nat, hi: nat)
    requires Paid(l, before, owner0, fs, owner, i, lo, hi)
    ensures i < |before.inode| && i < |fs.inode| && hi <= MAXFILE
    ensures Took(l, owner0, owner, Missing(before, i, lo, hi))
  {
  }

  lemma PaidEnough(l: Layout, before: Fs, owner0: Owner, fs: Fs, owner: Owner, i: nat, lo: nat, hi: nat)
    requires Paid(l, before, owner0, fs, owner, i, lo, hi)
    ensures hi <= MAXFILE && i < |before.inode| && |AllFree(l, owner0)| >= Missing(before, i, lo, hi)
  {
    hide AllFree, HomeFree, InHome, Missing;
  }

  /** One past the last block that readi of n bytes from off on looks at. */
  ghost function ReadEnd(fs: Fs, i: nat, off: nat, n: nat): (e: nat)
    requires i < |fs.inode| && off <= fs.inode[i].size <= MAXBYTES
    ensures e <= MAXFILE
  {
    EndBlock(off, if off + n <= fs.inode[i].size then n else fs.inode[i].size - off)
  }

  /** writei's loop after tot bytes: what the file has gained so far, the sectors logged for
      it, and whether the in-memory inode had to change. */
  ghost predicate Copied(l: Layout, before: Fs, fs: Fs, log0: set<nat>, log: set<nat>,
                         i: nat, off: nat, src: seq<byte>, tot: nat)
  {
    && tot <= |src| && EndBlock(off, tot) <= MAXFILE && i < |before.inode| && i < |fs.inode|
    && SameInodeSectors(l, before.img, fs.img) && Grew(before, fs) && OnlyAddrs(before, fs, i)
    && Patched(before, fs, i, off, src[..tot]) && AllMapped(fs, i, off / BSIZE, EndBlock(off, tot))
    && (tot > 0 ==> log <= log0 + TouchedBlocks(l, fs, i, off / BSIZE, EndBlock(off, tot)))
    && (tot == 0 ==> log == log0)
    && (fs.inode == before.inode <==> AllReady(before, i, off / BSIZE, EndBlock(off, tot)))
  }

  lemma CopiedNone(l: Layout, before: Fs, log: set<nat>, i: nat, off: nat, src: seq<byte>)
    requires i < |before.inode| && off + |src| <= MAXBYTES
    ensures Copied(l, before, before, log, log, i, off, src, 0)
  {
    hide Grew, Patched, OnlyAddrs, AllReady, AllMapped, EndBlock;
    assert src[..0] == [];
    EndBlocks(off, 0, |src|);
    SameGrew(before, i);
    MappedNone(before, i, off / BSIZE);
    PatchNothing(before, i, off);
    ReadyNothing(before, i, off / BSIZE);
  }

  lemma CopiedMapped(l: Layout, before: Fs, mid: Fs, log0: set<nat>, log: set<nat>,
                     i: nat, off: nat, src: seq<byte>, tot: nat)
    requires Copied(l, before, mid, log0, log, i, off, src, tot) && off + |src| <= MAXBYTES
    requires tot < |src| && (tot == 0 || (off + tot) % BSIZE == 0)
    ensures i < |before.inode| && i < |mid.inode| && EndBlock(off, |src|) <= MAXFILE && EndBlock(off, tot) < MAXFILE
    ensures AllMapped(before, i, off / BSIZE, EndBlock(off, |src|)) ==> BlockAddr(mid, i, EndBlock(off, tot)) != 0
  {
    hide Grew, Patched, OnlyAddrs, AllReady, AllMapped, EndBlock, BlockAddr;
    EndBlocks(off, tot, |src|);
    if AllMapped(before, i, off / BSIZE, EndBlock(off, |src|)) {
      AddrsGrow(before, mid, i, off / BSIZE, EndBlock(off, |src|));
      MappedAt(mid, i, off / BSIZE, EndBlock(off, |src|), EndBlock(off, tot));
    }
  }

  lemma CopiedStop(l: Layout, before: Fs, mid: Fs, fs: Fs, log0: set<nat>, log: set<nat>,
                   i: nat, off: nat, src: seq<byte>, tot: nat)
    requires Copied(l, before, mid, log0, log, i, off, src, tot)
    requires SameInodeSectors(l, mid.img, fs.img) && Grew(mid, fs) && OnlyAddrs(mid, fs, i)
    ensures SameInodeSectors(l, before.img, fs.img) && Grew(before, fs) && OnlyAddrs(before, fs, i)
  {
    hide Grew, Patched, OnlyAddrs, AllReady, AllMapped, EndBlock;
    Chain(before, mid, fs, i);
  }

  lemma CopiedMore(l: Layout, before: Fs, mid: Fs, fs: Fs, log0: set<nat>, log1: set<nat>, log2: set<nat>,
                   i: nat, off: nat, src: seq<byte>, tot: nat, m: nat)
    requires Copied(l, before, mid, log0, log1, i, off, src, tot) && 0 < m && tot + m <= |src|
    requires EndBlock(off, tot) == (off + tot) / BSIZE < MAXFILE && EndBlock(off, tot + m) == EndBlock(off, tot) + 1
    requires off / BSIZE <= EndBlock(off, tot) && i < |fs.inode|
    requires SameInodeSectors(l, mid.img, fs.img) && Grew(mid, fs) && OnlyAddrs(mid, fs, i)
    requires Patched(mid, fs, i, off + tot, src[tot..tot + m]) && BlockAddr(fs, i, EndBlock(off, tot)) != 0
    requires i < |mid.inode| && (fs.inode == mid.inode <==> AddrReady(mid, i, EndBlock(off, tot)))
    requires log2 <= log1 + TouchedBlocks(l, fs, i, EndBlock(off, tot), EndBlock(off, tot) + 1)
    ensures Copied(l, before, fs, log0, log2, i, off, src, tot + m)
  {
    hide Grew, Patched, OnlyAddrs, AllReady, AddrReady, AllMapped, EndBlock, BlockAddr, TouchedBlocks;
    var lo, e := off / BSIZE, EndBlock(off, tot);
    CopiedStop(l, before, mid, fs, log0, log1, i, off, src, tot);
    PatchMore(before, mid, fs, i, off, src, tot, m);
    TouchedGrows(l, mid, fs, i, lo, e);
    ReadyMore(before, mid, fs, i, lo, e);
    if tot > 0 {
      SubsetChain(log0, log1, log2, TouchedBlocks(l, mid, i, lo, e), TouchedBlocks(l, fs, i, e, e + 1),
        TouchedBlocks(l, fs, i, lo, e + 1));
    }
  }

  lemma CopiedAll(l: Layout, before: Fs, fs: Fs, log0: set<nat>, log: set<nat>, i: nat, off: nat, src: seq<byte>)
    requires Copied(l, before, fs, log0, log, i, off, src, |src|)
    ensures EndBlock(off, |src|) <= MAXFILE && i < |before.inode| && i < |fs.inode|
    ensures SameInodeSectors(l, before.img, fs.img) && Grew(before, fs) && OnlyAddrs(before, fs, i)
    ensures Patched(before, fs, i, off, src) && AllMapped(fs, i, off / BSIZE, EndBlock(off, |src|))
    ensures src != [] ==> log <= log0 + TouchedBlocks(l, fs, i, off / BSIZE, EndBlock(off, |src|))
    ensures fs.inode == before.inode <==> AllReady(before, i, off / BSIZE, EndBlock(off, |src|))
  {
    hide Grew, Patched, OnlyAddrs, AllReady, AllMapped, EndBlock, TouchedBlocks;
    assert src[..|src|] == src;
  }

  // ---- filewrite, chunk by chunk ----

  /** The file system when a transaction of filewrite has committed, n bytes being written. */
  datatype Stage = Stage(fs: Fs, owner: Owner, n: nat)

  /** The first n bytes are laid over the contents, n being a number of whole chunks or all. */
  ghost predicate Laid(first: Stage, st: Stage, i: nat, off: nat, addr: seq<byte>) {
    && i < |first.fs.inode| && first.fs.inode[i].size <= MAXBYTES && st.n <= |addr|
    && (st.n % 1536 == 0 || st.n == |addr|)
    && (st.n == 0 ==> st.fs == first.fs && st.owner == first.owner)
    && (st.n > 0 ==> WroteFile(first.fs, st.fs, i, off, addr[..st.n]))
  }

  /** The blocks they needed are mapped and paid for. */
  ghost predicate Bought(l: Layout, first: Stage, st: Stage, i: nat, off: nat) {
    && i < |first.fs.inode| && i < |st.fs.inode|
    && (st.n > 0 ==>
          && Paid(l, first.fs, first.owner, st.fs, st.owner, i, off / BSIZE, EndBlock(off, st.n))
          && AllMapped(st.fs, i, off / BSIZE, EndBlock(off, st.n)))
  }

  /** The other inodes and their sectors are untouched; a file without holes stays one, and
      its inode on disk stays up to date. */
  ghost predicate Beside(l: Layout, fs: Fs, fs': Fs, i: nat) {
    && Shape(l, fs) && Shape(l, fs') && i < l.ninodes
    && (forall j :: 0 <= j < l.ninodes && j != i ==> fs'.inode[j] == fs.inode[j])
    && (forall s :: 0 <= s < l.ninodes + 3 && s != l.Iblock(i) ==> fs'.img[s] == fs.img[s])
    && (NoHoles(fs, i) ==> NoHoles(fs', i) && (Synced(l, fs, i) ==> Synced(l, fs', i)))
  }

  ghost predicate StageOk(l: Layout, first: Stage, st: Stage, i: nat, off: nat, addr: seq<byte>) {
    && Owns(l, st.fs, st.owner) && Laid(first, st, i, off, addr) && Bought(l, first, st, i, off)
    && Beside(l, first.fs, st.fs, i)
  }

  /** The stages a filewrite goes through, and the log writes that lead from each to the next. */
  ghost predicate Staged(l: Layout, stages: seq<Stage>, txns: seq<seq<LogMachine.Event>>, i: nat, off: nat, addr: seq<byte>) {
    && |stages| == |txns| + 1
    && (forall k :: 0 <= k < |stages| ==> StageOk(l, stages[0], stages[k], i, off, addr))
    && (forall k :: 0 <= k < |txns| ==> stages[k + 1].fs.img == LogMachine.Written(stages[k].fs.img, txns[k]))
    && (forall k :: 0 <= k < |txns| ==> stages[k].n <= stages[k + 1].n)
  }

  lemma StagedNone(l: Layout, st: Stage, i: nat, off: nat, addr: seq<byte>)
    requires Owns(l, st.fs, st.owner) && i < l.ninodes && st.fs.inode[i].size <= MAXBYTES && st.n == 0
    ensures Staged(l, [st], [], i, off, addr)
  {
    hide Owns, NoHoles, Synced;
    OwnsShape(l, st.fs, st.owner);
  }

  lemma StagedMore(l: Layout, stages: seq<Stage>, txns: seq<seq<LogMachine.Event>>, st: Stage, ws: seq<LogMachine.Event>,
                   i: nat, off: nat, addr: seq<byte>)
    requires Staged(l, stages, txns, i, off, addr) && StageOk(l, stages[0], st, i, off, addr)
    requires st.fs.img == LogMachine.Written(stages[|txns|].fs.img, ws) && stages[|txns|].n <= st.n
    ensures Staged(l, stages + [st], txns + [ws], i, off, addr)
  {
    hide StageOk;
  }

  /** Where the next chunk starts, in blocks. */
  lemma ChunkJoin(off: nat, n: nat, m: nat)
    requires m > 0
    ensures EndBlock(off, n + m) == EndBlock(off + n, m)
    ensures n == 0 ==> (off + n) / BSIZE == off / BSIZE
    ensures n > 0 ==>
      off / BSIZE < EndBlock(off, n) && ((off + n) / BSIZE == EndBlock(off, n) || (off + n) / BSIZE == EndBlock(off, n) - 1)
    ensures EndBlock(off, n) <= EndBlock(off, n + m)
  {
  }

  lemma BoughtNext(l: Layout, first: Stage, st: Stage, fs': Fs, owner': Owner, i: nat, off: nat, m: nat)
    requires Bought(l, first, st, i, off) && m > 0 && i < |fs'.inode|
    requires st.n == 0 ==> st.fs == first.fs && st.owner == first.owner
    requires Paid(l, st.fs, st.owner, fs', owner', i, (off + st.n) / BSIZE, EndBlock(off + st.n, m)) && Grew(st.fs, fs')
    requires EndBlock(off + st.n, m) <= MAXFILE && AllMapped(fs', i, (off + st.n) / BSIZE, EndBlock(off + st.n, m))
    ensures Bought(l, first, Stage(fs', owner', st.n + m), i, off)
  {
    hide Paid, EndBlock, Grew, SlotAddr, AllMapped;
    var lo, e, e', b := off / BSIZE, EndBlock(off, st.n), EndBlock(off + st.n, m), (off + st.n) / BSIZE;
    ChunkJoin(off, st.n, m);
    if st.n > 0 {
      PaidBounds(l, first.fs, first.owner, st.fs, st.owner, i, lo, e);
      if b == e {
        PaidJoin(l, first.fs, first.owner, st.fs, st.owner, fs', owner', i, lo, e, e');
      } else {
        MappedAt(st.fs, i, lo, e, e - 1);
        PaidOverlap(l, first.fs, first.owner, st.fs, st.owner, fs', owner', i, lo, e, e');
      }
      AddrsGrow(st.fs, fs', i, lo, e);
      MappedBoth(fs', i, lo, e, b, e');
    }
  }

  lemma MappedBoth(fs: Fs, i: nat, lo: nat, e: nat, b: nat, e': nat)
    requires i < |fs.inode| && b <= e && e <= MAXFILE && e' <= MAXFILE && AllMapped(fs, i, lo, e) && AllMapped(fs, i, b, e')
    ensures AllMapped(fs, i, lo, e')
  {
    hide SlotAddr;
  }

  lemma BesideChain(l: Layout, a: Fs, b: Fs, c: Fs, i: nat)
    requires Beside(l, a, b, i) && Beside(l, b, c, i)
    ensures Beside(l, a, c, i)
  {
    hide NoHoles, Synced;
  }

  lemma LaidNext(first: Stage, st: Stage, fs': Fs, owner': Owner, i: nat, off: nat, addr: seq<byte>, m: nat)
    requires Laid(first, st, i, off, addr) && 0 < m && st.n + m <= |addr| && (m == 1536 || st.n + m == |addr|)
    requires st.n % 1536 == 0 && i < |st.fs.inode| && st.fs.inode[i].size <= MAXBYTES
    requires WroteFile(st.fs, fs', i, off + st.n, addr[st.n..st.n + m])
    ensures Laid(first, Stage(fs', owner', st.n + m), i, off, addr)
  {
    hide WroteFile;
    WroteMore(first.fs, st.fs, fs', i, off, addr, st.n, m);
  }

  /** What a transaction of filewrite does that writes a piece of the data. */
  ghost predicate ChunkWrote(l: Layout, fs: Fs, owner: Owner, fs': Fs, owner': Owner, i: nat, off: nat, piece: seq<byte>,
                             ws: seq<LogMachine.Event>)
  {
    var lo, e := off / BSIZE, EndBlock(off, |piece|);
    && i < l.ninodes && Shape(l, fs) && Shape(l, fs') && Owns(l, fs', owner') && piece != [] && off + |piece| <= MAXBYTES
    && fs.inode[i].size <= MAXBYTES && WroteFile(fs, fs', i, off, piece) && fs'.img == LogMachine.Written(fs.img, ws)
    && e <= MAXFILE && Grew(fs, fs') && Paid(l, fs, owner, fs', owner', i, lo, e) && AllMapped(fs', i, lo, e)
    && (forall j :: 0 <= j < l.ninodes && j != i ==> fs'.inode[j] == fs.inode[j])
    && (forall s :: 0 <= s < l.ninodes + 3 && s != l.Iblock(i) ==> fs'.img[s] == fs.img[s])
    && (NoHoles(fs, i) ==> NoHoles(fs', i))
    && (Synced(l, fs, i) ==>
          (Synced(l, fs', i) <==> off + |piece| > fs.inode[i].size || AllReady(fs, i, lo, e)))
  }

  lemma ChunkWroteFile(l: Layout, fs: Fs, owner: Owner, fs': Fs, owner': Owner, i: nat, off: nat, piece: seq<byte>,
                       ws: seq<LogMachine.Event>)
    requires ChunkWrote(l, fs, owner, fs', owner', i, off, piece, ws)
    ensures i < |fs.inode| && fs.inode[i].size <= MAXBYTES && WroteFile(fs, fs', i, off, piece)
  {
  }

  lemma ChunkWhole(n: nat)
    ensures ChunkSize(n) == if n > 1536 then 1536 else n
  {
  }

  lemma StageReplays(a: Journal, b: Journal)
    requires Logs(a, b) && a.writes == [] && a.logged == {}
    ensures b.img == LogMachine.Written(a.img, b.writes) && b.logged == Targets(b.writes)
  {
    assert b.writes[0..] == b.writes;
  }

  /** A chunk that fails is a transaction, too, but an empty one. */
  lemma StageAgain(l: Layout, stages: seq<Stage>, txns: seq<seq<LogMachine.Event>>, ws: seq<LogMachine.Event>,
                   i: nat, off: nat, addr: seq<byte>)
    requires Staged(l, stages, txns, i, off, addr) && ws == []
    ensures |stages| == |txns| + 1 && Staged(l, stages + [stages[|txns|]], txns + [ws], i, off, addr)
  {
    hide StageOk;
    StagedMore(l, stages, txns, stages[|txns|], ws, i, off, addr);
  }

  /** A chunk that is written leads to the next stage. */
  lemma StageNext(l: Layout, stages: seq<Stage>, txns: seq<seq<LogMachine.Event>>, fs': Fs, owner': Owner,
                  ws: seq<LogMachine.Event>, i: nat, off: nat, addr: seq<byte>, m: nat)
    requires Staged(l, stages, txns, i, off, addr) && Owns(l, fs', owner')
    requires var st := stages[|txns|];
      && st.n % 1536 == 0 && st.n + m <= |addr| && (m == 1536 || st.n + m == |addr|)
      && ChunkWrote(l, st.fs, st.owner, fs', owner', i, off + st.n, addr[st.n..st.n + m], ws)
    ensures Staged(l, stages + [Stage(fs', owner', stages[|txns|].n + m)], txns + [ws], i, off, addr)
  {
    hide Owns, Paid, WroteFile, AllMapped, Grew, EndBlock, NoHoles, Synced, AllReady;
    var first, st := stages[0], stages[|txns|];
    assert StageOk(l, first, st, i, off, addr);
    LaidNext(first, st, fs', owner', i, off, addr, m);
    BoughtNext(l, first, st, fs', owner', i, off, m);
    if NoHoles(st.fs, i) {
      NoHolesMapped(st.fs, i, off + st.n, m);
    }
    BesideChain(l, first.fs, st.fs, fs', i);
    StagedMore(l, stages, txns, Stage(fs', owner', st.n + m), ws, i, off, addr);
  }

  class FileSystem {
    const l: Layout
    var img: seq<Block>
    var inode: seq<Inode>
    ghost var owner: Owner
    ghost var logged: set<nat>
    ghost var writes: seq<LogMachine.Event>

    constructor (l: Layout, img: seq<Block>, inode: seq<Inode>, ghost owner: Owner)
      requires Owns(l, Fs(img, inode), owner)
      ensures this.l == l && State() == Fs(img, inode) && this.owner == owner && logged == {} && writes == []
    {
      this.l, this.img, this.inode, this.owner, logged, writes := l, img, inode, owner, {}, [];
    }

    ghost function State(): Fs
      reads this
    {
      Fs(img, inode)
    }

    ghost function Tape(): Journal
      reads this
    {
      Journal(img, logged, writes)
    }

    ghost function Now(): Snapshot
      reads this
    {
      Snapshot(State(), owner, Tape())
    }

    /** A buffer changed and passed to log_write. */
    method LogWrite(s: nat, blk: Block)
      requires s < |img|
      modifies this`img, this`logged, this`writes
      ensures Tape() == OneWrite(old(Tape()), s, blk) && Logs(old(Tape()), Tape())
    {
      LogsWrite(Tape(), s, blk);
      img, logged, writes := img[s := blk], logged + {s}, writes + [LogMachine.Wrote(s, blk)];
    }

    /** balloc: the lowest free block, marked and zeroed; None is the panic "balloc:
        out of blocks". */
    method Balloc() returns (r: Option<nat>)
      requires Shape(l, State())
      modifies this`img, this`logged, this`writes
      ensures Logs(old(Tape()), Tape())
      ensures r.None? ==> Tape() == old(Tape()) && Full(l, img)
      ensures r.Some? ==>
        && r.value < l.size && !Marked(l, old(img), r.value)
        && (forall c :: 0 <= c < r.value ==> Marked(l, old(img), c))
        && img == Allocated(l, old(img), r.value)
        && logged == old(logged) + {l.Bblock(r.value), r.value}
        // the scan runs into the log area exactly when everything below it is taken
        && (r.value >= l.LogStart() <==> forall c :: 0 <= c < l.LogStart() ==> Marked(l, old(img), c))
    {
      hide Logs;
      var b := 0;
      while b < l.size
        invariant b % BPB == 0 && Tape() == old(Tape())
        invariant forall c :: 0 <= c < b && c < l.size ==> Marked(l, img, c)
        decreases l.size - b
      {
        BblockBound(l, b);
        var bi := 0;
        while bi < BPB && b + bi < l.size
          invariant 0 <= bi <= BPB && Tape() == old(Tape())
          invariant forall c :: 0 <= c < b + bi && c < l.size ==> Marked(l, img, c)
        {
          assert l.Bblock(b + bi) == l.Bblock(b) && (b + bi) % BPB == bi;
          if !Bit(img[l.Bblock(b)][bi / 8], bi % 8) {
            LogWrite(l.Bblock(b), SectorMark(img[l.Bblock(b)], bi, true));
            ghost var tape1 := Tape();
            LogWrite(b + bi, ZeroBlock());
            LogsChain(old(Tape()), tape1, Tape());
            assert logged == old(logged) + {l.Bblock(b + bi), b + bi};
            return Some(b + bi);
          }
          bi := bi + 1;
        }
        b := b + BPB;
      }
      LogsSelf(Tape());
      return None;
    }

    /** bfree: b is free again and nothing else changes; the panic "freeing free block" is
        its precondition. */
    method Bfree(b: nat)
      requires Shape(l, State()) && b < l.size && Marked(l, img, b)
      modifies this`img, this`logged, this`writes
      ensures Unmarked(l, old(img), img, b)
      ensures logged == old(logged) + {l.Bblock(b)} && Logs(old(Tape()), Tape())
    {
      BblockBound(l, b);
      LogWrite(l.Bblock(b), SectorMark(img[l.Bblock(b)], b % BPB, false));
      UnmarkedBy(l, old(img), b);
    }

    /** bmap: the address of the file's bn-th block, allocating it (and the indirect
        block) if there is none. No file's bytes change. */
    method Bmap(i: nat, bn: nat) returns (r: Option<uint>)
      requires Owns(l, State(), owner) && i < l.ninodes && bn < MAXFILE
      modifies this
      ensures Logs(old(Tape()), Tape())
      ensures Owns(l, State(), owner) && SameBytes(old(State()), State())
      ensures SameInodeSectors(l, old(img), img)
      ensures Grew(old(State()), State()) && OnlyAddrs(old(State()), State(), i)
      ensures r.Some? ==> r.value == BlockAddr(State(), i, bn) != 0
      ensures r.None? ==> Full(l, img)
      ensures BlockAddr(old(State()), i, bn) != 0 ==>
                r.Some? && State() == old(State()) && owner == old(owner) && Tape() == old(Tape())
      ensures r.Some? ==> (inode == old(inode) <==> AddrReady(old(State()), i, bn))
      ensures forall s :: s in logged && s !in old(logged) ==>
                s in Bitmap(l) || s == BlockAddr(State(), i, bn)
                || (s != 0 && s == inode[i].addrs[NDIRECT])
      ensures OnlyPath(old(State()), State(), i, bn)
      ensures r.Some? ==> Took(l, old(owner), owner, Need(old(State()), i, bn))
      ensures r.None? ==> |AllFree(l, old(owner))| < Need(old(State()), i, bn)
    {
      hide Logs, Took, Owns, Word, Grew, SameBytes, OnlySlot, OnlyPath, Full;
      ghost var fs0 := State();
      OwnsShape(l, fs0, owner);
      IndirectSlot(fs0, i);
      if bn < NDIRECT {
        r := BmapAddr(i, bn);
        if r.None? {
          FullFree(l, State(), owner);
        }
        OnlyPathDirect(fs0, State(), i, bn);
        return;
      }
      var ind := BmapAddr(i, NDIRECT);
      ghost var fs1, owner1 := State(), owner;
      if ind.None? {
        FullFree(l, State(), owner);
        OnlyPathNone(fs0, i, bn);
        return None;
      }
      ghost var tape1 := Tape();
      r := BmapEntry(i, bn - NDIRECT);
      LogsChain(old(Tape()), tape1, Tape());
      Chain(fs0, fs1, State(), i);
      SameBytesChain(fs0, fs1, State());
      OnlyPathTwo(fs0, fs1, State(), i, bn);
      if r.Some? {
        TookChain(l, old(owner), owner1, owner, if SlotAddr(fs0, i, NDIRECT) == 0 then 1 else 0,
          if BlockAddr(fs1, i, bn) == 0 then 1 else 0);
      } else {
        FullFree(l, State(), owner);
        TookAll(l, old(owner), owner1, if SlotAddr(fs0, i, NDIRECT) == 0 then 1 else 0);
      }
    }

    /** ip->addrs[k], allocated if it is zero. */
    method BmapAddr(i: nat, k: nat) returns (r: Option<uint>)
      requires Owns(l, State(), owner) && i < l.ninodes && k <= NDIRECT
      modifies this
      ensures Logs(old(Tape()), Tape())
      ensures Owns(l, State(), owner) && SameBytes(old(State()), State())
      ensures SameInodeSectors(l, old(img), img)
      ensures Grew(old(State()), State()) && OnlyAddrs(old(State()), State(), i)
      ensures r.Some? ==> r.value == SlotAddr(State(), i, k) != 0
      ensures r.None? ==> Full(l, img) && State() == old(State()) && owner == old(owner) && Tape() == old(Tape())
      ensures SlotAddr(old(State()), i, k) != 0 ==>
                r.Some? && State() == old(State()) && owner == old(owner) && Tape() == old(Tape())
      ensures r.Some? ==> (inode == old(inode) <==> old(inode[i]).addrs[k] != 0)
      ensures forall s :: s in logged && s !in old(logged) ==> s in Bitmap(l) || s == SlotAddr(State(), i, k)
      ensures OnlySlot(old(State()), State(), i, k)
      ensures r.Some? ==> Took(l, old(owner), owner, if SlotAddr(old(State()), i, k) == 0 then 1 else 0)
    {
      hide Word, Marked, WithMark, Logs, Took;
      LogsSelf(Tape());
      TookNone(l, owner);
      var addr := inode[i].addrs[k];
      if addr == 0 {
        ghost var before := State();
        var b := Balloc();
        if b.None? {
          return None;
        }
        addr := b.value;
        inode := inode[i := inode[i].(addrs := inode[i].addrs[k := addr])];
        LinkAddr(l, before, owner, State(), i, k, addr);
        AllocatedMarks(l, before.img, addr);
        TookOne(l, before, owner, addr, (i, k));
        owner := owner[addr := (i, k)];
        BblockBound(l, addr);
      }
      return Some(addr);
    }

    /** Entry n of the indirect block, allocated if it is zero. */
    method BmapEntry(i: nat, n: nat) returns (r: Option<uint>)
      requires Owns(l, State(), owner) && i < l.ninodes && n < NINDIRECT && inode[i].addrs[NDIRECT] != 0
      modifies this
      ensures Logs(old(Tape()), Tape())
      ensures Owns(l, State(), owner) && SameBytes(old(State()), State())
      ensures SameInodeSectors(l, old(img), img)
      ensures Grew(old(State()), State()) && inode == old(inode)
      ensures r.Some? ==> r.value == SlotAddr(State(), i, NDIRECT + 1 + n) != 0
      ensures r.None? ==> Full(l, img) && State() == old(State()) && owner == old(owner)
      ensures SlotAddr(old(State()), i, NDIRECT + 1 + n) != 0 ==>
                r.Some? && State() == old(State()) && owner == old(owner) && Tape() == old(Tape())
      ensures forall s :: s in logged && s !in old(logged) ==>
                s in Bitmap(l) || s == SlotAddr(State(), i, NDIRECT + 1 + n) || s == inode[i].addrs[NDIRECT]
      ensures OnlySlot(old(State()), State(), i, NDIRECT + 1 + n)
      ensures r.Some? ==> Took(l, old(owner), owner, if SlotAddr(old(State()), i, NDIRECT + 1 + n) == 0 then 1 else 0)
    {
      hide Word, WithWord, Marked, WithMark, Logs, Took;
      LogsSelf(Tape());
      TookNone(l, owner);
      ghost var before := State();
      var bp := inode[i].addrs[NDIRECT];
      assert SlotAddr(before, i, NDIRECT) == bp;
      SlotInRange(l, before, owner, i, NDIRECT);
      var addr := Word(img[bp], n);
      if addr == 0 {
        var b := Balloc();
        if b.None? {
          return None;
        }
        addr := b.value;
        ghost var tape1 := Tape();
        LogWrite(bp, WithWord(img[bp], n, addr));
        LogsChain(old(Tape()), tape1, Tape());
        LinkEntry(l, before, owner, State(), i, n, addr);
        AllocatedMarks(l, before.img, addr);
        TookOne(l, before, owner, addr, (i, NDIRECT + 1 + n));
        owner := owner[addr := (i, NDIRECT + 1 + n)];
        BblockBound(l, addr);
      }
      return Some(addr);
    }

    /** readi on a file or directory: exactly the slice clipped at the size, across
        block boundaries, the direct/indirect boundary and holes. Nothing changes exactly if
        the blocks read are all mapped; a hole is filled, even for reading. */
    method Readi(i: nat, off: uint, n: uint) returns (r: Io<seq<byte>>)
      requires Owns(l, State(), owner) && i < l.ninodes && inode[i].size <= MAXBYTES && inode[i].kind != T_DEV
      modifies this
      ensures Logs(old(Tape()), Tape())
      ensures Owns(l, State(), owner) && SameBytes(old(State()), State())
      ensures r.Failed? <==> off > old(inode[i]).size || off as int + n as int >= 0x1_0000_0000
      ensures r.Failed? ==> Now() == old(Now())
      ensures r.Done? ==> r.value == Clip(Contents(old(State()), i), off, n)
      ensures r.Done? ==> Mapping(l, old(Now()), Now(), i, off / BSIZE, ReadEnd(old(State()), i, off, n))
      ensures r.Done? ==>
                (State() == old(State()) <==>
                 AllMapped(old(State()), i, off / BSIZE, ReadEnd(old(State()), i, off, n)))
      ensures r.OutOfBlocks? ==>
                Full(l, img) && !AllMapped(old(State()), i, off / BSIZE, ReadEnd(old(State()), i, off, n))
      ensures !r.Failed? ==>
                (r.OutOfBlocks? <==>
                 |AllFree(l, old(owner))| < Missing(old(State()), i, off / BSIZE, ReadEnd(old(State()), i, off, n)))
    {
      hide Owns, SameBytes, Contents, Clip, FileByte, Logs, Mapping, Mapped, AllMapped, EndBlock, Full, AllFree, Need, Missing;
      ghost var a, lo: nat := Now(), off / BSIZE;
      LogsSelf(Tape());
      OwnsShape(l, a.fs, owner);
      SlotsSelf(a.fs);
      if off > inode[i].size || (off as int + n as int) % 0x1_0000_0000 < off {
        return Failed;
      }
      var off', n' := off as int, n as int;
      if off' + n' > inode[i].size {
        n' := inode[i].size - off';
      }
      assert EndBlock(off, n') == ReadEnd(a.fs, i, off, n);
      var data: seq<byte>, tot := [], 0;
      EndBlocks(off, 0, n');
      MappingNone(l, a, i, lo);
      while tot < n'
        invariant 0 <= tot <= n' && off' == off + tot && off + n' <= a.fs.inode[i].size
        invariant 0 < tot < n' ==> off' % BSIZE == 0
        invariant Owns(l, State(), owner) && SameBytes(a.fs, State()) && |inode| == l.ninodes
        invariant data == FileBytes(a.fs, i, off, tot) && Logs(a.tape, Tape())
        invariant Mapping(l, a, Now(), i, lo, EndBlock(off, tot))
        decreases n' - tot
      {
        ghost var mid, e := Now(), EndBlock(off, tot);
        EndBlocks(off, tot, n');
        var m := if n' - tot < BSIZE - off' % BSIZE then n' - tot else BSIZE - off' % BSIZE;
        NextBlock(off, tot, m);
        var piece := ReadOne(i, off', m);
        LogsChain(a.tape, mid.tape, Tape());
        SameBytesChain(a.fs, mid.fs, State());
        OwnsShape(l, State(), owner);
        if piece.None? {
          MappingStuck(l, a, mid, i, lo, e, EndBlock(off, n'));
          MappingShort(l, a, mid, i, lo, e, EndBlock(off, n'));
          return OutOfBlocks;
        }
        MappingMore(l, a, mid, Now(), i, lo, e);
        SameBytesSlice(a.fs, mid.fs, i, off', m);
        data := data + piece.value;
        tot, off' := tot + m, off' + m;
      }
      MappingDone(l, a, Now(), i, lo, EndBlock(off, n'));
      ClipBytes(a.fs, i, off, n', n);
      return Done(data);
    }

    /** One round of readi: bmap, copy out of the block. */
    method ReadOne(i: nat, off: nat, m: nat) returns (r: Option<seq<byte>>)
      requires Owns(l, State(), owner) && i < l.ninodes && off % BSIZE + m <= BSIZE && off < MAXBYTES
      modifies this
      ensures Logs(old(Tape()), Tape())
      ensures Owns(l, State(), owner) && SameBytes(old(State()), State())
      ensures r.Some? ==> off + m <= MAXBYTES && r.value == FileBytes(old(State()), i, off, m)
      ensures r.Some? ==> Mapped(l, old(Now()), Now(), i, off / BSIZE)
      ensures r.None? ==> Full(l, img) && BlockAddr(old(State()), i, off / BSIZE) == 0
      ensures r.None? ==> |AllFree(l, old(owner))| < Need(old(State()), i, off / BSIZE)
    {
      hide Logs, Took, Need, OnlyPath, Grew, OnlyAddrs;
      ghost var before := State();
      var a := Bmap(i, off / BSIZE);
      if a.None? {
        return None;
      }
      SlotInRange(l, State(), owner, i, SlotFor(off / BSIZE));
      ReadPiece(State(), i, off, m);
      SameBytesSlice(before, State(), i, off, m);
      return Some(img[a.value][off % BSIZE..off % BSIZE + m]);
    }

    /** One round of writei: bmap, copy into the block, log_write. */
    method WritePiece(i: nat, off: nat, piece: seq<byte>) returns (ok: bool)
      requires Owns(l, State(), owner) && i < l.ninodes
      requires off % BSIZE + |piece| <= BSIZE && off < MAXBYTES
      modifies this
      ensures Logs(old(Tape()), Tape())
      ensures Owns(l, State(), owner) && SameInodeSectors(l, old(img), img)
      ensures Grew(old(State()), State()) && OnlyAddrs(old(State()), State(), i)
      ensures ok ==> Patched(old(State()), State(), i, off, piece) && BlockAddr(State(), i, off / BSIZE) != 0
      ensures !ok ==> Full(l, img)
      ensures BlockAddr(old(State()), i, off / BSIZE) != 0 ==> ok && inode == old(inode)
      ensures ok ==> (inode == old(inode) <==> AddrReady(old(State()), i, off / BSIZE))
      ensures ok ==> logged <= old(logged) + TouchedBlocks(l, State(), i, off / BSIZE, off / BSIZE + 1)
      ensures OnlyPath(old(State()), State(), i, off / BSIZE)
      ensures ok ==> Took(l, old(owner), owner, Need(old(State()), i, off / BSIZE))
      ensures !ok ==> |AllFree(l, old(owner))| < Need(old(State()), i, off / BSIZE)
    {
      hide AllFree, Owns, Grew, Patched, SameBytes, SlotAddr, Logs, OnlyPath, Took, Need, Full;
      hide AddrReady, SameInodeSectors, SameSlots, TouchedBlocks;
      ghost var fs0 := State();
      var a := Bmap(i, off / BSIZE);
      OwnsShape(l, State(), owner);
      if a.None? {
        return false;
      }
      ghost var fs1 := State();
      SlotInRange(l, fs1, owner, i, SlotFor(off / BSIZE));
      var o := off % BSIZE;
      var blk := img[a.value][..o] + piece + img[a.value][o + |piece|..];
      ghost var tape1 := Tape();
      TouchedOne(l, fs1, i, off / BSIZE, old(logged), logged);
      LogWrite(a.value, blk);
      LogsChain(old(Tape()), tape1, Tape());
      BlockWritten(l, fs0, fs1, owner, State(), i, off, piece, blk);
      OnlyPathThen(fs0, fs1, State(), i, off / BSIZE);
      return true;
    }

    /** Copy the in-memory inode into its sector. */
    method Iupdate(i: nat)
      requires Owns(l, State(), owner) && i < l.ninodes
      modifies this`img, this`logged, this`writes
      ensures Owns(l, State(), owner) && SameBytes(old(State()), State()) && SameSlots(old(State()), State())
      ensures Synced(l, State(), i) && logged == old(logged) + {l.Iblock(i)} && Logs(old(Tape()), Tape())
      ensures forall s :: 0 <= s < l.size && s != l.Iblock(i) ==> img[s] == old(img)[s]
      ensures i + 2 < |img| && InodeAt(img[i + 2], inode[i])
    {
      ghost var before := State();
      EncodesBytes(inode[i]);
      hide InodeAt;
      LogWrite(l.Iblock(i), EncodeInode(inode[i]));
      InodeRoundTrip(inode[i]);
      MetaWrite(l, before, owner, State());
    }

    /** writei's copy loop. */
    method WriteLoop(i: nat, off: nat, src: seq<byte>) returns (ok: bool)
      requires Owns(l, State(), owner) && i < l.ninodes && off + |src| <= MAXBYTES
      modifies this
      ensures Logs(old(Tape()), Tape())
      ensures Owns(l, State(), owner) && SameInodeSectors(l, old(img), img)
      ensures Grew(old(State()), State()) && OnlyAddrs(old(State()), State(), i)
      ensures ok ==> Patched(old(State()), State(), i, off, src)
      ensures !ok ==> Full(l, img)
      ensures ok ==> AllMapped(State(), i, off / BSIZE, EndBlock(off, |src|))
      ensures ok && src != [] ==>
                logged <= old(logged) + TouchedBlocks(l, State(), i, off / BSIZE, EndBlock(off, |src|))
      ensures AllMapped(old(State()), i, off / BSIZE, EndBlock(off, |src|)) ==> ok
      ensures ok ==> (inode == old(inode) <==> AllReady(old(State()), i, off / BSIZE, EndBlock(off, |src|)))
      ensures src == [] ==> State() == old(State()) && owner == old(owner) && Tape() == old(Tape())
      ensures ok ==> Paid(l, old(State()), old(owner), State(), owner, i, off / BSIZE, EndBlock(off, |src|))
      ensures !ok ==> |AllFree(l, old(owner))| < Missing(old(State()), i, off / BSIZE, EndBlock(off, |src|))
    {
      hide Owns, Grew, Patched, SlotAddr, TouchedBlocks, OnlyAddrs, AllReady, AddrReady, Full, AllMapped;
      hide BlockAddr, EndBlock, Copied, SameInodeSectors, Logs, Paid, OnlyPath, Took, Need, Missing, AllFree;
      LogsSelf(Tape());
      ghost var before := State();
      OwnsShape(l, before, owner);
      CopiedNone(l, before, logged, i, off, src);
      EndBlocks(off, |src|, |src|);
      EndBlocks(off, 0, |src|);
      PaidNone(l, before, owner, i, off / BSIZE);
      var tot := 0;
      while tot < |src|
        invariant 0 <= tot <= |src| && (0 < tot < |src| ==> (off + tot) % BSIZE == 0)
        invariant Owns(l, State(), owner) && Shape(l, State()) && Logs(old(Tape()), Tape())
        invariant Copied(l, before, State(), old(logged), logged, i, off, src, tot)
        invariant Paid(l, before, old(owner), State(), owner, i, off / BSIZE, EndBlock(off, tot))
        invariant tot == 0 ==> State() == before && owner == old(owner) && Tape() == old(Tape())
      {
        ghost var mid, owner1, tape := State(), owner, Tape();
        EndBlocks(off, tot, |src|);
        var off' := off + tot;
        var m := if |src| - tot < BSIZE - off' % BSIZE then |src| - tot else BSIZE - off' % BSIZE;
        NextBlock(off, tot, m);
        CopiedMapped(l, before, mid, old(logged), tape.logged, i, off, src, tot);
        ok := WritePiece(i, off', src[tot..tot + m]);
        LogsChain(old(Tape()), tape, Tape());
        OwnsShape(l, State(), owner);
        if !ok {
          CopiedStop(l, before, mid, State(), old(logged), tape.logged, i, off, src, tot);
          PaidShort(l, before, old(owner), mid, owner1, i, off / BSIZE, EndBlock(off, tot), EndBlock(off, |src|));
          return;
        }
        CopiedMore(l, before, mid, State(), old(logged), tape.logged, logged, i, off, src, tot, m);
        PaidMore(l, before, old(owner), mid, owner1, State(), owner, i, off / BSIZE, EndBlock(off, tot));
        tot := tot + m;
      }
      CopiedAll(l, before, State(), old(logged), logged, i, off, src);
      ok := true;
    }

    /** The end of writei: a larger size, saved with the inode. */
    method GrowTo(i: nat, size: uint)
      requires Owns(l, State(), owner) && i < l.ninodes && |inode| == l.ninodes && |img| == l.size
      modifies this`img, this`inode, this`logged, this`writes
      ensures Owns(l, State(), owner) && SameBytes(old(State()), State()) && SameSlots(old(State()), State())
      ensures inode == old(inode)[i := old(inode)[i].(size := size)]
      ensures |img| == l.size && l.Iblock(i) < l.size && Synced(l, State(), i)
      ensures logged == old(logged) + {l.Iblock(i)} && Logs(old(Tape()), Tape())
      ensures forall s :: 0 <= s < l.size && s != l.Iblock(i) ==> img[s] == old(img)[s]
    {
      hide Owns, Logs, SlotAddr, FileByte;
      ghost var before := State();
      OwnsShape(l, before, owner);
      inode := inode[i := inode[i].(size := size)];
      MetaWrite(l, before, owner, State());
      ghost var mid := State();
      Iupdate(i);
      OwnsShape(l, State(), owner);
      SlotsChain(before, mid, State());
      SameBytesChain(before, mid, State());
    }

    /** writei on a file or directory. A successful call splices src in at off, grows
        the size to max(size, off+n) and leaves every other file as it was; it also
        makes no hole. The inode on disk stays up to date exactly when the call grows
        the file or needed no new address; see NoHolesMapped. */
    method Writei(i: nat, off: uint, src: seq<byte>) returns (r: Io<nat>)
      requires Owns(l, State(), owner) && i < l.ninodes && inode[i].size <= MAXBYTES && inode[i].kind != T_DEV
      requires |src| < 0x1_0000_0000
      modifies this
      ensures Logs(old(Tape()), Tape())
      ensures Owns(l, State(), owner) && |inode| == l.ninodes
      ensures r.Failed? <==> off > old(inode[i]).size || off + |src| >= 0x1_0000_0000 || off + |src| > MAXBYTES
      ensures r.Failed? ==> State() == old(State()) && owner == old(owner) && Tape() == old(Tape())
      ensures r.OutOfBlocks? ==> Full(l, img)
      ensures forall j :: 0 <= j < l.ninodes && j != i ==> inode[j] == old(inode)[j]
      ensures forall s :: 0 <= s < l.ninodes + 3 && s != l.Iblock(i) ==> img[s] == old(img)[s]
      ensures r.Done? ==> WroteFile(old(State()), State(), i, off, src) && r.value == |src|
      ensures r.Done? && NoHoles(old(State()), i) ==> NoHoles(State(), i)
      ensures r.Done? && Synced(l, old(State()), i) ==>
                (Synced(l, State(), i) <==>
                 off + |src| > old(inode[i]).size || AllReady(old(State()), i, off / BSIZE, EndBlock(off, |src|)))
      ensures r.Done? && off + |src| > old(inode[i]).size ==> Synced(l, State(), i)
      ensures r.Done? && off + |src| <= old(inode[i]).size ==>
                && img[l.Iblock(i)] == old(img)[l.Iblock(i)]
                && (inode == old(inode) <==> AllReady(old(State()), i, off / BSIZE, EndBlock(off, |src|)))
      ensures r.Done? && src != [] ==>
                logged <= old(logged) + {l.Iblock(i)} + TouchedBlocks(l, State(), i, off / BSIZE, EndBlock(off, |src|))
      ensures r.Done? ==> Paid(l, old(State()), old(owner), State(), owner, i, off / BSIZE, EndBlock(off, |src|))
      ensures !r.Failed? ==>
                && EndBlock(off, |src|) <= MAXFILE
                && (r.OutOfBlocks? <==>
                    |AllFree(l, old(owner))| < Missing(old(State()), i, off / BSIZE, EndBlock(off, |src|)))
      ensures r.Done? ==> Grew(old(State()), State())
      ensures r.Done? ==> AllMapped(State(), i, off / BSIZE, EndBlock(off, |src|))
    {
      hide Owns, Grew, Patched, SlotAddr, TouchedBlocks, FileByte, AllMapped, NoHoles, AllReady, Logs, Paid;
      hide Took, Missing, AllFree, WroteFile, SameSlots, SameBytes, EndBlock;
      ghost var before := State();
      LogsSelf(Tape());
      OwnsShape(l, before, owner);
      if off > inode[i].size || (off + |src|) % 0x1_0000_0000 < off {
        return Failed;
      }
      if off + |src| > MAXBYTES {
        return Failed;
      }
      if NoHoles(before, i) {
        NoHolesMapped(before, i, off, |src|);
      }
      EndBlocks(off, 0, |src|);
      var ok := WriteLoop(i, off, src);
      OwnsShape(l, State(), owner);
      if !ok {
        return OutOfBlocks;
      }
      ghost var mid, tape := State(), Tape();
      PaidEnough(l, before, old(owner), mid, owner, i, off / BSIZE, EndBlock(off, |src|));
      SlotsSelf(mid);
      if |src| > 0 && off + |src| > inode[i].size {
        GrowTo(i, off + |src|);
        LogsChain(old(Tape()), tape, Tape());
      }
      OwnsShape(l, State(), owner);
      PaidSame(l, before, old(owner), mid, State(), owner, i, off / BSIZE, EndBlock(off, |src|));
      GrewSame(before, mid, State());
      MappedSame(mid, State(), i, off / BSIZE, EndBlock(off, |src|));
      WroteFileBy(before, mid, State(), i, off, src);
      if NoHoles(before, i) {
        GrownNoHoles(before, mid, State(), i, off, |src|);
      }
      TouchedSame(l, mid, State(), i, off / BSIZE, EndBlock(off, |src|));
      return Done(|src|);
    }

    /** Free direct block k, if there is one, and forget its address. */
    method FreeAddr(i: nat, k: nat, ghost fs0: Fs, ghost owner0: Owner)
      requires Truncating(l, fs0, owner0, State(), owner, i, 0) && i < l.ninodes && k < NDIRECT
      modifies this
      ensures Truncating(l, fs0, owner0, State(), owner, i, 0) && |inode| == l.ninodes
      ensures inode[i].addrs == old(inode[i]).addrs[k := 0]
      ensures logged <= old(logged) + Bitmap(l) && Logs(old(Tape()), Tape())
    {
      hide Marked, Unmarked, OwnsBut, Shrunk, Logs;
      LogsSelf(Tape());
      OwnsButShape(l, State(), owner, i, 0);
      if inode[i].addrs[k] != 0 {
        ghost var before, b := State(), inode[i].addrs[k];
        assert SlotAddr(before, i, k) == b;
        Freeable(l, before, owner, i, 0, k);
        Bfree(inode[i].addrs[k]);
        inode := inode[i := inode[i].(addrs := inode[i].addrs[k := 0])];
        BblockBound(l, b);
        FreeAddrStep(l, before, owner, State(), i, k);
        TruncatingStep(l, fs0, owner0, before, owner, State(), i, 0, 0, b);
        owner := owner - {b};
      } else {
        assert inode[i].addrs[k := 0] == inode[i].addrs;
      }
    }

    /** Free the block that entry n of the indirect block names, if any; the entry itself
        stays in the block. */
    method FreeEntry(i: nat, n: nat, ghost fs0: Fs, ghost owner0: Owner)
      requires Truncating(l, fs0, owner0, State(), owner, i, n) && i < l.ninodes && n < NINDIRECT
      requires inode[i].addrs[NDIRECT] != 0
      modifies this
      ensures Truncating(l, fs0, owner0, State(), owner, i, n + 1)
      ensures inode == old(inode) && logged <= old(logged) + Bitmap(l) && Logs(old(Tape()), Tape())
    {
      hide Marked, Unmarked, OwnsBut, Shrunk, Word, Logs;
      LogsSelf(Tape());
      OwnsButShape(l, State(), owner, i, n);
      ghost var before := State();
      IndirectInRange(l, before, owner, i, n, i);
      var b := Word(img[inode[i].addrs[NDIRECT]], n);
      assert SlotAddr(before, i, NDIRECT + 1 + n) == b;
      if b != 0 {
        Freeable(l, before, owner, i, n, NDIRECT + 1 + n);
        Bfree(b);
        BblockBound(l, b);
        FreeEntryStep(l, before, owner, State(), i, n);
        TruncatingStep(l, fs0, owner0, before, owner, State(), i, n, n + 1, b);
        owner := owner - {b};
      } else {
        SkipEntry(l, before, owner, i, n);
      }
    }

    /** Free the indirect block and forget its address. */
    method FreeIndirect(i: nat, ghost fs0: Fs, ghost owner0: Owner)
      requires Truncating(l, fs0, owner0, State(), owner, i, NINDIRECT) && i < l.ninodes
      requires inode[i].addrs[NDIRECT] != 0
      modifies this
      ensures Truncating(l, fs0, owner0, State(), owner, i, 0) && |inode| == l.ninodes
      ensures inode[i].addrs == old(inode[i]).addrs[NDIRECT := 0]
      ensures logged <= old(logged) + Bitmap(l) && Logs(old(Tape()), Tape())
    {
      hide Marked, Unmarked, OwnsBut, Shrunk, Logs;
      OwnsButShape(l, State(), owner, i, NINDIRECT);
      ghost var before, b := State(), inode[i].addrs[NDIRECT];
      assert SlotAddr(before, i, NDIRECT) == b;
      Freeable(l, before, owner, i, NINDIRECT, NDIRECT);
      Bfree(inode[i].addrs[NDIRECT]);
      inode := inode[i := inode[i].(addrs := inode[i].addrs[NDIRECT := 0])];
      BblockBound(l, b);
      FreeIndirectStep(l, before, owner, State(), i);
      TruncatingStep(l, fs0, owner0, before, owner, State(), i, NINDIRECT, 0, b);
      owner := owner - {b};
    }

    /** itrunc's loop over the direct blocks. */
    method FreeDirects(i: nat, ghost fs0: Fs, ghost owner0: Owner)
      requires Truncating(l, fs0, owner0, State(), owner, i, 0) && i < l.ninodes && |inode| == l.ninodes
      modifies this
      ensures Truncating(l, fs0, owner0, State(), owner, i, 0) && |inode| == l.ninodes
      ensures forall m :: 0 <= m < NDIRECT ==> inode[i].addrs[m] == 0
      ensures logged <= old(logged) + Bitmap(l) && Logs(old(Tape()), Tape())
    {
      hide Truncating, Logs, Bitmap;
      LogsSelf(Tape());
      for k := 0 to NDIRECT
        invariant Truncating(l, fs0, owner0, State(), owner, i, 0) && |inode| == l.ninodes
        invariant forall m :: 0 <= m < k ==> inode[i].addrs[m] == 0
        invariant logged <= old(logged) + Bitmap(l) && Logs(old(Tape()), Tape())
      {
        ghost var tape1 := Tape();
        FreeAddr(i, k, fs0, owner0);
        LogsChain(old(Tape()), tape1, Tape());
      }
    }

    /** itrunc's loop over the entries of the indirect block. */
    method FreeEntries(i: nat, ghost fs0: Fs, ghost owner0: Owner)
      requires Truncating(l, fs0, owner0, State(), owner, i, 0) && i < l.ninodes && |inode| == l.ninodes
      requires inode[i].addrs[NDIRECT] != 0
      modifies this
      ensures Truncating(l, fs0, owner0, State(), owner, i, NINDIRECT) && inode == old(inode)
      ensures logged <= old(logged) + Bitmap(l) && Logs(old(Tape()), Tape())
    {
      hide Truncating, Logs, Bitmap;
      LogsSelf(Tape());
      for n := 0 to NINDIRECT
        invariant Truncating(l, fs0, owner0, State(), owner, i, n) && inode == old(inode)
        invariant logged <= old(logged) + Bitmap(l) && Logs(old(Tape()), Tape())
      {
        ghost var tape1 := Tape();
        FreeEntry(i, n, fs0, owner0);
        LogsChain(old(Tape()), tape1, Tape());
      }
    }

    /** itrunc: every block of file i, and no other, is freed. */
    method Itrunc(i: nat)
      requires Owns(l, State(), owner) && i < l.ninodes
      modifies this
      ensures Truncated(l, old(State()), old(owner), State(), owner, i)
      ensures Synced(l, State(), i) && logged <= old(logged) + Bitmap(l) + {l.Iblock(i)}
      ensures Logs(old(Tape()), Tape())
      ensures inode[i] == old(inode[i]).(addrs := inode[i].addrs, size := 0)
      ensures forall s :: 0 <= s < l.ninodes + 3 && s != l.Iblock(i) ==> img[s] == old(img)[s]
    {
      hide Word, Marked, WithMark, SlotAddr, FileByte, Owns, OwnsBut, Shrunk, Logs, Bitmap;
      ghost var fs0, owner0 := State(), owner;
      OwnsShape(l, fs0, owner0);
      TruncatingStart(l, fs0, owner0, i);
      FreeDirects(i, fs0, owner0);
      if inode[i].addrs[NDIRECT] != 0 {
        ghost var tape1 := Tape();
        FreeEntries(i, fs0, owner0);
        LogsChain(old(Tape()), tape1, Tape());
        tape1 := Tape();
        FreeIndirect(i, fs0, owner0);
        LogsChain(old(Tape()), tape1, Tape());
      }
      OwnsButNone(l, State(), owner, i);
      ghost var mid := State();
      OwnsShape(l, mid, owner);
      inode := inode[i := inode[i].(size := 0)];
      MetaWrite(l, mid, owner, State());
      ghost var tape2 := Tape();
      Iupdate(i);
      LogsChain(old(Tape()), tape2, Tape());
      TruncatedBy(l, fs0, owner0, mid, State(), owner, i);
    }

    /** The part of iput that frees an inode nobody links to any more. */
    method FreeInode(i: nat)
      requires Owns(l, State(), owner) && i < l.ninodes
      modifies this
      ensures Truncated(l, old(State()), old(owner), State(), owner, i)
      ensures Synced(l, State(), i) && inode[i].kind == 0 && Logs(old(Tape()), Tape())
      ensures inode[i] == old(inode[i]).(addrs := inode[i].addrs, size := 0, kind := 0)
      ensures logged <= old(logged) + Bitmap(l) + {l.Iblock(i)}
      ensures forall s :: 0 <= s < l.ninodes + 3 && s != l.Iblock(i) ==> img[s] == old(img)[s]
    {
      hide Marked, WithMark, SlotAddr, FileByte, Logs;
      Itrunc(i);
      ghost var mid, tape := State(), Tape();
      inode := inode[i := inode[i].(kind := 0)];
      MetaWrite(l, mid, owner, State());
      ghost var mid2 := State();
      Iupdate(i);
      LogsChain(old(Tape()), tape, Tape());
      SameBytesChain(mid, mid2, State());
      forall b | 0 <= b < l.size ensures Marked(l, img, b) <==> Marked(l, mid.img, b) {
      }
    }

    /** One transaction of filewrite: begin_trans, writei of a piece, commit_trans. */
    method WriteChunk(i: nat, off: uint, piece: seq<byte>) returns (w: Io<nat>)
      requires Owns(l, State(), owner) && i < l.ninodes && inode[i].size <= MAXBYTES && inode[i].kind != T_DEV
      requires 0 < |piece| <= 1536
      modifies this
      ensures Owns(l, State(), owner) && |inode| == l.ninodes
      ensures w.Failed? <==>
                off > old(inode[i]).size || off + |piece| >= 0x1_0000_0000 || off + |piece| > MAXBYTES
      ensures w.Failed? ==> State() == old(State()) && owner == old(owner) && writes == []
      ensures w.OutOfBlocks? ==> Full(l, img)
      ensures w.Done? ==> ChunkWrote(l, old(State()), old(owner), State(), owner, i, off, piece, writes)
      ensures !w.OutOfBlocks? ==>
                |Targets(writes)| <= 7 + l.size / BPB && img == LogMachine.Written(old(img), writes)
    {
      hide Owns, NoHoles, TouchedBlocks, Synced, WroteFile, Full, AllReady, Logs;
      hide Targets, Took, Missing, Paid, Grew, AllMapped, AllFree;
      OwnsShape(l, State(), owner);
      logged, writes := {}, [];
      w := Writei(i, off, piece);
      OwnsShape(l, State(), owner);
      if w.OutOfBlocks? {
        return;
      }
      ChunkLogs(l, State(), i, off, |piece|, logged, w.Done?);
      StageReplays(Journal(old(img), {}, []), Tape());
    }

    /** filewrite on a file: chunks of at most 1536 bytes, each its own transaction.
        `txns` are the log writes of each committed transaction and `stages` the file
        systems between them. On a disk with at most two bitmap sectors none of the
        transactions overflows the log. */
    method Filewrite(i: nat, off: uint, addr: seq<byte>)
      returns (r: Io<int>, off': uint, ghost txns: seq<seq<LogMachine.Event>>, ghost stages: seq<Stage>)
      requires Owns(l, State(), owner) && i < l.ninodes && inode[i].size <= MAXBYTES && inode[i].kind != T_DEV
      requires |addr| < 0x8000_0000
      modifies this
      ensures Owns(l, State(), owner) && |inode| == l.ninodes && off <= off' <= off + |addr|
      ensures off' == off || (off <= old(inode[i]).size && off' <= MAXBYTES)
      ensures !r.OutOfBlocks? && off' > off ==> WroteFile(old(State()), State(), i, off, addr[..off' - off])
      ensures !r.OutOfBlocks? && off' == off ==> State() == old(State())
      ensures !r.Failed? && (r.Done? ==> r.value == if off' == off + |addr| then |addr| else -1)
      ensures r.Done? && off' < off + |addr| ==>
                off > old(inode[i]).size || off' + ChunkSize(off + |addr| - off') > MAXBYTES
      ensures forall t :: t in txns ==> |Targets(t)| <= 7 + l.size / BPB
      ensures !r.OutOfBlocks? ==> img == AllWritten(old(img), txns)
      ensures r.OutOfBlocks? ==> Full(l, img)
      ensures Staged(l, stages, txns, i, off, addr) && stages[0] == Stage(old(State()), old(owner), 0)
      ensures !r.OutOfBlocks? ==> stages[|txns|] == Stage(State(), owner, off' - off)
      ensures l.size < 2 * BPB && l.nlog >= 10 ==>
                forall t :: t in txns ==> |Targets(t)| < LogDisk.Geometry(l.LogStart(), l.nlog).Capacity()
    {
      hide Owns, NoHoles, TouchedBlocks, Synced, WroteFile, ChunkSize, Full, AllReady, EndBlock, Logs;
      hide AllWritten, Targets, Staged, ChunkWrote;
      assert AllWritten(img, []) == img by { NoneWritten(img); }
      ghost var before := State();
      OwnsShape(l, before, owner);
      off', txns, stages := off, [], [Stage(before, owner, 0)];
      StagedNone(l, stages[0], i, off, addr);
      var k := 0;
      while k < |addr|
        invariant 0 <= k <= |addr| && off' == off + k && (k % 1536 == 0 || k == |addr|)
        invariant Owns(l, State(), owner) && |inode| == l.ninodes && inode[i].size <= MAXBYTES && inode[i].kind != T_DEV
        invariant k == 0 ==> State() == before
        invariant k > 0 ==> WroteFile(before, State(), i, off, addr[..k]) && off <= before.inode[i].size && off' <= inode[i].size
        invariant (forall t :: t in txns ==> |Targets(t)| <= 7 + l.size / BPB) && img == AllWritten(before.img, txns)
        invariant |stages| == |txns| + 1 && Staged(l, stages, txns, i, off, addr)
        invariant stages[0] == Stage(before, old(owner), 0) && stages[|txns|] == Stage(State(), owner, k)
        decreases |addr| - k
      {
        ghost var mid, st := State(), stages[|txns|];
        var n1 := ChunkSize(|addr| - k);
        ChunkWhole(|addr| - k);
        var w := WriteChunk(i, off', addr[k..k + n1]);
        if w.OutOfBlocks? {
          return OutOfBlocks, off', txns, stages;
        }
        MoreWritten(before.img, txns, writes);
        if w.Failed? {
          StageAgain(l, stages, txns, writes, i, off, addr);
          txns, stages := txns + [writes], stages + [st];
          break;
        }
        StageNext(l, stages, txns, State(), owner, writes, i, off, addr, n1);
        txns, stages := txns + [writes], stages + [Stage(State(), owner, k + n1)];
        ChunkWroteFile(l, mid, st.owner, State(), owner, i, off', addr[k..k + n1], writes);
        WroteMore(before, mid, State(), i, off, addr, k, n1);
        off' := off' + n1;
        k := k + n1;
      }
      assert addr[..|addr|] == addr;
      r := Done(if k == |addr| then |addr| else -1);
    }
  }
}
