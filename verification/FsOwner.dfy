/** Who owns which disk block. Every inode has 253 slots that may name a block:
    124 direct ones, the indirect block itself, and the 128 entries in it. The
    owner map says for each block in use which single slot names it. */
module FsOwner {
  import opened Blocks
  import opened FsLayout

  /** The transaction's view of the disk and the in-memory inodes. */
  datatype Fs = Fs(img: seq<Block>, inode: seq<Inode>)

  const SLOTS := NDIRECT + 1 + NINDIRECT
  const MAXBYTES := MAXFILE * BSIZE

  type Owner = map<nat, (nat, nat)>

  function SlotAddr(fs: Fs, i: nat, k: nat): uint
    requires i < |fs.inode| && k < SLOTS
  {
    var a := fs.inode[i].addrs;
    if k <= NDIRECT then a[k]
    else if a[NDIRECT] == 0 || a[NDIRECT] >= |fs.img| then 0
    else Word(fs.img[a[NDIRECT]], k - NDIRECT - 1)
  }

  /** Slot of the file's bn-th block. */
  function SlotFor(bn: nat): nat
    requires bn < MAXFILE
    ensures SlotFor(bn) < SLOTS && SlotFor(bn) != NDIRECT
  {
    if bn < NDIRECT then bn else bn + 1
  }

  function BlockAddr(fs: Fs, i: nat, bn: nat): uint
    requires i < |fs.inode| && bn < MAXFILE
  {
    SlotAddr(fs, i, SlotFor(bn))
  }

  /** Byte `pos` of file i; a block that is not allocated reads as zeros. */
  function FileByte(fs: Fs, i: nat, pos: nat): byte
    requires i < |fs.inode| && pos < MAXBYTES
  {
    var a := BlockAddr(fs, i, pos / BSIZE);
    if a == 0 || a >= |fs.img| then 0 else fs.img[a][pos % BSIZE]
  }

  /** The first 124 blocks of a file are in its inode, the others in the block the last address
      names, four bytes each. */
  lemma BlockAddrIs(fs: Fs, i: nat, bn: nat)
    requires i < |fs.inode| && bn < 252
    ensures var a := fs.inode[i].addrs;
      BlockAddr(fs, i, bn) ==
      if bn < 124 then a[bn]
      else if a[124] == 0 || a[124] >= |fs.img| then 0
      else Le32(fs.img[a[124]], 4 * (bn - 124))
  {
    hide Le32;
    if bn >= 124 && fs.inode[i].addrs[124] < |fs.img| {
      WordIsBytes(fs.img[fs.inode[i].addrs[124]], bn - 124);
    }
  }

  ghost predicate Shape(l: Layout, fs: Fs) {
    l.Ok() && |fs.img| == l.size && |fs.inode| == l.ninodes
  }

  /** Ownership is consistent: marked blocks are the metadata and the owned ones,
      an owner's slot names its block, and a used slot owns the block it names. */
  ghost predicate Owns(l: Layout, fs: Fs, owner: Owner) {
    && Shape(l, fs)
    && (forall b :: 0 <= b < l.size ==> (Marked(l, fs.img, b) <==> b < l.DataStart() || b in owner))
    && (forall b :: b in owner ==> OwnerOk(l, fs, owner, b))
    && (forall i: nat, k: nat :: i < l.ninodes && k < SLOTS ==> SlotOk(fs, owner, i, k))
  }

  ghost predicate OwnerOk(l: Layout, fs: Fs, owner: Owner, b: nat)
    requires |fs.inode| == l.ninodes && b in owner
  {
    && l.DataStart() <= b < l.size
    && owner[b].0 < l.ninodes && owner[b].1 < SLOTS
    && SlotAddr(fs, owner[b].0, owner[b].1) == b
  }

  ghost predicate SlotOk(fs: Fs, owner: Owner, i: nat, k: nat)
    requires i < |fs.inode| && k < SLOTS
  {
    SlotAddr(fs, i, k) != 0 ==> SlotAddr(fs, i, k) in owner && owner[SlotAddr(fs, i, k)] == (i, k)
  }

  /** An image as mkfs starts it: the metadata marked, no file with a block. */
  lemma FreshImage(l: Layout, fs: Fs)
    requires Shape(l, fs) && forall b :: 0 <= b < l.size ==> (Marked(l, fs.img, b) <==> b < l.DataStart())
    requires forall i :: 0 <= i < l.ninodes ==> forall k :: 0 <= k <= NDIRECT ==> fs.inode[i].addrs[k] == 0
    ensures Owns(l, fs, map[])
  {
    forall i: nat, k: nat | i < l.ninodes && k < SLOTS
      ensures SlotAddr(fs, i, k) == 0
    {
      assert fs.inode[i].addrs[NDIRECT] == 0;
    }
  }

  /** No block is named by two slots. */
  lemma OwnedOnce(l: Layout, fs: Fs, owner: Owner, i: nat, k: nat, i': nat, k': nat)
    requires Owns(l, fs, owner) && i < l.ninodes && i' < l.ninodes && k < SLOTS && k' < SLOTS
    requires SlotAddr(fs, i, k) == SlotAddr(fs, i', k') != 0
    ensures i == i' && k == k'
  {
    assert SlotOk(fs, owner, i, k) && SlotOk(fs, owner, i', k');
  }

  /** A named block is a data block, in range and marked. */
  lemma SlotInRange(l: Layout, fs: Fs, owner: Owner, i: nat, k: nat)
    requires Owns(l, fs, owner) && i < l.ninodes && k < SLOTS && SlotAddr(fs, i, k) != 0
    ensures l.DataStart() <= SlotAddr(fs, i, k) < l.size && Marked(l, fs.img, SlotAddr(fs, i, k))
    ensures owner[SlotAddr(fs, i, k)] == (i, k)
  {
    assert SlotOk(fs, owner, i, k);
    assert OwnerOk(l, fs, owner, SlotAddr(fs, i, k));
  }

  ghost predicate SameBytes(fs: Fs, fs': Fs) {
    && |fs'.inode| == |fs.inode|
    && forall i: nat, pos: nat :: i < |fs.inode| && pos < MAXBYTES ==> FileByte(fs', i, pos) == FileByte(fs, i, pos)
  }

  /** Exactly slot (i, k) changes, to b. */
  ghost predicate SlotBecomes(fs: Fs, fs': Fs, i: nat, k: nat, b: nat) {
    && |fs'.inode| == |fs.inode|
    && forall j: nat, m: nat :: j < |fs.inode| && m < SLOTS ==>
         SlotAddr(fs', j, m) == if j == i && m == k then b else SlotAddr(fs, j, m)
  }

  // ---------- allocation ----------

  /** balloc's effect: b marked and zeroed. */
  function Allocated(l: Layout, img: seq<Block>, b: nat): (r: seq<Block>)
    requires b < l.size == |img| && l.DataStart() <= l.size
    ensures |r| == |img|
  {
    WithMark(l, img, b, true)[b := ZeroBlock()]
  }

  lemma AllocatedMarks(l: Layout, img: seq<Block>, b: nat)
    requires l.Ok() && l.DataStart() <= b < l.size == |img|
    ensures forall c :: 0 <= c < l.size ==> (Marked(l, Allocated(l, img, b), c) <==> c == b || Marked(l, img, c))
    ensures forall s :: l.DataStart() <= s < l.size && s != b ==> Allocated(l, img, b)[s] == img[s]
    ensures Allocated(l, img, b)[b] == ZeroBlock()
    ensures forall s :: 0 <= s < l.ninodes + 3 ==> Allocated(l, img, b)[s] == img[s]
  {
    BblockBound(l, b);
    forall c | 0 <= c < l.size
      ensures Marked(l, Allocated(l, img, b), c) <==> c == b || Marked(l, img, c)
    {
      BblockBound(l, c);
      WithMarkAt(l, img, b, true, c);
    }
  }

  /** Giving a free block to an empty slot keeps ownership consistent. */
  lemma AddOwner(l: Layout, fs: Fs, owner: Owner, fs': Fs, i: nat, k: nat, b: nat)
    requires Owns(l, fs, owner) && Shape(l, fs')
    requires i < l.ninodes && k < SLOTS && SlotAddr(fs, i, k) == 0
    requires l.DataStart() <= b < l.size && b !in owner
    requires forall c :: 0 <= c < l.size ==> (Marked(l, fs'.img, c) <==> c == b || Marked(l, fs.img, c))
    requires SlotBecomes(fs, fs', i, k, b)
    ensures Owns(l, fs', owner[b := (i, k)])
  {
    hide Marked, SlotAddr;
    var owner' := owner[b := (i, k)];
    forall c | c in owner' ensures OwnerOk(l, fs', owner', c) {
      assert c != b ==> OwnerOk(l, fs, owner, c);
    }
    forall j: nat, m: nat | j < l.ninodes && m < SLOTS ensures SlotOk(fs', owner', j, m) {
      assert SlotOk(fs, owner, j, m);
    }
  }

  /** A block given to an empty slot reads as zeros, as the hole did before. */
  lemma LinkKeepsBytes(l: Layout, fs: Fs, owner: Owner, fs': Fs, i: nat, k: nat, b: nat)
    requires Owns(l, fs, owner) && Shape(l, fs') && SlotBecomes(fs, fs', i, k, b)
    requires i < l.ninodes && k < SLOTS && SlotAddr(fs, i, k) == 0
    requires 0 < b < l.size && fs'.img[b] == ZeroBlock()
    requires forall c :: c in owner && c < l.size && owner[c].1 != NDIRECT ==> fs'.img[c] == fs.img[c]
    ensures SameBytes(fs, fs')
  {
    hide SlotAddr, Marked;
    forall j: nat, pos: nat | j < l.ninodes && pos < MAXBYTES
      ensures FileByte(fs', j, pos) == FileByte(fs, j, pos)
    {
      var m := SlotFor(pos / BSIZE);
      assert SlotAddr(fs', j, m) == if j == i && m == k then b else SlotAddr(fs, j, m);
      if SlotAddr(fs, j, m) != 0 {
        SlotInRange(l, fs, owner, j, m);
      }
    }
  }

  /** bmap's allocation into ip->addrs[k] (a direct block or the indirect block). */
  lemma LinkAddr(l: Layout, fs: Fs, owner: Owner, fs': Fs, i: nat, k: nat, b: nat)
    requires Owns(l, fs, owner) && i < l.ninodes && k <= NDIRECT && SlotAddr(fs, i, k) == 0
    requires b < l.size && !Marked(l, fs.img, b)
    requires fs' == Fs(Allocated(l, fs.img, b),
                       fs.inode[i := fs.inode[i].(addrs := fs.inode[i].addrs[k := b])])
    ensures l.DataStart() <= b && b !in owner
    ensures Owns(l, fs', owner[b := (i, k)]) && SlotBecomes(fs, fs', i, k, b) && SameBytes(fs, fs')
  {
    AllocatedMarks(l, fs.img, b);
    forall j: nat, m: nat | j < l.ninodes && m < SLOTS
      ensures SlotAddr(fs', j, m) == if j == i && m == k then b else SlotAddr(fs, j, m)
    {
      LinkAddrSlot(l, fs, owner, fs', i, k, b, j, m);
    }
    AddOwner(l, fs, owner, fs', i, k, b);
    LinkKeepsBytes(l, fs, owner, fs', i, k, b);
  }

  lemma ZeroWord(i: nat)
    requires i < WORDS
    ensures Word(ZeroBlock(), i) == 0
  {
  }

  lemma LinkAddrSlot(l: Layout, fs: Fs, owner: Owner, fs': Fs, i: nat, k: nat, b: nat, j: nat, m: nat)
    requires Owns(l, fs, owner) && i < l.ninodes && k <= NDIRECT && SlotAddr(fs, i, k) == 0
    requires l.DataStart() <= b < l.size && b !in owner
    requires fs' == Fs(Allocated(l, fs.img, b),
                       fs.inode[i := fs.inode[i].(addrs := fs.inode[i].addrs[k := b])])
    requires j < l.ninodes && m < SLOTS
    ensures SlotAddr(fs', j, m) == if j == i && m == k then b else SlotAddr(fs, j, m)
  {
    hide Marked, Word;
    AllocatedMarks(l, fs.img, b);
    if m > NDIRECT {
      ZeroWord(m - NDIRECT - 1);
      var a := fs.inode[j].addrs[NDIRECT];
      if a != 0 {
        assert SlotAddr(fs, j, NDIRECT) == a;
        SlotInRange(l, fs, owner, j, NDIRECT);
      }
    }
  }

  /** bmap's allocation into an entry of the indirect block. */
  lemma LinkEntry(l: Layout, fs: Fs, owner: Owner, fs': Fs, i: nat, n: nat, b: nat)
    requires Owns(l, fs, owner) && i < l.ninodes && n < NINDIRECT
    requires fs.inode[i].addrs[NDIRECT] != 0 && SlotAddr(fs, i, NDIRECT + 1 + n) == 0
    requires b < l.size && !Marked(l, fs.img, b)
    requires var a := fs.inode[i].addrs[NDIRECT]; var img1 := Allocated(l, fs.img, b);
      a < |img1| && fs' == Fs(img1[a := WithWord(img1[a], n, b)], fs.inode)
    ensures l.DataStart() <= b && b !in owner
    ensures Owns(l, fs', owner[b := (i, NDIRECT + 1 + n)])
    ensures SlotBecomes(fs, fs', i, NDIRECT + 1 + n, b) && SameBytes(fs, fs')
  {
    hide Word, WithWord;
    var a, k := fs.inode[i].addrs[NDIRECT], NDIRECT + 1 + n;
    AllocatedMarks(l, fs.img, b);
    assert SlotAddr(fs, i, NDIRECT) == a;
    SlotInRange(l, fs, owner, i, NDIRECT);
    forall c | 0 <= c < l.size ensures Marked(l, fs'.img, c) <==> c == b || Marked(l, fs.img, c) {
      BblockBound(l, c);
    }
    forall j: nat, m: nat | j < l.ninodes && m < SLOTS
      ensures SlotAddr(fs', j, m) == if j == i && m == k then b else SlotAddr(fs, j, m)
    {
      LinkEntrySlot(l, fs, owner, fs', i, n, b, j, m);
    }
    AddOwner(l, fs, owner, fs', i, k, b);
    LinkKeepsBytes(l, fs, owner, fs', i, k, b);
  }

  lemma LinkEntrySlot(l: Layout, fs: Fs, owner: Owner, fs': Fs, i: nat, n: nat, b: nat, j: nat, m: nat)
    requires Owns(l, fs, owner) && i < l.ninodes && n < NINDIRECT
    requires l.DataStart() <= b < l.size && b !in owner
    requires var a := fs.inode[i].addrs[NDIRECT]; var img1 := Allocated(l, fs.img, b);
      a != 0 && a < |img1| && a in owner && owner[a] == (i, NDIRECT)
      && fs' == Fs(img1[a := WithWord(img1[a], n, b)], fs.inode)
    requires j < l.ninodes && m < SLOTS
    ensures SlotAddr(fs', j, m) == if j == i && m == NDIRECT + 1 + n then b else SlotAddr(fs, j, m)
  {
    hide Marked, Word, WithWord;
    AllocatedMarks(l, fs.img, b);
    if m > NDIRECT {
      var a := fs.inode[j].addrs[NDIRECT];
      if a != 0 {
        assert SlotAddr(fs, j, NDIRECT) == a;
        SlotInRange(l, fs, owner, j, NDIRECT);
      }
    }
  }

  // ---------- writing data and metadata ----------

  ghost predicate SameSlots(fs: Fs, fs': Fs) {
    && |fs'.inode| == |fs.inode|
    && forall j: nat, m: nat :: j < |fs.inode| && m < SLOTS ==> SlotAddr(fs', j, m) == SlotAddr(fs, j, m)
  }

  lemma SameSlotsOwns(l: Layout, fs: Fs, owner: Owner, fs': Fs)
    requires Owns(l, fs, owner) && Shape(l, fs') && SameSlots(fs, fs')
    requires forall c :: 0 <= c < l.size ==> (Marked(l, fs'.img, c) <==> Marked(l, fs.img, c))
    ensures Owns(l, fs', owner)
  {
    hide Marked, SlotAddr;
    forall c | c in owner ensures OwnerOk(l, fs', owner, c) {
      assert OwnerOk(l, fs, owner, c);
    }
    forall j: nat, m: nat | j < l.ninodes && m < SLOTS ensures SlotOk(fs', owner, j, m) {
      assert SlotOk(fs, owner, j, m);
    }
  }

  /** Writing a file's data block changes that block of that file and nothing else. */
  lemma DataWrite(l: Layout, fs: Fs, owner: Owner, fs': Fs, i: nat, bn: nat, blk: Block)
    requires Owns(l, fs, owner) && i < l.ninodes && bn < MAXFILE && BlockAddr(fs, i, bn) != 0
    requires BlockAddr(fs, i, bn) < |fs.img| && fs' == fs.(img := fs.img[BlockAddr(fs, i, bn) := blk])
    ensures Owns(l, fs', owner) && SameSlots(fs, fs')
    ensures forall j: nat, pos: nat :: j < l.ninodes && pos < MAXBYTES ==>
              FileByte(fs', j, pos) == if j == i && pos / BSIZE == bn then blk[pos % BSIZE] else FileByte(fs, j, pos)
  {
    hide Word;
    var a := BlockAddr(fs, i, bn);
    SlotInRange(l, fs, owner, i, SlotFor(bn));
    forall j: nat, m: nat | j < l.ninodes && m < SLOTS ensures SlotAddr(fs', j, m) == SlotAddr(fs, j, m) {
      if m > NDIRECT && fs.inode[j].addrs[NDIRECT] == a {
        assert SlotAddr(fs, j, NDIRECT) == a;
        OwnedOnce(l, fs, owner, j, NDIRECT, i, SlotFor(bn));
      }
    }
    forall c | 0 <= c < l.size ensures Marked(l, fs'.img, c) <==> Marked(l, fs.img, c) {
      BblockBound(l, c);
    }
    SameSlotsOwns(l, fs, owner, fs');
    DataWriteBytes(l, fs, owner, fs', i, bn, blk);
  }

  lemma DataWriteBytes(l: Layout, fs: Fs, owner: Owner, fs': Fs, i: nat, bn: nat, blk: Block)
    requires Owns(l, fs, owner) && i < l.ninodes && bn < MAXFILE && BlockAddr(fs, i, bn) != 0
    requires BlockAddr(fs, i, bn) < |fs.img| && fs' == fs.(img := fs.img[BlockAddr(fs, i, bn) := blk])
    requires SameSlots(fs, fs')
    ensures forall j: nat, pos: nat :: j < l.ninodes && pos < MAXBYTES ==>
              FileByte(fs', j, pos) == if j == i && pos / BSIZE == bn then blk[pos % BSIZE] else FileByte(fs, j, pos)
  {
    hide SlotAddr, Marked;
    forall j: nat, pos: nat | j < l.ninodes && pos < MAXBYTES
      ensures FileByte(fs', j, pos) == if j == i && pos / BSIZE == bn then blk[pos % BSIZE] else FileByte(fs, j, pos)
    {
      var m := SlotFor(pos / BSIZE);
      assert SlotAddr(fs', j, m) == SlotAddr(fs, j, m);
      if SlotAddr(fs, j, m) == BlockAddr(fs, i, bn) {
        OwnedOnce(l, fs, owner, j, m, i, SlotFor(bn));
      }
    }
  }

  /** Inode sectors and inode fields other than addrs do not matter to ownership
      or contents (iupdate, size changes). */
  lemma MetaWrite(l: Layout, fs: Fs, owner: Owner, fs': Fs)
    requires Owns(l, fs, owner) && Shape(l, fs')
    requires forall s :: l.ninodes + 3 <= s < l.size ==> fs'.img[s] == fs.img[s]
    requires forall j :: 0 <= j < l.ninodes ==> fs'.inode[j].addrs == fs.inode[j].addrs
    ensures Owns(l, fs', owner) && SameSlots(fs, fs') && SameBytes(fs, fs')
  {
    hide Word;
    forall j: nat, m: nat | j < l.ninodes && m < SLOTS
      ensures SlotAddr(fs', j, m) == SlotAddr(fs, j, m)
      ensures SlotAddr(fs, j, m) != 0 ==> l.DataStart() <= SlotAddr(fs, j, m) < l.size
    {
      if SlotAddr(fs, j, m) != 0 {
        SlotInRange(l, fs, owner, j, m);
      }
      if fs.inode[j].addrs[NDIRECT] != 0 {
        assert SlotAddr(fs, j, NDIRECT) == fs.inode[j].addrs[NDIRECT];
        SlotInRange(l, fs, owner, j, NDIRECT);
      }
    }
    forall c | 0 <= c < l.size ensures Marked(l, fs'.img, c) <==> Marked(l, fs.img, c) {
      BblockBound(l, c);
    }
    SameSlotsOwns(l, fs, owner, fs');
  }

  // ---------- truncation ----------

  /** Files other than i are untouched when data blocks and their inodes are. */
  lemma OthersSame(l: Layout, fs: Fs, owner: Owner, fs': Fs, i: nat)
    requires Owns(l, fs, owner) && Shape(l, fs')
    requires forall s :: l.DataStart() <= s < l.size ==> fs'.img[s] == fs.img[s]
    requires forall j :: 0 <= j < l.ninodes && j != i ==> fs'.inode[j] == fs.inode[j]
    ensures forall j: nat, m: nat :: j < l.ninodes && j != i && m < SLOTS ==>
              SlotAddr(fs', j, m) == SlotAddr(fs, j, m)
    ensures forall j: nat, pos: nat :: j < l.ninodes && j != i && pos < MAXBYTES ==>
              FileByte(fs', j, pos) == FileByte(fs, j, pos)
  {
    hide Word, Marked;
    forall j: nat, m: nat | j < l.ninodes && j != i && m < SLOTS
      ensures SlotAddr(fs', j, m) == SlotAddr(fs, j, m)
      ensures SlotAddr(fs, j, m) != 0 ==> l.DataStart() <= SlotAddr(fs, j, m) < l.size
    {
      if SlotAddr(fs, j, m) != 0 {
        SlotInRange(l, fs, owner, j, m);
      }
      if fs.inode[j].addrs[NDIRECT] != 0 {
        assert SlotAddr(fs, j, NDIRECT) == fs.inode[j].addrs[NDIRECT];
        SlotInRange(l, fs, owner, j, NDIRECT);
      }
    }
  }

  /** Ownership while itrunc works on file i: the first n entries of its indirect
      block have been freed but are still written there. */
  ghost predicate OwnsBut(l: Layout, fs: Fs, owner: Owner, i: nat, n: nat) {
    && Shape(l, fs)
    && (forall b :: 0 <= b < l.size ==> (Marked(l, fs.img, b) <==> b < l.DataStart() || b in owner))
    && (forall b :: b in owner ==> OwnerOk(l, fs, owner, b) && !(owner[b].0 == i && NDIRECT < owner[b].1 <= NDIRECT + n))
    && (forall j: nat, k: nat :: j < l.ninodes && k < SLOTS && !(j == i && NDIRECT < k <= NDIRECT + n) ==>
          SlotOk(fs, owner, j, k))
  }

  /** bfree of the block in slot (i, k): its mark goes and the owner map loses it. */
  lemma DropOwner(l: Layout, fs: Fs, owner: Owner, fs': Fs, i: nat, n: nat, k: nat, n': nat)
    requires OwnsBut(l, fs, owner, i, n) && Shape(l, fs') && |fs'.inode| == |fs.inode|
    requires i < l.ninodes && k < SLOTS && !(NDIRECT < k <= NDIRECT + n) && n <= n' <= NINDIRECT
    requires var b := SlotAddr(fs, i, k);
      && b != 0
      && (forall c :: 0 <= c < l.size ==> (Marked(l, fs'.img, c) <==> c != b && Marked(l, fs.img, c)))
      && (SlotAddr(fs', i, k) == 0 || NDIRECT < k <= NDIRECT + n')
    requires n' == n || (n' == n + 1 && k == NDIRECT + n')
    requires forall j: nat, m: nat :: j < l.ninodes && m < SLOTS && !(j == i && m == k) ==>
               SlotAddr(fs', j, m) == SlotAddr(fs, j, m)
    ensures SlotAddr(fs, i, k) in owner && owner[SlotAddr(fs, i, k)] == (i, k)
    ensures OwnsBut(l, fs', owner - {SlotAddr(fs, i, k)}, i, n')
  {
    hide Marked, SlotAddr;
    assert SlotOk(fs, owner, i, k);
    var b := SlotAddr(fs, i, k);
    var owner' := owner - {b};
    assert OwnerOk(l, fs, owner, b);
    forall c | c in owner' ensures OwnerOk(l, fs', owner', c) {
      assert OwnerOk(l, fs, owner, c);
    }
    forall j: nat, m: nat | j < l.ninodes && m < SLOTS && !(j == i && NDIRECT < m <= NDIRECT + n')
      ensures SlotOk(fs', owner', j, m)
    {
      assert SlotOk(fs, owner, j, m);
    }
  }

  lemma UnmarkKeepsData(l: Layout, img: seq<Block>, img': seq<Block>, b: nat)
    requires l.Ok() && b < l.size == |img| && Unmarked(l, img, img', b)
    ensures |img'| == l.size
    ensures forall c :: 0 <= c < l.size ==> (Marked(l, img', c) <==> c != b && Marked(l, img, c))
    ensures forall s :: l.DataStart() <= s < l.size ==> img'[s] == img[s]
  {
    hide Marked;
    BblockBound(l, b);
  }

  lemma OwnsButNone(l: Layout, fs: Fs, owner: Owner, i: nat)
    ensures Owns(l, fs, owner) <==> OwnsBut(l, fs, owner, i, 0)
  {
    hide Marked, SlotAddr;
  }

  /** An unused entry of the indirect block needs no bfree. */
  lemma SkipEntry(l: Layout, fs: Fs, owner: Owner, i: nat, n: nat)
    requires OwnsBut(l, fs, owner, i, n) && i < l.ninodes && n < NINDIRECT
    requires SlotAddr(fs, i, NDIRECT + 1 + n) == 0
    ensures OwnsBut(l, fs, owner, i, n + 1)
  {
    hide Marked, SlotAddr;
    forall b | b in owner
      ensures OwnerOk(l, fs, owner, b) && !(owner[b].0 == i && NDIRECT < owner[b].1 <= NDIRECT + n + 1)
    {
      assert OwnerOk(l, fs, owner, b);
    }
  }

  /** The last bfree of itrunc: the indirect block, all of whose entries are gone. */
  lemma DropIndirect(l: Layout, fs: Fs, owner: Owner, fs': Fs, i: nat)
    requires OwnsBut(l, fs, owner, i, NINDIRECT) && Shape(l, fs') && i < l.ninodes
    requires var b := SlotAddr(fs, i, NDIRECT);
      b != 0 && forall c :: 0 <= c < l.size ==> (Marked(l, fs'.img, c) <==> c != b && Marked(l, fs.img, c))
    requires forall j: nat, m: nat :: j < l.ninodes && m < SLOTS ==>
               SlotAddr(fs', j, m) == if j == i && m >= NDIRECT then 0 else SlotAddr(fs, j, m)
    ensures SlotAddr(fs, i, NDIRECT) in owner && owner[SlotAddr(fs, i, NDIRECT)] == (i, NDIRECT)
    ensures Owns(l, fs', owner - {SlotAddr(fs, i, NDIRECT)})
  {
    hide Marked, SlotAddr;
    assert SlotOk(fs, owner, i, NDIRECT);
    var b := SlotAddr(fs, i, NDIRECT);
    var owner' := owner - {b};
    forall c | c in owner' ensures OwnerOk(l, fs', owner', c) {
      assert OwnerOk(l, fs, owner, c);
    }
    forall j: nat, m: nat | j < l.ninodes && m < SLOTS ensures SlotOk(fs', owner', j, m) {
      if !(j == i && m >= NDIRECT) {
        assert SlotOk(fs, owner, j, m);
      }
    }
  }

  /** Slots after ip->addrs[k] is cleared, data blocks being untouched. */
  lemma ClearAddrSlots(l: Layout, fs: Fs, owner: Owner, fs': Fs, i: nat, n: nat, k: nat)
    requires OwnsBut(l, fs, owner, i, n) && Shape(l, fs') && i < l.ninodes && k <= NDIRECT
    requires forall s :: l.DataStart() <= s < l.size ==> fs'.img[s] == fs.img[s]
    requires fs'.inode == fs.inode[i := fs.inode[i].(addrs := fs.inode[i].addrs[k := 0])]
    ensures forall j: nat, m: nat :: j < l.ninodes && m < SLOTS ==>
              SlotAddr(fs', j, m) ==
              if j == i && (m == k || (k == NDIRECT && m >= NDIRECT)) then 0 else SlotAddr(fs, j, m)
  {
    hide Marked, Word;
    forall j: nat, m: nat | j < l.ninodes && m < SLOTS
      ensures SlotAddr(fs', j, m) ==
              if j == i && (m == k || (k == NDIRECT && m >= NDIRECT)) then 0 else SlotAddr(fs, j, m)
    {
      if fs.inode[j].addrs[NDIRECT] != 0 {
        IndirectInRange(l, fs, owner, i, n, j);
      }
    }
  }

  lemma IndirectInRange(l: Layout, fs: Fs, owner: Owner, i: nat, n: nat, j: nat)
    requires OwnsBut(l, fs, owner, i, n) && j < l.ninodes && fs.inode[j].addrs[NDIRECT] != 0
    ensures l.DataStart() <= fs.inode[j].addrs[NDIRECT] < l.size
  {
    assert SlotAddr(fs, j, NDIRECT) == fs.inode[j].addrs[NDIRECT];
    assert SlotOk(fs, owner, j, NDIRECT);
    assert OwnerOk(l, fs, owner, fs.inode[j].addrs[NDIRECT]);
  }
}
