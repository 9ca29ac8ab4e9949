/** On-disk layout of the file system (fs.h): where inodes and bitmap bits live and
    how they are packed into sectors. */
module FsLayout {
  import opened Blocks

  const NDIRECT := 124
  const NINDIRECT := 128
  const MAXFILE := NDIRECT + NINDIRECT
  const BPB := 4096

  const T_DIR := 1
  const T_FILE := 2
  const T_DEV := 3

  // ---------- bits ----------

  /** Bit k of x, counted from the lowest. */
  predicate Bit(x: nat, k: nat) {
    if k == 0 then x % 2 == 1 else Bit(x / 2, k - 1)
  }

  /** x with bit k set. */
  function SetBit(x: nat, k: nat): (r: nat)
  {
    if k == 0 then x / 2 * 2 + 1 else SetBit(x / 2, k - 1) * 2 + x % 2
  }

  /** x with bit k cleared. */
  function ClearBit(x: nat, k: nat): (r: nat)
    ensures r <= x
  {
    if k == 0 then x / 2 * 2 else ClearBit(x / 2, k - 1) * 2 + x % 2
  }

  function Pow2(n: nat): (r: nat)
    ensures r > 0
  {
    if n == 0 then 1 else 2 * Pow2(n - 1)
  }

  lemma {:induction false} SetBitBound(x: nat, k: nat, n: nat)
    requires k < n && x < Pow2(n)
    ensures SetBit(x, k) < Pow2(n)
  {
    if k > 0 {
      SetBitBound(x / 2, k - 1, n - 1);
    }
  }

  lemma {:induction false} SetBitAt(x: nat, k: nat, j: nat)
    ensures Bit(SetBit(x, k), j) <==> j == k || Bit(x, j)
  {
    if k > 0 && j > 0 {
      SetBitAt(x / 2, k - 1, j - 1);
    }
  }

  lemma {:induction false} ClearBitAt(x: nat, k: nat, j: nat)
    ensures Bit(ClearBit(x, k), j) <==> j != k && Bit(x, j)
  {
    if k > 0 && j > 0 {
      ClearBitAt(x / 2, k - 1, j - 1);
    }
  }

  // ---------- layout ----------

  /** The superblock's numbers. An inode fills a whole sector (IPB is 1). */
  datatype Layout = Layout(size: nat, ninodes: nat, nlog: nat) {

    function Iblock(inum: nat): nat { inum + 2 }

    function Bblock(b: nat): nat { b / BPB + ninodes + 3 }

    /** First sector behind the bitmap (mkfs: usedblocks). */
    function DataStart(): nat { ninodes + 3 + size / BPB + 1 }

    function LogStart(): int { size - nlog }

    ghost predicate Ok() {
      DataStart() <= LogStart() <= size < 0x1_0000_0000
    }
  }

  predicate Marked(l: Layout, img: seq<Block>, b: nat)
    requires b < l.size && l.DataStart() <= |img|
  {
    BblockBound(l, b);
    Bit(img[l.Bblock(b)][b % BPB / 8], b % BPB % 8)
  }

  lemma BblockBound(l: Layout, b: nat)
    requires b < l.size
    ensures l.ninodes + 3 <= l.Bblock(b) < l.DataStart()
  {
  }

  lemma ByteRange(x: byte, k: nat)
    requires k < 8
    ensures SetBit(x, k) < 0x100 && ClearBit(x, k) < 0x100
  {
    assert Pow2(8) == 0x100 by {
      assert Pow2(4) == 16;
    }
    SetBitBound(x, k, 8);
  }

  /** A bitmap sector with bit bi set or cleared. */
  function SectorMark(blk: Block, bi: nat, on: bool): Block
    requires bi < BPB
  {
    ByteRange(blk[bi / 8], bi % 8);
    blk[bi / 8 := if on then SetBit(blk[bi / 8], bi % 8) else ClearBit(blk[bi / 8], bi % 8)]
  }

  /** Set or clear the bitmap bit of block b. */
  function WithMark(l: Layout, img: seq<Block>, b: nat, on: bool): (r: seq<Block>)
    requires b < l.size && l.DataStart() <= |img|
    ensures |r| == |img|
  {
    BblockBound(l, b);
    img[l.Bblock(b) := SectorMark(img[l.Bblock(b)], b % BPB, on)]
  }

  /** Block b's mark is bit b % 8 of byte b % 4096 / 8 of bitmap sector b / 4096; the bitmap
      begins behind the two first sectors, the inodes and one more. */
  lemma MarkIsBit(l: Layout, img: seq<Block>, b: nat)
    requires b < l.size && l.DataStart() <= |img|
    ensures b / 4096 + l.ninodes + 3 < |img|
    ensures Marked(l, img, b) <==>
            img[b / 4096 + l.ninodes + 3][b % 4096 / 8] / Pow2(b % 8) % 2 == 1
  {
    hide Bit;
    BblockBound(l, b);
    SameBit(b);
    BitIsQuotient(img[l.Bblock(b)][b % BPB / 8], b % 8);
  }

  lemma {:induction false} BitIsQuotient(x: nat, k: nat)
    ensures Bit(x, k) <==> x / Pow2(k) % 2 == 1
  {
    if k > 0 {
      BitIsQuotient(x / 2, k - 1);
      HalfFirst(x, Pow2(k - 1));
    }
  }

  lemma HalfFirst(x: nat, m: nat)
    requires m > 0
    ensures x / 2 / m == x / (2 * m)
  {
    var d, s := DivMod(x / 2, m);
    Twice(m, d);
    QuotientIs(x, 2 * m, d, 2 * s + x % 2);
  }

  lemma DivMod(y: nat, m: nat) returns (d: nat, s: nat)
    requires m > 0
    ensures d == y / m && y == m * d + s && s < m
  {
    d, s := y / m, y % m;
  }

  lemma Twice(m: nat, d: nat)
    ensures 2 * m * d == m * d + m * d
  {
  }

  lemma SameBit(b: nat)
    ensures b % 4096 % 8 == b % 8
  {
  }

  lemma QuotientIs(y: nat, m: nat, q: nat, r: nat)
    requires m > 0 && y == m * q + r && r < m
    ensures y / m == q
  {
    var d := y / m;
    assert y == m * d + y % m;
    if d < q {
      assert m * d + m <= m * q by { Grows(m, d + 1, q); }
    } else if d > q {
      assert m * q + m <= m * d by { Grows(m, q + 1, d); }
    }
  }

  lemma Grows(m: nat, a: nat, b: nat)
    requires a <= b
    ensures m * a <= m * b
  {
  }

  /** Two blocks share a bitmap bit only if they are the same block. */
  lemma BitPlace(b: nat, c: nat)
    requires b / BPB == c / BPB && b % BPB / 8 == c % BPB / 8 && b % BPB % 8 == c % BPB % 8
    ensures b == c
  {
  }

  /** Changing one mark leaves all the others and all other sectors alone. */
  lemma WithMarkAt(l: Layout, img: seq<Block>, b: nat, on: bool, c: nat)
    requires b < l.size && c < l.size && l.DataStart() <= |img|
    ensures Marked(l, WithMark(l, img, b, on), c) <==> (if c == b then on else Marked(l, img, c))
  {
    var x, k, j := img[l.Bblock(b)][b % BPB / 8], b % BPB % 8, c % BPB % 8;
    SetBitAt(x, k, j);
    ClearBitAt(x, k, j);
    if c != b && b / BPB == c / BPB && b % BPB / 8 == c % BPB / 8 {
      assert k != j by {
        if k == j { BitPlace(b, c); }
      }
    }
  }

  /** Block b is free in img' and nothing else differs from img. */
  ghost predicate Unmarked(l: Layout, img: seq<Block>, img': seq<Block>, b: nat)
    requires b < l.size && l.DataStart() <= |img|
  {
    && |img'| == |img| && !Marked(l, img', b)
    && (forall c: nat :: c < l.size && c != b ==> (Marked(l, img', c) <==> Marked(l, img, c)))
    && (forall s: nat :: s < |img| && s != l.Bblock(b) ==> img'[s] == img[s])
  }

  lemma UnmarkedBy(l: Layout, img: seq<Block>, b: nat)
    requires b < l.size && l.DataStart() <= |img|
    ensures Unmarked(l, img, WithMark(l, img, b, false), b)
  {
    forall c: nat | c < l.size
      ensures Marked(l, WithMark(l, img, b, false), c) <==> c != b && Marked(l, img, c)
    {
      WithMarkAt(l, img, b, false, c);
    }
  }

  // ---------- inodes ----------

  type Addrs = a: seq<uint> | |a| == NDIRECT + 1 witness seq(125, i => 0)

  type ushort = x: int | 0 <= x < 0x1_0000

  datatype Inode = Inode(kind: ushort, major: ushort, minor: ushort, nlink: ushort, size: uint, addrs: Addrs)

  /** The 128 words of a dinode. */
  function InodeWords(ip: Inode): (ws: seq<uint>)
    ensures |ws| == WORDS
  {
    var kind: int, minor: int := ip.kind, ip.minor;
    [kind + 0x1_0000 * ip.major, minor + 0x1_0000 * ip.nlink, ip.size] + ip.addrs
  }

  function FromWords(ws: seq<uint>): (b: Block)
    requires |ws| == WORDS
  {
    seq(BSIZE, j requires 0 <= j < BSIZE => ByteOf(ws[j / 4], j % 4))
  }

  function ByteOf(w: uint, k: nat): byte
    requires k < 4
  {
    if k == 0 then w % 0x100 else if k == 1 then w / 0x100 % 0x100
    else if k == 2 then w / 0x1_0000 % 0x100 else w / 0x100_0000
  }

  /** What iupdate stores in the inode's sector. */
  function EncodeInode(ip: Inode): Block {
    FromWords(InodeWords(ip))
  }

  /** What ilock reads from it. */
  function DecodeInode(b: Block): Inode {
    var w0: int, w1: int := Word(b, 0), Word(b, 1);
    Inode(w0 % 0x1_0000, w0 / 0x1_0000, w1 % 0x1_0000, w1 / 0x1_0000, Word(b, 2),
          seq(NDIRECT + 1, k requires 0 <= k <= NDIRECT => Word(b, k + 3)))
  }

  /** The sector holds the inode: type, major, minor and nlink in two bytes each, then the
      size and the block addresses in four. */
  ghost predicate InodeAt(b: Block, ip: Inode) {
    && Le16(b, 0) == ip.kind && Le16(b, 2) == ip.major && Le16(b, 4) == ip.minor && Le16(b, 6) == ip.nlink
    && Le32(b, 8) == ip.size && forall k :: 0 <= k <= 124 ==> Le32(b, 12 + 4 * k) == ip.addrs[k]
  }

  lemma DecodesBytes(b: Block)
    ensures InodeAt(b, DecodeInode(b))
  {
    WordIsBytes(b, 0);
    WordIsBytes(b, 1);
    WordIsBytes(b, 2);
    hide Word, Le32;
    forall k | 0 <= k <= 124 ensures Le32(b, 12 + 4 * k) == DecodeInode(b).addrs[k] {
      WordIsBytes(b, k + 3);
    }
  }

  lemma WordIsBytes(b: Block, i: nat)
    requires i < WORDS
    ensures Word(b, i) == Le32(b, 4 * i)
    ensures Word(b, i) % 0x1_0000 == Le16(b, 4 * i) && Word(b, i) / 0x1_0000 == Le16(b, 4 * i + 2)
  {
  }

  lemma EncodesBytes(ip: Inode)
    ensures InodeAt(EncodeInode(ip), ip)
  {
    InodeRoundTrip(ip);
    DecodesBytes(EncodeInode(ip));
  }

  lemma BytesOfWord(w: uint)
    ensures ByteOf(w, 0) as int + 0x100 * ByteOf(w, 1) as int + 0x1_0000 * ByteOf(w, 2) as int
            + 0x100_0000 * ByteOf(w, 3) as int == w
  {
  }

  lemma FromWordsAt(ws: seq<uint>, i: nat, k: nat)
    requires |ws| == WORDS && i < WORDS && k < 4
    ensures FromWords(ws)[4 * i + k] == ByteOf(ws[i], k)
  {
    assert (4 * i + k) / 4 == i && (4 * i + k) % 4 == k;
  }

  lemma WordFromWords(ws: seq<uint>, i: nat)
    requires |ws| == WORDS && i < WORDS
    ensures Word(FromWords(ws), i) == ws[i]
  {
    hide ByteOf, FromWords;
    FromWordsAt(ws, i, 0);
    FromWordsAt(ws, i, 1);
    FromWordsAt(ws, i, 2);
    FromWordsAt(ws, i, 3);
    BytesOfWord(ws[i]);
  }

  /** iupdate followed by ilock gives back the same inode. */
  lemma InodeRoundTrip(ip: Inode)
    ensures DecodeInode(EncodeInode(ip)) == ip
  {
    hide FromWords, Word;
    var ws, b := InodeWords(ip), EncodeInode(ip);
    WordFromWords(ws, 0);
    WordFromWords(ws, 1);
    WordFromWords(ws, 2);
    forall k | 0 <= k <= NDIRECT ensures Word(b, k + 3) == ip.addrs[k] {
      WordFromWords(ws, k + 3);
    }
    assert DecodeInode(b).addrs == ip.addrs;
  }
}
