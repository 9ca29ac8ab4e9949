/** Disk sectors as the kernel sees them: 512 bytes, read either as bytes or as
    128 little-endian 32-bit words (fs.h, log.c). */
module Blocks {

  const BSIZE := 512
  const WORDS := 128

  type byte = x: int | 0 <= x < 0x100
  type uint = x: int | 0 <= x < 0x1_0000_0000

  type Block = b: seq<byte> | |b| == BSIZE witness seq(512, i => 0)

  function ZeroBlock(): (b: Block)
    ensures forall i :: 0 <= i < BSIZE ==> b[i] == 0
  {
    seq(BSIZE, i => 0)
  }

  /** Two and four bytes from position p on, the lowest first. */
  function Le16(b: seq<byte>, p: nat): int
    requires p + 2 <= |b|
  {
    var b0: int, b1: int := b[p], b[p + 1];
    b0 + 0x100 * b1
  }

  function Le32(b: seq<byte>, p: nat): int
    requires p + 4 <= |b|
  {
    var b0: int, b1: int, b2: int, b3: int := b[p], b[p + 1], b[p + 2], b[p + 3];
    b0 + 0x100 * b1 + 0x1_0000 * b2 + 0x100_0000 * b3
  }

  /** The i-th 32-bit word of a block. */
  function Word(b: Block, i: nat): uint
    requires i < WORDS
  {
    var b0: int, b1: int, b2: int, b3: int := b[4 * i], b[4 * i + 1], b[4 * i + 2], b[4 * i + 3];
    b0 + 0x100 * b1 + 0x1_0000 * b2 + 0x100_0000 * b3
  }

  /** Store a 32-bit word: the other 127 words keep their value. */
  function WithWord(b: Block, i: nat, w: uint): (r: Block)
    requires i < WORDS
    ensures Word(r, i) == w
    ensures forall j: nat :: j < WORDS && j != i ==> Word(r, j) == Word(b, j)
  {
    var r: Block := b[4 * i := w % 0x100][4 * i + 1 := w / 0x100 % 0x100]
                     [4 * i + 2 := w / 0x1_0000 % 0x100][4 * i + 3 := w / 0x100_0000];
    assert Word(r, i) == w by { WordBytes(w); }
    assert forall j: nat :: j < WORDS && j != i ==> Word(r, j) == Word(b, j) by {
      forall j: nat | j < WORDS && j != i
        ensures Word(r, j) == Word(b, j)
      {
        OtherWord(b, r, i, j);
      }
    }
    r
  }

  lemma WordBytes(w: uint)
    ensures w % 0x100 + 0x100 * (w / 0x100 % 0x100) + 0x1_0000 * (w / 0x1_0000 % 0x100)
            + 0x100_0000 * (w / 0x100_0000) == w
  {
  }

  /** A word none of whose bytes changed. */
  lemma OtherWord(b: Block, r: Block, i: nat, j: nat)
    requires i < WORDS && j < WORDS && j != i
    requires forall k :: 0 <= k < BSIZE && !(4 * i <= k < 4 * i + 4) ==> r[k] == b[k]
    ensures Word(r, j) == Word(b, j)
  {
    assert 4 * j + 3 < 4 * i || 4 * i + 4 <= 4 * j;
  }
}
