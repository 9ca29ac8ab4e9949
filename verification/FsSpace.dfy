/** How many blocks an operation needs, and whether they fit below the log. The bitmap scan
    of balloc runs over the whole disk, the log area included, so an operation that needs
    more blocks than are free below the log takes them from the log. */
module FsSpace {
  import opened Blocks
  import opened FsLayout
  import opened FsOwner

  /** No block in the log area is in use. */
  ghost predicate InHome(l: Layout, owner: Owner) {
    forall b :: b in owner ==> b < l.LogStart()
  }

  ghost function HomeFree(l: Layout, owner: Owner): set<nat> {
    set b: nat | l.DataStart() <= b < l.LogStart() && b !in owner
  }

  /** HomeFree is what the bitmap shows as free below the log. */
  lemma HomeFreeIs(l: Layout, fs: Fs, owner: Owner, b: nat)
    requires Owns(l, fs, owner) && b < l.size
    ensures b in HomeFree(l, owner) <==> b < l.LogStart() && !Marked(l, fs.img, b)
  {
    hide Marked;
  }

  /** All free blocks, the log area included. */
  ghost function AllFree(l: Layout, owner: Owner): set<nat> {
    set b: nat | l.DataStart() <= b < l.size && b !in owner
  }

  lemma AllFreeIs(l: Layout, fs: Fs, owner: Owner, b: nat)
    requires Owns(l, fs, owner) && b < l.size
    ensures b in AllFree(l, owner) <==> !Marked(l, fs.img, b)
  {
    hide Marked;
  }

  lemma NoneFree(l: Layout, fs: Fs, owner: Owner)
    requires Owns(l, fs, owner) && forall b :: 0 <= b < l.size ==> Marked(l, fs.img, b)
    ensures AllFree(l, owner) == {}
  {
    hide Marked, OwnerOk, SlotOk;
    forall b: nat | b < l.size ensures b !in AllFree(l, owner) {
      AllFreeIs(l, fs, owner, b);
    }
  }

  /** n blocks were taken, from below the log while there were any. */
  ghost predicate Took(l: Layout, owner: Owner, owner': Owner, n: nat) {
    var f := |HomeFree(l, owner)|;
    && |AllFree(l, owner)| == |AllFree(l, owner')| + n
    && |HomeFree(l, owner')| == (if f >= n then f - n else 0)
    && (InHome(l, owner') <==> InHome(l, owner) && f >= n)
  }

  lemma TookChain(l: Layout, a: Owner, b: Owner, c: Owner, n: nat, m: nat)
    requires Took(l, a, b, n) && Took(l, b, c, m)
    ensures Took(l, a, c, n + m)
  {
    hide InHome, HomeFree, AllFree;
  }

  lemma TookNone(l: Layout, a: Owner)
    ensures Took(l, a, a, 0)
  {
  }

  lemma TookOne(l: Layout, fs: Fs, owner: Owner, b: nat, x: (nat, nat))
    requires Owns(l, fs, owner) && b < l.size && !Marked(l, fs.img, b)
    requires b >= l.LogStart() <==> forall c :: 0 <= c < l.LogStart() ==> Marked(l, fs.img, c)
    ensures Took(l, owner, owner[b := x], 1)
  {
    hide Marked, OwnerOk, SlotOk;
    var free, owner' := HomeFree(l, owner), owner[b := x];
    AllFreeIs(l, fs, owner, b);
    assert AllFree(l, owner') == AllFree(l, owner) - {b};
    if b < l.LogStart() {
      HomeFreeIs(l, fs, owner, b);
      assert HomeFree(l, owner') == free - {b};
      assert InHome(l, owner) ==> InHome(l, owner');
      assert InHome(l, owner') ==> InHome(l, owner) by {
        assert forall c :: c in owner ==> c in owner';
      }
    } else {
      assert free == {} by {
        forall c | c in free ensures false {
          HomeFreeIs(l, fs, owner, c);
        }
      }
      assert HomeFree(l, owner') == {};
      assert b in owner';
    }
  }

  /** Blocks that bmap must allocate for the bn-th block of file i. */
  ghost function Need(fs: Fs, i: nat, bn: nat): nat
    requires i < |fs.inode| && bn < MAXFILE
  {
    (if bn >= NDIRECT && fs.inode[i].addrs[NDIRECT] == 0 then 1 else 0) + (if BlockAddr(fs, i, bn) == 0 then 1 else 0)
  }

  /** Blocks missing from lo .. hi-1 of file i: the unmapped ones, and the indirect block if it
      is missing and one of them is behind it. */
  ghost function Missing(fs: Fs, i: nat, lo: nat, hi: nat): nat
    requires i < |fs.inode| && hi <= MAXFILE
    decreases hi
  {
    if hi <= lo then 0
    else
      Missing(fs, i, lo, hi - 1)
      + (if hi > NDIRECT && (hi - 1 == NDIRECT || hi - 1 == lo) && fs.inode[i].addrs[NDIRECT] == 0 then 1 else 0)
      + (if BlockAddr(fs, i, hi - 1) == 0 then 1 else 0)
  }

  /** Missing counts slots: the zero ones among those the range reaches. */
  lemma {:induction false} MissingIsZeroSlots(fs: Fs, i: nat, lo: nat, hi: nat)
    requires i < |fs.inode| && hi <= MAXFILE
    ensures Missing(fs, i, lo, hi) == |ZeroSlots(fs, i, lo, hi)|
    decreases hi
  {
    hide SlotAddr, ZeroSlots;
    if lo < hi {
      MissingIsZeroSlots(fs, i, lo, hi - 1);
      ZeroSlotsMore(fs, i, lo, hi - 1);
      IndirectSlot(fs, i);
    } else {
      assert ZeroSlots(fs, i, lo, hi) == {} by { NoZeroSlots(fs, i, lo, hi); }
    }
  }

  lemma NoZeroSlots(fs: Fs, i: nat, lo: nat, hi: nat)
    requires i < |fs.inode| && hi <= lo
    ensures ZeroSlots(fs, i, lo, hi) == {}
  {
    hide SlotAddr;
  }

  /** The slots that block bn adds to those of lo .. bn-1. */
  lemma ReachesMore(lo: nat, bn: nat, k: nat)
    requires lo <= bn < MAXFILE && k < SLOTS
    ensures Reaches(lo, bn + 1, k) <==>
            Reaches(lo, bn, k) || k == SlotFor(bn) || (k == NDIRECT && bn >= NDIRECT && (bn == NDIRECT || bn == lo))
    ensures Reaches(lo, bn, k) ==>
            k != SlotFor(bn) && !(k == NDIRECT && bn >= NDIRECT && (bn == NDIRECT || bn == lo))
  {
  }

  lemma CountTwo(was: set<nat>, now: set<nat>, a: bool, x: nat, b: bool, y: nat)
    requires x != y && (a ==> x !in was) && (b ==> y !in was)
    requires forall k: nat :: k in now <==> k in was || (a && k == x) || (b && k == y)
    ensures |now| == |was| + (if a then 1 else 0) + (if b then 1 else 0)
  {
    var one := was + if a then {x} else {};
    assert now == one + if b then {y} else {};
  }

  lemma ZeroSlotsMore(fs: Fs, i: nat, lo: nat, bn: nat)
    requires i < |fs.inode| && lo <= bn < MAXFILE
    ensures var extra := bn >= NDIRECT && (bn == NDIRECT || bn == lo) && SlotAddr(fs, i, NDIRECT) == 0;
      var was, now := ZeroSlots(fs, i, lo, bn), ZeroSlots(fs, i, lo, bn + 1);
      |now| == |was| + (if extra then 1 else 0) + (if BlockAddr(fs, i, bn) == 0 then 1 else 0)
  {
    hide SlotAddr, Reaches, SlotFor;
    var extra := bn >= NDIRECT && (bn == NDIRECT || bn == lo) && SlotAddr(fs, i, NDIRECT) == 0;
    var was, now := ZeroSlots(fs, i, lo, bn), ZeroSlots(fs, i, lo, bn + 1);
    forall k: nat | k < SLOTS
      ensures k in now <==>
              k in was || (extra && k == NDIRECT) || (BlockAddr(fs, i, bn) == 0 && k == SlotFor(bn))
      ensures k in was ==> !(extra && k == NDIRECT) && k != SlotFor(bn)
    {
      ReachesMore(lo, bn, k);
    }
    CountTwo(was, now, extra, NDIRECT, BlockAddr(fs, i, bn) == 0, SlotFor(bn));
  }

  lemma IndirectSlot(fs: Fs, i: nat)
    requires i < |fs.inode|
    ensures SlotAddr(fs, i, NDIRECT) == fs.inode[i].addrs[NDIRECT]
  {
  }

  /** The zero slots on the way to blocks lo .. hi-1: their own, and the indirect block's if
      some of them lie behind it. */
  ghost function ZeroSlots(fs: Fs, i: nat, lo: nat, hi: nat): set<nat>
    requires i < |fs.inode|
  {
    set k: nat | k < SLOTS && Reaches(lo, hi, k) && SlotAddr(fs, i, k) == 0
  }

  ghost predicate Reaches(lo: nat, hi: nat, k: nat) {
    if k == NDIRECT then lo < hi && hi > NDIRECT
    else lo <= (if k < NDIRECT then k else k - 1) < hi
  }

  /** Slots other than (i, k) are unchanged. */
  ghost predicate OnlySlot(fs: Fs, fs': Fs, i: nat, k: nat) {
    && |fs'.inode| == |fs.inode|
    && (forall j: nat, m: nat :: j < |fs.inode| && m < SLOTS && !(j == i && m == k) ==>
          SlotAddr(fs', j, m) == SlotAddr(fs, j, m))
  }

  /** Slots other than those on the way to block bn of file i are unchanged. */
  ghost predicate OnlyPath(fs: Fs, fs': Fs, i: nat, bn: nat)
    requires bn < MAXFILE
  {
    && |fs'.inode| == |fs.inode|
    && (forall j: nat, m: nat :: j < |fs.inode| && m < SLOTS && !OnPath(i, bn, j, m) ==>
          SlotAddr(fs', j, m) == SlotAddr(fs, j, m))
  }

  ghost predicate OnPath(i: nat, bn: nat, j: nat, m: nat)
    requires bn < MAXFILE
  {
    j == i && (m == SlotFor(bn) || (m == NDIRECT && bn >= NDIRECT))
  }

  lemma OnlyPathDirect(fs: Fs, fs': Fs, i: nat, bn: nat)
    requires bn < NDIRECT && OnlySlot(fs, fs', i, bn)
    ensures OnlyPath(fs, fs', i, bn)
  {
    hide SlotAddr;
  }

  lemma OnlyPathNone(fs: Fs, i: nat, bn: nat)
    requires bn < MAXFILE
    ensures OnlyPath(fs, fs, i, bn)
  {
  }

  lemma OnlyPathTwo(a: Fs, b: Fs, c: Fs, i: nat, bn: nat)
    requires NDIRECT <= bn < MAXFILE && OnlySlot(a, b, i, NDIRECT) && OnlySlot(b, c, i, SlotFor(bn)) && i < |a.inode|
    ensures OnlyPath(a, c, i, bn) && BlockAddr(b, i, bn) == BlockAddr(a, i, bn)
  {
    hide SlotAddr;
  }

  lemma OnlyPathThen(a: Fs, b: Fs, c: Fs, i: nat, bn: nat)
    requires bn < MAXFILE && OnlyPath(a, b, i, bn) && SameSlots(b, c)
    ensures OnlyPath(a, c, i, bn)
  {
    hide SlotAddr;
  }

  /** Blocks lo .. hi-1 of file i have been mapped and paid for; the others are as before. */
  ghost predicate Paid(l: Layout, before: Fs, owner0: Owner, fs: Fs, owner: Owner, i: nat, lo: nat, hi: nat) {
    && hi <= MAXFILE && i < |before.inode| && i < |fs.inode|
    && Took(l, owner0, owner, Missing(before, i, lo, hi))
    && (forall bn: nat :: hi <= bn < MAXFILE ==> (BlockAddr(fs, i, bn) == 0 <==> BlockAddr(before, i, bn) == 0))
    && (fs.inode[i].addrs[NDIRECT] == 0 <==>
          before.inode[i].addrs[NDIRECT] == 0 && !(lo < hi && hi > NDIRECT))
  }

  lemma {:induction false} MissingGrows(fs: Fs, i: nat, lo: nat, hi: nat, e: nat)
    requires i < |fs.inode| && hi <= e <= MAXFILE
    ensures Missing(fs, i, lo, hi) <= Missing(fs, i, lo, e)
    decreases e
  {
    hide SlotAddr;
    if hi < e {
      MissingGrows(fs, i, lo, hi, e - 1);
    }
  }

  /** A block that cannot be had on the way means that there were not enough to begin with. */
  lemma PaidShort(l: Layout, before: Fs, owner0: Owner, mid: Fs, owner1: Owner, i: nat, lo: nat, hi: nat, e: nat)
    requires Paid(l, before, owner0, mid, owner1, i, lo, hi) && lo <= hi < e <= MAXFILE
    requires |AllFree(l, owner1)| < Need(mid, i, hi)
    ensures |AllFree(l, owner0)| < Missing(before, i, lo, e)
  {
    hide Word, AllFree, HomeFree, InHome;
    IndirectSlot(mid, i);
    IndirectSlot(before, i);
    assert BlockAddr(mid, i, hi) == 0 <==> BlockAddr(before, i, hi) == 0;
    assert Missing(before, i, lo, hi + 1) == Missing(before, i, lo, hi) + Need(mid, i, hi);
    MissingGrows(before, i, lo, hi + 1, e);
  }

  lemma PaidNone(l: Layout, fs: Fs, owner: Owner, i: nat, lo: nat)
    requires lo <= MAXFILE && i < |fs.inode|
    ensures Paid(l, fs, owner, fs, owner, i, lo, lo)
  {
    hide SlotAddr, Took;
    TookNone(l, owner);
  }

  lemma PaidMore(l: Layout, before: Fs, owner0: Owner, mid: Fs, owner1: Owner, fs: Fs, owner2: Owner,
                 i: nat, lo: nat, hi: nat)
    requires Paid(l, before, owner0, mid, owner1, i, lo, hi) && lo <= hi < MAXFILE
    requires i < |fs.inode| && OnlyPath(mid, fs, i, hi) && BlockAddr(fs, i, hi) != 0
    requires Took(l, owner1, owner2, Need(mid, i, hi))
    ensures Paid(l, before, owner0, fs, owner2, i, lo, hi + 1)
  {
    hide Took, Word;
    IndirectSlot(mid, i);
    IndirectSlot(fs, i);
    IndirectSlot(before, i);
    assert Missing(before, i, lo, hi + 1) == Missing(before, i, lo, hi) + Need(mid, i, hi);
    TookChain(l, owner0, owner1, owner2, Missing(before, i, lo, hi), Need(mid, i, hi));
    if hi >= NDIRECT {
      assert fs.inode[i].addrs[NDIRECT] != 0;
    } else {
      assert !OnPath(i, hi, i, NDIRECT);
    }
    forall bn: nat | hi + 1 <= bn < MAXFILE
      ensures BlockAddr(fs, i, bn) == 0 <==> BlockAddr(before, i, bn) == 0
    {
      assert !OnPath(i, hi, i, SlotFor(bn));
      assert BlockAddr(mid, i, bn) == 0 <==> BlockAddr(before, i, bn) == 0;
    }
  }

  lemma {:induction false} MissingSplit(before: Fs, mid: Fs, i: nat, lo: nat, hi: nat, e: nat)
    requires lo <= hi <= e <= MAXFILE && i < |before.inode| && i < |mid.inode|
    requires forall bn: nat :: hi <= bn < MAXFILE ==> (BlockAddr(mid, i, bn) == 0 <==> BlockAddr(before, i, bn) == 0)
    requires mid.inode[i].addrs[NDIRECT] == 0 <==>
             before.inode[i].addrs[NDIRECT] == 0 && !(lo < hi && hi > NDIRECT)
    ensures Missing(before, i, lo, e) == Missing(before, i, lo, hi) + Missing(mid, i, hi, e)
    decreases e
  {
    hide SlotAddr;
    if hi < e {
      MissingSplit(before, mid, i, lo, hi, e - 1);
      assert BlockAddr(mid, i, e - 1) == 0 <==> BlockAddr(before, i, e - 1) == 0;
    }
  }

  /** Two stretches, one behind the other, cost what the whole costs. */
  lemma PaidJoin(l: Layout, before: Fs, owner0: Owner, mid: Fs, owner1: Owner, fs: Fs, owner2: Owner,
                 i: nat, lo: nat, hi: nat, e: nat)
    requires lo <= hi <= e
    requires Paid(l, before, owner0, mid, owner1, i, lo, hi) && Paid(l, mid, owner1, fs, owner2, i, hi, e)
    ensures Paid(l, before, owner0, fs, owner2, i, lo, e)
  {
    hide Took, SlotAddr, Missing;
    MissingSplit(before, mid, i, lo, hi, e);
    TookChain(l, owner0, owner1, owner2, Missing(before, i, lo, hi), Missing(mid, i, hi, e));
    forall bn: nat | e <= bn < MAXFILE
      ensures BlockAddr(fs, i, bn) == 0 <==> BlockAddr(before, i, bn) == 0
    {
      assert BlockAddr(mid, i, bn) == 0 <==> BlockAddr(before, i, bn) == 0;
    }
  }

  lemma PaidSame(l: Layout, before: Fs, owner0: Owner, mid: Fs, fs: Fs, owner: Owner, i: nat, lo: nat, hi: nat)
    requires Paid(l, before, owner0, mid, owner, i, lo, hi) && SameSlots(mid, fs)
    ensures Paid(l, before, owner0, fs, owner, i, lo, hi)
  {
    hide Took, SlotAddr;
    IndirectSlot(mid, i);
    IndirectSlot(fs, i);
    forall bn: nat | hi <= bn < MAXFILE
      ensures BlockAddr(fs, i, bn) == 0 <==> BlockAddr(before, i, bn) == 0
    {
      assert BlockAddr(mid, i, bn) == 0 <==> BlockAddr(before, i, bn) == 0;
    }
  }

  lemma {:induction false} NoneMissing(fs: Fs, i: nat, lo: nat, hi: nat)
    requires i < |fs.inode| && hi <= MAXFILE && forall bn: nat :: lo <= bn < hi ==> BlockAddr(fs, i, bn) != 0
    ensures Missing(fs, i, lo, hi) == 0
    ensures lo < hi && hi > NDIRECT ==> fs.inode[i].addrs[NDIRECT] != 0
    decreases hi
  {
    hide Word;
    if lo < hi {
      assert BlockAddr(fs, i, hi - 1) != 0;
      NoneMissing(fs, i, lo, hi - 1);
    }
  }

  /** Blocks that are mapped already cost nothing. */
  lemma PaidInside(l: Layout, before: Fs, owner0: Owner, mid: Fs, owner1: Owner, fs: Fs, owner2: Owner,
                   i: nat, lo: nat, hi: nat, lo': nat, hi': nat)
    requires Paid(l, before, owner0, mid, owner1, i, lo, hi) && Paid(l, mid, owner1, fs, owner2, i, lo', hi')
    requires lo' <= hi' <= hi && forall bn: nat :: lo' <= bn < hi' ==> BlockAddr(mid, i, bn) != 0
    ensures Paid(l, before, owner0, fs, owner2, i, lo, hi)
  {
    hide Took, SlotAddr, Missing;
    NoneMissing(mid, i, lo', hi');
    TookChain(l, owner0, owner1, owner2, Missing(before, i, lo, hi), 0);
    forall bn: nat | hi <= bn < MAXFILE
      ensures BlockAddr(fs, i, bn) == 0 <==> BlockAddr(before, i, bn) == 0
    {
      assert BlockAddr(mid, i, bn) == 0 <==> BlockAddr(before, i, bn) == 0;
    }
  }

  /** A mapped block in front costs nothing. */
  lemma {:induction false} MissingAfter(fs: Fs, i: nat, bn: nat, e: nat)
    requires i < |fs.inode| && bn < e <= MAXFILE && BlockAddr(fs, i, bn) != 0
    ensures Missing(fs, i, bn, e) == Missing(fs, i, bn + 1, e)
    decreases e
  {
    hide Word;
    if bn + 1 < e {
      MissingAfter(fs, i, bn, e - 1);
      assert bn >= NDIRECT ==> fs.inode[i].addrs[NDIRECT] != 0;
    } else {
      assert Missing(fs, i, bn, bn) == 0 && Missing(fs, i, bn + 1, bn + 1) == 0;
      assert bn >= NDIRECT ==> fs.inode[i].addrs[NDIRECT] != 0;
    }
  }

  /** A stretch that starts in the last block of the one before it. */
  lemma PaidOverlap(l: Layout, before: Fs, owner0: Owner, mid: Fs, owner1: Owner, fs: Fs, owner2: Owner,
                    i: nat, lo: nat, hi: nat, e: nat)
    requires lo < hi <= e && Paid(l, before, owner0, mid, owner1, i, lo, hi) && BlockAddr(mid, i, hi - 1) != 0
    requires Paid(l, mid, owner1, fs, owner2, i, hi - 1, e)
    ensures Paid(l, before, owner0, fs, owner2, i, lo, e)
  {
    hide Word, Took, Missing;
    assert Paid(l, mid, owner1, fs, owner2, i, hi, e) by {
      MissingAfter(mid, i, hi - 1, e);
      assert hi - 1 >= NDIRECT ==> mid.inode[i].addrs[NDIRECT] != 0;
    }
    PaidJoin(l, before, owner0, mid, owner1, fs, owner2, i, lo, hi, e);
  }
}
