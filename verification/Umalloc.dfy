/** The Kernighan and Ritchie allocator of umalloc.c. Addresses count in header
    units. The free list is a ring through the headers, in address order, starting
    at the static header `base`, which lies below the heap. */
module Umalloc {
  import opened Finite

  datatype Header = Header(ptr: nat, size: nat)

  /** Position of the ring behind position i. */
  function Succ(n: nat, i: nat): nat
    requires i < n
    ensures Succ(n, i) < n
  {
    if i + 1 == n then 0 else i + 1
  }

  ghost predicate Ascending(ring: seq<nat>) {
    forall i, j :: 0 <= i < j < |ring| ==> ring[i] < ring[j]
  }

  /** Memory as the allocator uses it, headers by address; with the ghost view of it:
      the ring in address order, the free and the live blocks, and for every unit
      obtained from sbrk the block it belongs to. */
  datatype Heap = Heap(base: nat, hdr: map<nat, Header>, ring: seq<nat>,
                       free: set<nat>, live: set<nat>, own: map<nat, nat>) {
    function Size(a: nat): nat {
      if a in hdr then hdr[a].size else 0
    }

    ghost predicate IsBlock(a: nat) {
      a in own && own[a] == a
    }

    /** Header i points to header i+1, the last one to the first. */
    ghost predicate Link(i: nat)
      requires i < |ring|
    {
      ring[i] in hdr && hdr[ring[i]].ptr == ring[Succ(|ring|, i)]
    }

    ghost predicate InRing(a: nat) {
      exists i :: 1 <= i < |ring| && ring[i] == a
    }

    /** The ring runs through the free blocks in address order. */
    ghost predicate Ring() {
      && ring != [] && ring[0] == base && Size(base) == 0
      && Ascending(ring)
      && (forall i: nat :: i < |ring| ==> Link(i))
      && (forall i :: 1 <= i < |ring| ==> ring[i] in free)
      && (forall a :: a in free ==> InRing(a))
    }

    ghost predicate UnitOk(u: nat)
      requires u in own
    {
      IsBlock(own[u]) && base < own[u] <= u < own[u] + Size(own[u])
    }

    ghost predicate Covers(a: nat) {
      forall u: nat :: a <= u < a + Size(a) ==> u in own && own[u] == a
    }

    /** The blocks, free and live together, tile the memory obtained from sbrk. */
    ghost predicate Tiled() {
      && (forall u :: u in own ==> UnitOk(u))
      && (forall a :: IsBlock(a) ==> Covers(a))
      && (forall a :: IsBlock(a) <==> a in live || a in free)
      && live !! free
    }

    /** Everything but the absence of adjacent free blocks. */
    ghost predicate Sound() {
      Ring() && Tiled()
    }

    /** Free blocks i and i+1 do not touch. */
    ghost predicate Apart(i: nat)
      requires i + 1 < |ring|
    {
      ring[i] + Size(ring[i]) != ring[i + 1]
    }

    ghost predicate Valid() {
      Sound() && forall i: nat :: i + 1 < |ring| ==> Apart(i)
    }
  }

  /** Blocks do not overlap. */
  lemma Disjoint(h: Heap, a: nat, b: nat)
    requires h.Tiled() && h.IsBlock(a) && h.IsBlock(b) && a < b
    ensures 0 < h.Size(a) && a + h.Size(a) <= b
  {
    assert h.Covers(a) && h.UnitOk(a);
  }

  // ---------- conservation ----------

  ghost function Pick(s: set<nat>): (a: nat)
    requires s != {}
    ensures a in s
  {
    var a :| a in s;
    a
  }

  /** Units of the given blocks together, by their headers. */
  ghost function TotalSize(h: Heap, blocks: set<nat>): nat {
    if blocks == {} then 0
    else h.Size(Pick(blocks)) + TotalSize(h, blocks - {Pick(blocks)})
  }

  ghost function UnitsOf(h: Heap, blocks: set<nat>): set<nat> {
    set u | u in h.own && h.own[u] in blocks
  }

  /** A block's units are a run from its header on. */
  lemma UnitsSplit(h: Heap, blocks: set<nat>, a: nat)
    requires h.Tiled() && a in blocks && forall b :: b in blocks ==> h.IsBlock(b)
    ensures UnitsOf(h, blocks) == UnitsOf(h, blocks - {a}) + Range(a, a + h.Size(a))
    ensures UnitsOf(h, blocks - {a}) !! Range(a, a + h.Size(a))
  {
    assert h.Covers(a);
    forall u | u in h.own && h.own[u] == a
      ensures a <= u < a + h.Size(a)
    {
      assert h.UnitOk(u);
    }
  }

  lemma {:induction false} TotalIsCount(h: Heap, blocks: set<nat>)
    requires h.Tiled() && forall a :: a in blocks ==> h.IsBlock(a)
    ensures TotalSize(h, blocks) == |UnitsOf(h, blocks)|
  {
    hide Heap.Tiled;
    if blocks == {} {
      assert UnitsOf(h, blocks) == {};
    } else {
      var a := Pick(blocks);
      TotalIsCount(h, blocks - {a});
      UnitsSplit(h, blocks, a);
      hide UnitsOf;
    }
  }

  /** Free units and live units together are the units obtained from sbrk. */
  lemma Conservation(h: Heap)
    requires h.Tiled()
    ensures TotalSize(h, h.free) + TotalSize(h, h.live) == |h.own.Keys|
  {
    TotalIsCount(h, h.free);
    TotalIsCount(h, h.live);
    forall u | u in h.own ensures h.own[u] in h.free || h.own[u] in h.live {
      assert h.UnitOk(u);
    }
    assert h.own.Keys == UnitsOf(h, h.free) + UnitsOf(h, h.live);
    assert UnitsOf(h, h.free) !! UnitsOf(h, h.live);
  }

  // ---------- free ----------

  function InsertAt(ring: seq<nat>, j: nat, bp: nat): (r: seq<nat>)
    requires j < |ring|
    ensures |r| == |ring| + 1
    ensures forall i :: 0 <= i < |r| ==> r[i] == if i <= j then ring[i] else if i == j + 1 then bp else ring[i - 1]
  {
    ring[..j + 1] + [bp] + ring[j + 1..]
  }

  /** Link a live block into the ring behind position j. */
  ghost function Insert(h: Heap, j: nat, bp: nat): Heap
    requires j < |h.ring| && h.ring[j] in h.hdr && bp in h.hdr
  {
    var p := h.ring[j];
    h.(hdr := h.hdr[bp := h.hdr[bp].(ptr := h.hdr[p].ptr)][p := h.hdr[p].(ptr := bp)],
       ring := InsertAt(h.ring, j, bp),
       live := h.live - {bp}, free := h.free + {bp})
  }

  lemma InsertIndex(ring: seq<nat>, j: nat, bp: nat, i: nat)
    requires j < |ring| && i <= |ring|
    ensures |InsertAt(ring, j, bp)| == |ring| + 1
    ensures InsertAt(ring, j, bp)[i] == if i <= j then ring[i] else if i == j + 1 then bp else ring[i - 1]
  {
  }

  lemma InsertLink(h: Heap, j: nat, bp: nat, i: nat)
    requires j < |h.ring| && i <= |h.ring| && bp in h.hdr && h.ring[j] != bp && h.Link(j)
    requires var o: nat := if i <= j then i else i - 1;
      i != j + 1 ==> h.Link(o) && h.ring[o] != bp && (o != j ==> h.ring[o] != h.ring[j])
    ensures Insert(h, j, bp).Link(i)
  {
    hide InsertAt;
    var n := |h.ring|;
    InsertIndex(h.ring, j, bp, i);
    InsertIndex(h.ring, j, bp, Succ(n + 1, i));
    var h' := Insert(h, j, bp);
    if i != j {
      var o: nat := if i <= j then i else i - 1;
      assert h'.ring[Succ(n + 1, i)] == h.ring[Succ(n, o)];
    }
  }

  lemma InsertAscending(ring: seq<nat>, j: nat, bp: nat)
    requires Ascending(ring) && j < |ring| && ring[j] < bp && (j + 1 < |ring| ==> bp < ring[j + 1])
    ensures Ascending(InsertAt(ring, j, bp))
  {
    var r := InsertAt(ring, j, bp);
    forall a, b | 0 <= a < b < |r| ensures r[a] < r[b] {
      assert a < j ==> ring[a] < ring[j];
      assert b > j + 2 ==> ring[j + 1] < ring[b - 1];
    }
  }

  lemma InsertRing(h: Heap, j: nat, bp: nat)
    requires h.Ring() && j < |h.ring| && bp in h.hdr && bp !in h.free && h.ring[j] in h.hdr
    requires h.ring[j] < bp && (j + 1 < |h.ring| ==> bp < h.ring[j + 1])
    ensures Insert(h, j, bp).Ring()
  {
    hide Ascending, Heap.InRing;
    var h', n := Insert(h, j, bp), |h.ring|;
    InsertAscending(h.ring, j, bp);
    forall i: nat | i < n + 1 ensures h'.Link(i) {
      var o: nat := if i <= j then i else i - 1;
      assert h.Link(j) && h.Link(o);
      AscendingApart(h.ring, o, j);
      AscendingApart(h.ring, 0, j);
      InsertLink(h, j, bp, i);
    }
    forall a | a in h'.free ensures h'.InRing(a) {
      InsertIn(h, j, bp, a);
    }
    assert h.base != bp by { AscendingFirst(h.ring, j); }
  }

  lemma AscendingApart(ring: seq<nat>, i: nat, j: nat)
    requires Ascending(ring) && i < |ring| && j < |ring|
    ensures i != j ==> ring[i] != ring[j]
    ensures i <= j ==> ring[i] <= ring[j]
  {
  }

  lemma AscendingFirst(ring: seq<nat>, j: nat)
    requires Ascending(ring) && j < |ring|
    ensures ring[0] <= ring[j]
  {
  }

  lemma InsertIn(h: Heap, j: nat, bp: nat, a: nat)
    requires h.Ring() && j < |h.ring| && bp in h.hdr && h.ring[j] in h.hdr && (a in h.free || a == bp)
    ensures Insert(h, j, bp).InRing(a)
  {
    var h' := Insert(h, j, bp);
    if a == bp {
      assert h'.ring[j + 1] == bp;
    } else {
      assert h.InRing(a);
      var i :| 1 <= i < |h.ring| && h.ring[i] == a;
      assert h'.ring[if i <= j then i else i + 1] == a;
    }
  }

  lemma InsertSound(h: Heap, j: nat, bp: nat)
    requires h.Sound() && j < |h.ring| && bp in h.live && bp in h.hdr && h.ring[j] in h.hdr
    requires h.ring[j] < bp && (j + 1 < |h.ring| ==> bp < h.ring[j + 1])
    ensures Insert(h, j, bp).Sound()
    ensures forall a :: Insert(h, j, bp).Size(a) == h.Size(a)
  {
    hide Ascending, Heap.InRing, Heap.Ring;
    var h' := Insert(h, j, bp);
    InsertRing(h, j, bp);
    forall u | u in h'.own ensures h'.UnitOk(u) {
      assert h.UnitOk(u);
    }
    forall a | h'.IsBlock(a) ensures h'.Covers(a) {
      assert h.IsBlock(a);
      assert h.Covers(a);
    }
  }

  // ---------- taking a block out of the ring ----------

  function RemoveAt(ring: seq<nat>, m: nat): (r: seq<nat>)
    requires m < |ring|
    ensures |r| == |ring| - 1
    ensures forall i :: 0 <= i < |r| ==> r[i] == ring[if i < m then i else i + 1]
  {
    ring[..m] + ring[m + 1..]
  }

  /** h' is h with ring position m bypassed: its predecessor points behind it. */
  ghost predicate Bypassed(h: Heap, h': Heap, m: nat)
    requires 1 <= m < |h.ring| && h.ring[m] in h.hdr
  {
    && h'.base == h.base && h'.ring == RemoveAt(h.ring, m) && h'.free == h.free - {h.ring[m]}
    && (forall i :: 0 <= i < |h.ring| && i != m && i != m - 1 ==> SamePtr(h, h', h.ring[i]))
    && h.ring[m - 1] in h'.hdr && h'.hdr[h.ring[m - 1]].ptr == h.hdr[h.ring[m]].ptr
    && h'.Size(h'.base) == 0
  }

  ghost predicate SamePtr(h: Heap, h': Heap, a: nat) {
    a in h.hdr && a in h'.hdr && h'.hdr[a].ptr == h.hdr[a].ptr
  }

  lemma BypassLink(h: Heap, h': Heap, m: nat, i: nat)
    requires 1 <= m < |h.ring| && h.ring[m] in h.hdr && Bypassed(h, h', m) && i < |h.ring| - 1
    requires forall k: nat :: k < |h.ring| ==> h.Link(k)
    ensures h'.Link(i)
  {
    var n := |h.ring|;
    var o := if i < m then i else i + 1;
    assert h'.ring[i] == h.ring[o];
    assert h.Link(o) && h.Link(m);
    if o == m - 1 {
      assert h'.ring[Succ(n - 1, i)] == h.ring[Succ(n, m)];
    } else {
      assert SamePtr(h, h', h.ring[o]);
      assert h'.ring[Succ(n - 1, i)] == h.ring[Succ(n, o)];
    }
  }

  lemma BypassAscending(ring: seq<nat>, m: nat)
    requires Ascending(ring) && m < |ring|
    ensures Ascending(RemoveAt(ring, m))
  {
  }

  lemma BypassIn(h: Heap, h': Heap, m: nat, a: nat)
    requires h.Ring() && 1 <= m < |h.ring| && h.ring[m] in h.hdr && Bypassed(h, h', m)
    requires a in h.free && a != h.ring[m]
    ensures h'.InRing(a)
  {
    assert h.InRing(a);
    var i :| 1 <= i < |h.ring| && h.ring[i] == a;
    assert h'.ring[if i < m then i else i - 1] == a;
  }

  lemma BypassRing(h: Heap, h': Heap, m: nat)
    requires h.Ring() && 1 <= m < |h.ring| && h.ring[m] in h.hdr && Bypassed(h, h', m)
    ensures h'.Ring()
  {
    hide Heap.InRing, Ascending, Heap.Link;
    forall i: nat | i < |h'.ring| ensures h'.Link(i) {
      BypassLink(h, h', m, i);
    }
    BypassAscending(h.ring, m);
    forall i | 1 <= i < |h'.ring| ensures h'.ring[i] in h'.free {
      var o := if i < m then i else i + 1;
      assert h'.ring[i] == h.ring[o];
      AscendingApart(h.ring, o, m);
    }
    forall a | a in h'.free ensures h'.InRing(a) {
      BypassIn(h, h', m, a);
    }
  }

  // ---------- coalescing ----------

  /** Merge free block k with the one behind it. */
  ghost function Merge(h: Heap, k: nat): Heap
    requires k + 1 < |h.ring| && h.ring[k] in h.hdr && h.ring[k + 1] in h.hdr
  {
    var p, q := h.ring[k], h.ring[k + 1];
    h.(hdr := h.hdr[p := Header(h.hdr[q].ptr, h.hdr[p].size + h.hdr[q].size)],
       ring := RemoveAt(h.ring, k + 1), free := h.free - {q},
       own := map u | u in h.own :: if h.own[u] == q then p else h.own[u])
  }

  lemma MergeSound(h: Heap, k: nat)
    requires h.Sound() && 1 <= k && k + 1 < |h.ring| && h.ring[k] in h.hdr && h.ring[k + 1] in h.hdr
    requires h.ring[k] + h.Size(h.ring[k]) == h.ring[k + 1]
    ensures Merge(h, k).Sound()
  {
    hide Heap.InRing, Heap.Link;
    var h' := Merge(h, k);
    assert h.ring[k] in h.free && h.ring[k + 1] in h.free;
    AscendingApart(h.ring, 0, k);
    MergeBypass(h, k);
    BypassRing(h, h', k + 1);
    MergeTiled(h, k);
  }

  lemma MergeBypass(h: Heap, k: nat)
    requires h.Ring() && 1 <= k && k + 1 < |h.ring| && h.ring[k] in h.hdr && h.ring[k + 1] in h.hdr
    ensures Bypassed(h, Merge(h, k), k + 1)
  {
    hide Heap.InRing;
    var h' := Merge(h, k);
    forall i | 0 <= i < |h.ring| && i != k + 1 && i != k ensures SamePtr(h, h', h.ring[i]) {
      assert h.Link(i);
      AscendingApart(h.ring, i, k);
    }
    AscendingApart(h.ring, 0, k);
  }

  lemma MergeUnit(h: Heap, k: nat, u: nat)
    requires k + 1 < |h.ring| && h.ring[k] in h.hdr && h.ring[k + 1] in h.hdr && h.ring[k] < h.ring[k + 1]
    requires h.IsBlock(h.ring[k]) && h.UnitOk(h.ring[k])
    requires h.ring[k] + h.Size(h.ring[k]) == h.ring[k + 1] && u in h.own && h.UnitOk(u)
    ensures Merge(h, k).UnitOk(u)
  {
  }

  lemma MergeCovers(h: Heap, k: nat, a: nat)
    requires k + 1 < |h.ring| && h.ring[k] in h.hdr && h.ring[k + 1] in h.hdr && h.ring[k] < h.ring[k + 1]
    requires h.ring[k] + h.Size(h.ring[k]) == h.ring[k + 1]
    requires h.Covers(a) && h.Covers(h.ring[k + 1]) && a != h.ring[k + 1]
    ensures Merge(h, k).Covers(a)
  {
    var h', p, q := Merge(h, k), h.ring[k], h.ring[k + 1];
    forall u: nat | a <= u < a + h'.Size(a) ensures u in h'.own && h'.own[u] == a {
      if a == p && u >= q {
        assert h.own[u] == q;
      } else {
        assert h.own[u] == a;
      }
    }
  }

  lemma MergeTiled(h: Heap, k: nat)
    requires h.Tiled() && k + 1 < |h.ring| && h.ring[k] in h.hdr && h.ring[k + 1] in h.hdr
    requires h.ring[k] in h.free && h.ring[k + 1] in h.free && h.ring[k] < h.ring[k + 1]
    requires h.ring[k] + h.Size(h.ring[k]) == h.ring[k + 1]
    ensures Merge(h, k).Tiled()
  {
    hide Heap.UnitOk, Heap.Covers;
    var h', p, q := Merge(h, k), h.ring[k], h.ring[k + 1];
    assert h.IsBlock(p) && h.IsBlock(q);
    forall u | u in h'.own ensures h'.UnitOk(u) {
      assert h.UnitOk(u) && h.UnitOk(p);
      MergeUnit(h, k, u);
    }
    forall a ensures h'.IsBlock(a) <==> h.IsBlock(a) && a != q {
    }
    forall a | h'.IsBlock(a) ensures h'.Covers(a) {
      assert h.Covers(a) && h.Covers(q);
      MergeCovers(h, k, a);
    }
  }

  /** Merging changes no other gap: gap k becomes the gap behind the merged block. */
  lemma MergeApart(h: Heap, k: nat, i: nat)
    requires k + 1 < |h.ring| && h.ring[k] in h.hdr && h.ring[k + 1] in h.hdr && Ascending(h.ring)
    requires h.ring[k] + h.Size(h.ring[k]) == h.ring[k + 1]
    requires i + 2 < |h.ring| && h.Apart(if i < k then i else i + 1)
    ensures Merge(h, k).Apart(i)
  {
    var o := if i < k then i else i + 1;
    AscendingApart(h.ring, o, k);
    AscendingApart(h.ring, i, k);
  }

  lemma InsertApart(h: Heap, j: nat, bp: nat, i: nat)
    requires j < |h.ring| && h.ring[j] in h.hdr && bp in h.hdr && i < |h.ring|
    requires i != j && i != j + 1 ==> h.Apart(if i < j then i else i - 1)
    requires i == j ==> h.ring[j] + h.Size(h.ring[j]) != bp
    requires i == j + 1 ==> bp + h.Size(bp) != h.ring[j + 1]
    requires h.ring[j] != bp
    ensures Insert(h, j, bp).Apart(i)
  {
    assert forall a :: Insert(h, j, bp).Size(a) == h.Size(a);
  }

  lemma SoundRing(h: Heap)
    requires h.Sound()
    ensures h.ring != [] && h.ring[0] == h.base && h.Size(h.base) == 0 && Ascending(h.ring)
    ensures forall i :: 0 <= i < |h.ring| ==> h.ring[i] in h.hdr
  {
    forall i: nat | i < |h.ring| ensures h.ring[i] in h.hdr {
      assert h.Link(i);
    }
  }

  /** Free block k is directly followed by free block k+1. */
  ghost predicate Touches(h: Heap, k: nat) {
    k + 1 < |h.ring| && h.ring[k] in h.hdr && h.ring[k + 1] in h.hdr && !h.Apart(k)
  }

  ghost function Coalesce(h: Heap, k: nat): Heap {
    if Touches(h, k) then Merge(h, k) else h
  }

  /** All gaps but those listed are real gaps. */
  ghost predicate ApartBut(h: Heap, except: set<nat>) {
    forall i: nat :: i + 1 < |h.ring| && i !in except ==> h.Apart(i)
  }

  lemma CoalesceKeeps(h: Heap, k: nat, except: set<nat>)
    requires h.Sound() && (k == 0 ==> !Touches(h, k)) && ApartBut(h, except + {k})
    requires forall i :: i in except ==> i < k
    ensures Coalesce(h, k).Sound() && ApartBut(Coalesce(h, k), except)
    ensures Coalesce(h, k).live == h.live && Coalesce(h, k).own.Keys == h.own.Keys
    ensures forall i: nat :: i <= k && i < |h.ring| ==> i < |Coalesce(h, k).ring| && Coalesce(h, k).ring[i] == h.ring[i]
    ensures forall i: nat :: i < k && i < |h.ring| ==> Coalesce(h, k).Size(h.ring[i]) == h.Size(h.ring[i])
  {
    hide Heap.Ring, Heap.Tiled;
    SoundRing(h);
    if Touches(h, k) {
      MergeSound(h, k);
      var h' := Merge(h, k);
      forall i: nat | i + 1 < |h'.ring| && i !in except ensures h'.Apart(i) {
        assert h.Apart(if i < k then i else i + 1);
        MergeApart(h, k, i);
      }
      forall i: nat | i < k ensures h'.Size(h.ring[i]) == h.Size(h.ring[i]) {
        AscendingApart(h.ring, i, k);
      }
    }
  }

  /** The free block that unit u lies in has at least n units. */
  ghost predicate InBigFree(h: Heap, u: nat, n: nat) {
    u in h.own && h.own[u] in h.free && h.Size(h.own[u]) >= n
  }

  lemma CoalesceBig(h: Heap, k: nat, u: nat, n: nat)
    requires h.Sound() && InBigFree(h, u, n)
    ensures InBigFree(Coalesce(h, k), u, n)
  {
    hide Heap.InRing, Heap.UnitOk, Heap.Covers;
    if Touches(h, k) {
      SoundRing(h);
      AscendingApart(h.ring, k, k + 1);
      if k > 0 {
        assert h.ring[k] in h.free;
      }
    }
  }

  /** free as a whole: link the block in, then merge it upwards and downwards. */
  ghost function Freed(h: Heap, j: nat, bp: nat): Heap
    requires j < |h.ring| && h.ring[j] in h.hdr && bp in h.hdr
  {
    Coalesce(Coalesce(Insert(h, j, bp), j + 1), j)
  }

  /** free keeps the heap valid, takes the block out of the live ones and moves no
      unit in or out of the heap. */
  lemma FreedValid(h: Heap, j: nat, bp: nat)
    requires h.Valid() && j < |h.ring| && bp in h.live && bp in h.hdr && h.ring[j] in h.hdr
    requires h.ring[j] < bp && (j + 1 < |h.ring| ==> bp < h.ring[j + 1])
    ensures Freed(h, j, bp).Valid()
    ensures Freed(h, j, bp).live == h.live - {bp} && Freed(h, j, bp).own.Keys == h.own.Keys
    ensures InBigFree(Freed(h, j, bp), bp, h.Size(bp))
  {
    hide Heap.Ring, Heap.Tiled, Coalesce;
    InsertSound(h, j, bp);
    SoundRing(h);
    var h1 := Insert(h, j, bp);
    forall i: nat | i + 1 < |h1.ring| && i !in {j} + {j + 1} ensures h1.Apart(i) {
      InsertApart(h, j, bp, i);
    }
    CoalesceKeeps(h1, j + 1, {j});
    var h2 := Coalesce(h1, j + 1);
    assert {j} == {} + {j};
    assert h1.ring[j] == h.ring[j] && h1.ring[j + 1] == bp;
    assert h2.Size(h2.ring[j]) == h.Size(h.ring[j]);
    CoalesceKeeps(h2, j, {});
    assert InBigFree(h1, bp, h.Size(bp)) by { LiveIsBlock(h, bp); }
    CoalesceBig(h1, j + 1, bp, h.Size(bp));
    CoalesceBig(h2, j, bp, h.Size(bp));
  }

  lemma LiveIsBlock(h: Heap, a: nat)
    requires h.Tiled() && a in h.live
    ensures h.IsBlock(a) && h.base < a && 0 < h.Size(a) && a in h.hdr && a !in h.free
  {
    assert h.IsBlock(a);
    assert h.UnitOk(a);
  }

  // ---------- malloc ----------

  /** Exact fit: ring position m leaves the ring and becomes live. */
  ghost function Taken(h: Heap, m: nat): Heap
    requires 1 <= m < |h.ring| && h.ring[m] in h.hdr && h.ring[m - 1] in h.hdr
  {
    var p, prev := h.ring[m], h.ring[m - 1];
    h.(hdr := h.hdr[prev := h.hdr[prev].(ptr := h.hdr[p].ptr)],
       ring := RemoveAt(h.ring, m), free := h.free - {p}, live := h.live + {p})
  }

  lemma TakenValid(h: Heap, m: nat)
    requires h.Valid() && 1 <= m < |h.ring| && h.ring[m] in h.hdr && h.ring[m - 1] in h.hdr
    ensures Taken(h, m).Valid() && h.IsBlock(h.ring[m]) && h.ring[m] in h.free
  {
    hide Heap.InRing, Heap.Covers;
    var h', p := Taken(h, m), h.ring[m];
    assert p in h.free;
    SoundRing(h);
    assert forall a :: h'.Size(a) == h.Size(a);
    forall i | 0 <= i < |h.ring| && i != m && i != m - 1 ensures SamePtr(h, h', h.ring[i]) {
      AscendingApart(h.ring, i, m - 1);
    }
    BypassRing(h, h', m);
    forall u | u in h'.own ensures h'.UnitOk(u) {
      assert h.UnitOk(u);
    }
    forall a | h'.IsBlock(a) ensures h'.Covers(a) {
      assert h.IsBlock(a) && h.Covers(a);
      SameCovers(h, h', a);
    }
    forall i: nat | i + 1 < |h'.ring| ensures h'.Apart(i) {
      TakenApart(h, m, i);
    }
  }

  lemma SameCovers(h: Heap, h': Heap, a: nat)
    requires h.Covers(a) && h'.own == h.own && h'.Size(a) == h.Size(a)
    ensures h'.Covers(a)
  {
  }

  /** The gap left by a block that is gone is a gap, since blocks do not overlap. */
  lemma TakenApart(h: Heap, m: nat, i: nat)
    requires h.Valid() && 1 <= m < |h.ring| && h.ring[m] in h.hdr && h.ring[m - 1] in h.hdr && i + 2 < |h.ring|
    ensures Taken(h, m).Apart(i)
  {
    hide Heap.InRing, Heap.Covers, Heap.UnitOk;
    var h' := Taken(h, m);
    assert h'.Size(h'.ring[i]) == h.Size(h'.ring[i]);
    if i == m - 1 {
      assert h'.ring[i] == h.ring[m - 1] && h'.ring[i + 1] == h.ring[m + 1];
      AscendingApart(h.ring, m - 1, m);
      AscendingApart(h.ring, m, m + 1);
      assert h.ring[m] in h.free && h.IsBlock(h.ring[m]);
      if i > 0 {
        assert h.ring[i] in h.free && h.IsBlock(h.ring[i]);
        Disjoint(h, h.ring[i], h.ring[m]);
      }
    } else {
      assert h.Apart(if i < m then i else i + 1);
    }
  }

  /** Split: the last n units of free block m become a live block of their own; its
      header's ptr field keeps whatever was in memory there. */
  ghost function Split(h: Heap, m: nat, n: nat, junk: nat): Heap
    requires 1 <= m < |h.ring| && h.ring[m] in h.hdr && 0 < n < h.hdr[h.ring[m]].size
  {
    var p := h.ring[m];
    var t := p + h.hdr[p].size - n;
    h.(hdr := h.hdr[p := h.hdr[p].(size := h.hdr[p].size - n)][t := Header(junk, n)],
       live := h.live + {t},
       own := map u | u in h.own :: if h.own[u] == p && u >= t then t else h.own[u])
  }

  lemma SplitPlace(h: Heap, m: nat, n: nat)
    requires h.Sound() && 1 <= m < |h.ring| && h.ring[m] in h.hdr && 0 < n < h.hdr[h.ring[m]].size
    ensures var t := h.ring[m] + h.hdr[h.ring[m]].size - n;
      h.ring[m] < t && t in h.own && h.own[t] == h.ring[m] && !h.IsBlock(t) && t !in h.ring && h.base < t
  {
    hide Heap.InRing;
    var p := h.ring[m];
    assert p in h.free && h.IsBlock(p) && h.Covers(p) && h.UnitOk(p);
    var t := p + h.hdr[p].size - n;
    if t in h.ring {
      var i :| 0 <= i < |h.ring| && h.ring[i] == t;
      assert i != 0 ==> h.ring[i] in h.free && h.IsBlock(t);
    }
  }

  lemma SplitUnit(h: Heap, m: nat, n: nat, junk: nat, u: nat)
    requires 1 <= m < |h.ring| && h.ring[m] in h.hdr && 0 < n < h.hdr[h.ring[m]].size
    requires u in h.own && h.UnitOk(u) && h.base < h.ring[m]
    requires var t := h.ring[m] + h.hdr[h.ring[m]].size - n; t in h.own && h.own[t] == h.ring[m]
    ensures Split(h, m, n, junk).UnitOk(u)
  {
    var h', p := Split(h, m, n, junk), h.ring[m];
    var t := p + h.hdr[p].size - n;
    assert h'.IsBlock(t);
    assert h.own[u] != t;
  }

  lemma SplitTiled(h: Heap, m: nat, n: nat, junk: nat)
    requires h.Sound() && 1 <= m < |h.ring| && h.ring[m] in h.hdr && 0 < n < h.hdr[h.ring[m]].size
    ensures Split(h, m, n, junk).Tiled()
  {
    hide Heap.Ring, Heap.UnitOk, Heap.Covers;
    var h', p := Split(h, m, n, junk), h.ring[m];
    var t := p + h.hdr[p].size - n;
    SplitPlace(h, m, n);
    assert p in h.free by { RingFree(h, m); }
    assert h.IsBlock(p) && h.Covers(p) && h.UnitOk(p);
    assert h.base < p by { UnitAbove(h, p); }
    forall a ensures h'.IsBlock(a) <==> h.IsBlock(a) || a == t {
    }
    forall u | u in h'.own ensures h'.UnitOk(u) {
      SplitUnit(h, m, n, junk, u);
    }
    forall a | h'.IsBlock(a) ensures h'.Covers(a) {
      SplitCovers(h, m, n, junk, a);
    }
  }

  lemma UnitAbove(h: Heap, u: nat)
    requires u in h.own && h.UnitOk(u)
    ensures h.base < u
  {
  }

  lemma RingFree(h: Heap, m: nat)
    requires h.Ring() && 1 <= m < |h.ring|
    ensures h.ring[m] in h.free
  {
  }

  lemma SplitCovers(h: Heap, m: nat, n: nat, junk: nat, a: nat)
    requires 1 <= m < |h.ring| && h.ring[m] in h.hdr && 0 < n < h.hdr[h.ring[m]].size
    requires h.Covers(h.ring[m]) && (a != h.ring[m] + h.hdr[h.ring[m]].size - n ==> h.Covers(a))
    ensures Split(h, m, n, junk).Covers(a)
  {
    var h', p := Split(h, m, n, junk), h.ring[m];
    var t := p + h.hdr[p].size - n;
    forall u: nat | a <= u < a + h'.Size(a) ensures u in h'.own && h'.own[u] == a {
      if a == t || a == p {
        assert h.own[u] == p;
      } else {
        assert h.own[u] == a;
      }
    }
  }

  lemma SplitValid(h: Heap, m: nat, n: nat, junk: nat)
    requires h.Valid() && 1 <= m < |h.ring| && h.ring[m] in h.hdr && 0 < n < h.hdr[h.ring[m]].size
    ensures Split(h, m, n, junk).Valid()
  {
    hide Heap.InRing, Heap.Tiled;
    var h', p := Split(h, m, n, junk), h.ring[m];
    SplitPlace(h, m, n);
    SplitTiled(h, m, n, junk);
    forall i: nat | i < |h'.ring| ensures h'.Link(i) {
      assert h.Link(i);
      assert h.ring[i] in h.ring;
    }
    forall a | a in h'.free ensures h'.InRing(a) {
      assert h.InRing(a);
      SameInRing(h, h', a);
    }
    assert h'.Size(h'.base) == 0 by { AscendingApart(h.ring, 0, m); assert h.ring[0] in h.ring; }
    forall i: nat | i + 1 < |h'.ring| ensures h'.Apart(i) {
      assert h.Apart(i) && h.ring[i] in h.ring;
      AscendingApart(h.ring, i, m);
      if i == m {
        SplitGap(h, m);
      }
    }
  }

  lemma SameInRing(h: Heap, h': Heap, a: nat)
    requires h.InRing(a) && h'.ring == h.ring
    ensures h'.InRing(a)
  {
  }

  lemma SplitGap(h: Heap, m: nat)
    requires h.Sound() && 1 <= m && m + 1 < |h.ring|
    ensures h.ring[m] + h.Size(h.ring[m]) <= h.ring[m + 1]
  {
    hide Heap.InRing;
    assert h.ring[m] in h.free && h.ring[m + 1] in h.free;
    Disjoint(h, h.ring[m], h.ring[m + 1]);
  }

  /** sbrk: nu new units from p on, one live block until morecore frees it. */
  ghost function Grown(h: Heap, p: nat, nu: nat, junk: nat): Heap {
    h.(hdr := h.hdr[p := Header(junk, nu)], live := h.live + {p},
       own := ConstMap(p, p + nu, p) + h.own)
  }

  lemma GrownValid(h: Heap, p: nat, nu: nat, junk: nat)
    requires h.Valid() && nu > 0 && h.base < p && forall u :: p <= u ==> u !in h.own
    ensures Grown(h, p, nu, junk).Valid()
    ensures forall u: nat :: u in Grown(h, p, nu, junk).own <==> u in h.own || p <= u < p + nu
  {
    hide Heap.InRing, Heap.UnitOk, Heap.Covers;
    var h' := Grown(h, p, nu, junk);
    forall a ensures h'.IsBlock(a) <==> h.IsBlock(a) || a == p {
    }
    forall u | u in h'.own ensures h'.UnitOk(u) {
      if u in h.own { assert h.UnitOk(u); }
      GrownUnit(h, p, nu, junk, u);
    }
    forall a | h'.IsBlock(a) ensures h'.Covers(a) {
      if a != p { assert h.Covers(a); }
      GrownCovers(h, p, nu, junk, a);
    }
    SoundRing(h);
    forall i: nat | i < |h.ring| ensures h.ring[i] != p {
      if i > 0 { assert h.ring[i] in h.free && h.IsBlock(h.ring[i]); }
    }
    forall i: nat | i < |h'.ring| ensures h'.Link(i) {
      assert h.Link(i);
    }
    forall a | a in h'.free ensures h'.InRing(a) {
      SameInRing(h, h', a);
    }
    forall i: nat | i + 1 < |h'.ring| ensures h'.Apart(i) {
      assert h.Apart(i);
    }
  }

  lemma GrownUnit(h: Heap, p: nat, nu: nat, junk: nat, u: nat)
    requires nu > 0 && h.base < p && (forall v :: p <= v ==> v !in h.own)
    requires if u in h.own then h.UnitOk(u) else p <= u < p + nu
    ensures u in Grown(h, p, nu, junk).own && Grown(h, p, nu, junk).UnitOk(u)
  {
    assert Grown(h, p, nu, junk).own[p] == p;
  }

  lemma GrownCovers(h: Heap, p: nat, nu: nat, junk: nat, a: nat)
    requires nu > 0 && (forall v :: p <= v ==> v !in h.own) && (a != p ==> h.Covers(a))
    ensures Grown(h, p, nu, junk).Covers(a)
  {
  }

  // ---------- the code ----------

  /** Header units for a request, in 32-bit arithmetic; a header is 8 bytes. */
  function Units(nbytes: nat): (n: nat)
    requires nbytes < 0x1_0000_0000
    ensures n > 0
  {
    (nbytes + 7) % 0x1_0000_0000 / 8 + 1
  }

  /** What morecore passes to sbrk, whose parameter is an int. */
  function Asked(nu: nat): int {
    var bytes := nu * 8 % 0x1_0000_0000;
    if bytes < 0x8000_0000 then bytes else bytes - 0x1_0000_0000
  }

  /** morecore asks for the memory it means exactly for fewer than 2^28 units. The requests of
      malloc that reach beyond are those from 0x7FFF_FFF1 to 0xFFFF_FFF8 bytes, and for them
      sbrk is asked for nothing or told to give memory back. */
  lemma AskedIsMeant(nbytes: nat)
    requires nbytes < 0x1_0000_0000
    ensures Asked(Units(nbytes)) == 8 * Units(nbytes) <==> Units(nbytes) < 0x1000_0000
    ensures Units(nbytes) < 0x1000_0000 <==> nbytes <= 0x7FFF_FFF0 || nbytes >= 0xFFFF_FFF9
    ensures Units(nbytes) >= 0x1000_0000 ==> Asked(Units(nbytes)) <= 0
  {
    var nu := Units(nbytes);
    assert nu <= 0x2000_0000;
    if nu == 0x2000_0000 {
      assert nu * 8 % 0x1_0000_0000 == 0;
    } else {
      assert nu * 8 % 0x1_0000_0000 == nu * 8;
    }
  }

  /** A request of two gigabytes takes two gigabytes away. */
  lemma AskedBackwards()
    ensures Asked(Units(0x7FFF_FFF8)) == -0x8000_0000
  {
  }

  /** The block is big enough exactly when nbytes + 7 does not wrap around. */
  lemma UnitsEnough(nbytes: nat)
    requires nbytes < 0x1_0000_0000
    ensures 8 * Units(nbytes) >= nbytes + 8 <==> nbytes <= 0xFFFF_FFF8
    ensures 8 * Units(nbytes) < nbytes + 16
  {
  }

  /** Index of the last ring element below bp. */
  function LastBelow(ring: seq<nat>, bp: nat): (j: nat)
    requires ring != [] && ring[0] < bp && Ascending(ring)
    ensures j < |ring| && ring[j] < bp && (j + 1 < |ring| ==> bp <= ring[j + 1])
  {
    if |ring| == 1 || bp <= ring[1] then 0 else 1 + LastBelow(ring[1..], bp)
  }

  class Allocator {
    const base: nat
    var hdr: map<nat, Header>
    /** 0 is the null pointer. */
    var freep: nat
    /** The program break; others may move it up between two calls of sbrk. */
    var brk: nat
    ghost var ring: seq<nat>
    ghost var free: set<nat>
    ghost var live: set<nat>
    ghost var own: map<nat, nat>
    /** How often sbrk has refused. */
    ghost var denied: nat

    ghost function Abs(): Heap
      reads this
    {
      Heap(base, hdr, ring, free, live, own)
    }

    ghost predicate Valid()
      reads this
    {
      && 0 < base < brk && (forall u :: u in own ==> u < brk)
      && if freep == 0 then ring == [] && free == {} && live == {} && own == map[]
         else Abs().Valid() && freep in ring
    }

    constructor (base: nat, brk: nat)
      requires 0 < base < brk
      ensures Valid() && freep == 0 && this.base == base && live == {} && own == map[]
    {
      this.base, this.brk := base, brk;
      hdr, freep, ring, free, live, own, denied := map[], 0, [], {}, {}, map[], 0;
    }

    ghost method Become(h: Heap)
      requires h.base == base && h.hdr == hdr
      modifies this`ring, this`free, this`live, this`own
      ensures Abs() == h
    {
      ring, free, live, own := h.ring, h.free, h.live, h.own;
    }

    /** The search loop of free: the ring element behind which bp belongs. */
    method FindPlace(bp: nat) returns (p: nat, ghost j: nat)
      requires freep != 0 && Abs().Valid() && freep in ring && base < bp && bp !in ring
      ensures j < |ring| && p == ring[j] < bp && (j + 1 < |ring| ==> bp < ring[j + 1])
    {
      hide Heap.InRing, Heap.Tiled, Ascending;
      SoundRing(Abs());
      j := LastBelow(ring, bp);
      ghost var n := |ring|;
      p := freep;
      ghost var i :| 0 <= i < n && ring[i] == p;
      assert Abs().Link(i);
      PlaceIs(Abs(), bp, i, j);
      while !(bp > p && bp < hdr[p].ptr) && !(p >= hdr[p].ptr && (bp > p || bp < hdr[p].ptr))
        invariant 0 <= i < n && p == ring[i] && p in hdr && hdr[p].ptr == ring[Succ(n, i)]
        invariant RightPlace(bp, p, hdr[p].ptr) <==> i == j
        decreases if i <= j then j - i else j - i + n
      {
        p := hdr[p].ptr;
        i := Succ(n, i);
        assert Abs().Link(i);
        PlaceIs(Abs(), bp, i, j);
      }
    }

    /** free: the block joins the ring, merged with its free neighbours. */
    method Free(bp: nat)
      requires Valid() && bp in live
      modifies this`hdr, this`freep, this`ring, this`free, this`live, this`own
      ensures Valid() && freep != 0 && live == old(live) - {bp} && own.Keys == old(own).Keys
      ensures forall a :: a in live ==> a in hdr && a in old(hdr) && hdr[a].size == old(hdr)[a].size
      ensures InBigFree(Abs(), bp, old(Abs().Size(bp)))
    {
      hide Heap.Ring, Heap.Tiled, Freed;
      ghost var h := Abs();
      LiveIsBlock(h, bp);
      assert bp !in ring by { NotInRing(h, bp); }
      var p; ghost var j;
      p, j := FindPlace(bp);
      SoundRing(h);
      FreeHeadersAre(h, j, bp);
      FreedValid(h, j, bp);
      var q := hdr[p].ptr;
      if bp + hdr[bp].size == q {
        hdr := hdr[bp := Header(hdr[q].ptr, hdr[bp].size + hdr[q].size)];
      } else {
        hdr := hdr[bp := hdr[bp].(ptr := q)];
      }
      if p + hdr[p].size == bp {
        hdr := hdr[p := Header(hdr[bp].ptr, hdr[p].size + hdr[bp].size)];
      } else {
        hdr := hdr[p := hdr[p].(ptr := bp)];
      }
      freep := p;
      FreedKeepsPlace(h, j, bp);
      forall a | a in h.live && a != bp ensures a in h.hdr && a != p {
        LiveIsBlock(h, a);
        NotInRing(h, a);
      }
      Become(Freed(h, j, bp));
    }

    /** sbrk, which either fails or yields nu units above everything obtained so far. */
    method Sbrk(nu: nat) returns (p: nat)
      requires 0 < nu && brk > 0
      modifies this`brk, this`denied
      ensures p == 0 ==> brk == old(brk) && denied == old(denied) + 1
      ensures p != 0 ==> old(brk) <= p && brk == p + nu && denied == old(denied)
    {
      if * {
        denied := denied + 1;
        return 0;
      }
      p :| p >= brk;
      brk := p + nu;
    }

    /** morecore: at least 4096 more units, freed into the ring; 0 if sbrk fails. */
    method Morecore(nunits: nat) returns (p: nat)
      requires Valid() && freep != 0 && 0 < nunits < 0x1000_0000
      modifies this
      ensures Valid() && freep != 0 && live == old(live)
      ensures forall a :: a in live ==> a in hdr && a in old(hdr) && hdr[a].size == old(hdr)[a].size
      ensures p == 0 ==> Abs() == old(Abs()) && freep == old(freep) && denied == old(denied) + 1
      ensures p != 0 ==> p == freep && HasBig(Abs(), nunits) && denied == old(denied)
      ensures p != 0 ==> exists hp, nu: nat ::
                nu == (if nunits < 4096 then 4096 else nunits) && Obtained(old(own), own, hp, nu)
    {
      hide Heap.Ring, Heap.Tiled, Heap.Size, HasBig, Heap.Apart, Ascending, Heap.Link;
      var nu := if nunits < 4096 then 4096 else nunits;
      ghost var h := Abs();
      forall a | a in h.live ensures a in h.hdr && a in h.own {
        LiveIsBlock(h, a);
      }
      var hp := Sbrk(nu);
      if hp == 0 {
        return 0;
      }
      var junk := if hp in hdr then hdr[hp].ptr else 0;
      hdr := hdr[hp := Header(junk, nu)];
      GrownValid(h, hp, nu, junk);
      ghost var h' := Grown(h, hp, nu, junk);
      Become(h');
      GrownSize(h, hp, nu, junk);
      ghost var own1 := own;
      Free(hp);
      assert forall u :: u in own ==> u in own1;
      BigIsInRing(Abs(), hp, nu, nunits);
      assert Obtained(h.own, own, hp, nu);
      p := freep;
    }

    /** malloc's carving of free block p, whose predecessor in the ring is prevp. */
    method Carve(prevp: nat, p: nat, nunits: nat, ghost i: nat) returns (r: nat)
      requires Valid() && freep != 0 && nunits > 0 && 1 <= i < |ring| && p == ring[i] && prevp == ring[i - 1]
      requires Abs().Size(p) >= nunits
      modifies this`hdr, this`freep, this`ring, this`free, this`live, this`own
      ensures Valid() && r !in old(live) && live == old(live) + {r} && own.Keys == old(own).Keys
      ensures r in hdr && hdr[r].size == nunits && base < r
      ensures forall a :: a in old(live) ==> a in hdr && a in old(hdr) && hdr[a].size == old(hdr)[a].size
    {
      hide Heap.Ring, Heap.Tiled;
      ghost var h := Abs();
      SoundRing(h);
      forall a | a in h.live ensures a in h.hdr && a !in h.ring && h.IsBlock(a) {
        LiveIsBlock(h, a);
        NotInRing(h, a);
      }
      assert p in ring && prevp in ring;
      if hdr[p].size == nunits {
        TakenValid(h, i);
        hdr := hdr[prevp := hdr[prevp].(ptr := hdr[p].ptr)];
        r := p;
        freep := prevp;
        assert RemoveAt(ring, i)[i - 1] == prevp;
        AscendingApart(ring, i - 1, i);
        LiveIsBlock(Taken(h, i), p);
        Become(Taken(h, i));
      } else {
        SplitPlace(h, i, nunits);
        var t := p + hdr[p].size - nunits;
        var junk := if t in hdr then hdr[t].ptr else 0;
        SplitValid(h, i, nunits, junk);
        hdr := hdr[p := hdr[p].(size := hdr[p].size - nunits)];
        hdr := hdr[t := Header(junk, nunits)];
        r := t;
        freep := prevp;
        Become(Split(h, i, nunits, junk));
      }
    }

    /** malloc: 0, or the address behind the header of a new live block of exactly
        Units(nbytes) units. The other live blocks are untouched. It is 0 only if no free
        block is large enough and sbrk refuses. */
    method Malloc(nbytes: nat) returns (r: nat)
      requires Valid() && nbytes < 0x1_0000_0000 && Units(nbytes) < 0x1000_0000
      modifies this
      ensures Valid() && freep != 0
      ensures r == 0 ==> live == old(live) && own.Keys == old(own).Keys
      ensures r == 0 ==> !HasBig(Abs(), Units(nbytes)) && denied == old(denied) + 1
      ensures r != 0 ==> denied == old(denied) && r > 1 && r - 1 !in old(live) && live == old(live) + {r - 1}
      ensures r != 0 ==> r - 1 in hdr && hdr[r - 1].size == Units(nbytes)
      ensures r != 0 && nbytes <= 0xFFFF_FFF8 ==> nbytes <= 8 * (hdr[r - 1].size - 1) < nbytes + 8
      ensures forall a :: a in old(live) ==> a in hdr && a in old(hdr) && hdr[a].size == old(hdr)[a].size
      ensures own.Keys >= old(own).Keys
    {
      hide Heap.Valid;
      var nunits := Units(nbytes);
      UnitsEnough(nbytes);
      if freep == 0 {
        hdr := hdr[base := Header(base, 0)];
        freep := base;
        Become(Heap(base, hdr, [base], {}, {}, map[]));
        FirstRing(Abs());
      }
      ghost var refills;
      r, refills := Search(nunits);
      if r != 0 {
        r := r + 1;
      }
    }

    /** malloc's loop around the ring; the result is the header of the block, or 0. A lap
        that finds nothing is followed by at most one more: memory is obtained at most once. */
    method Search(nunits: nat) returns (r: nat, ghost refills: nat)
      requires Valid() && freep != 0 && 0 < nunits < 0x1000_0000
      modifies this
      ensures Valid() && freep != 0 && refills <= 1 && (refills == 0 ==> own.Keys == old(own).Keys)
      ensures r == 0 ==> live == old(live) && own.Keys == old(own).Keys
      ensures r == 0 ==> !HasBig(Abs(), nunits) && denied == old(denied) + 1 && refills == 0
      ensures r != 0 ==> denied == old(denied)
      ensures r != 0 ==> r !in old(live) && live == old(live) + {r} && r in hdr && hdr[r].size == nunits
      ensures forall a :: a in old(live) ==> a in hdr && a in old(hdr) && hdr[a].size == old(hdr)[a].size
      ensures own.Keys >= old(own).Keys
    {
      hide Heap.Ring, Heap.Tiled, HasBig, Heap.Apart, Ascending, Heap.Sound;
      ValidParts(Abs());
      forall a | a in live ensures a in hdr {
        LiveIsBlock(Abs(), a);
      }
      var prevp := freep;
      ghost var f := SpotOf(Abs(), freep);
      var p := hdr[prevp].ptr;
      ghost var m := 0;
      refills := 0;
      while true
        invariant denied == old(denied) && refills <= 1 && (refills == 1 ==> HasBig(Abs(), nunits))
        invariant refills == 0 ==> own.Keys == old(own).Keys
        invariant Valid() && freep != 0 && live == old(live) && own.Keys >= old(own).Keys
        invariant 0 <= f < |ring| && ring[f] == freep && 0 <= m < |ring|
        invariant prevp == ring[Around(|ring|, f, m)] && p == ring[Succ(|ring|, Around(|ring|, f, m))]
        invariant SeenSmall(Abs(), f, m, nunits)
        invariant forall a :: a in old(live) ==> a in hdr && a in old(hdr) && hdr[a].size == old(hdr)[a].size
        decreases if HasBig(Abs(), nunits) then 0 else 1, |ring| - m
      {
        ValidParts(Abs());
        SoundRing(Abs());
        ghost var i := Succ(|ring|, Around(|ring|, f, m));
        assert ring[i] in hdr;
        if hdr[p].size >= nunits {
          assert i > 0;
          r := Carve(prevp, p, nunits, i);
          return;
        }
        if p == freep {
          LapDone(Abs(), f, m, nunits);
          p := Morecore(nunits);
          if p == 0 {
            r := 0;
            return;
          }
          refills := refills + 1;
          ValidParts(Abs());
          f := SpotOf(Abs(), freep);
          m := 0;
        } else {
          Onward(Abs(), f, m);
          m := m + 1;
        }
        prevp := p;
        p := hdr[p].ptr;
      }
    }
  }

  /** Ring position m steps behind position f. */
  function Around(n: nat, f: nat, m: nat): (i: nat)
    requires f < n && m < n
    ensures i < n
  {
    if f + m < n then f + m else f + m - n
  }

  lemma ValidParts(h: Heap)
    requires h.Valid()
    ensures h.Sound() && h.Tiled()
  {
  }

  lemma FirstRing(h: Heap)
    requires h.ring == [h.base] && h.free == {} && h.live == {} && h.own == map[]
    requires h.base in h.hdr && h.hdr[h.base] == Header(h.base, 0)
    ensures h.Valid()
  {
  }

  /** The position of freep, and that its header points to the next one. */
  lemma SpotOf(h: Heap, a: nat) returns (f: nat)
    requires h.Sound() && a in h.ring
    ensures f < |h.ring| && h.ring[f] == a && a in h.hdr && h.hdr[a].ptr == h.ring[Succ(|h.ring|, f)]
  {
    f :| 0 <= f < |h.ring| && h.ring[f] == a;
    assert h.Link(f);
  }

  /** One step of the search along the ring. */
  lemma Onward(h: Heap, f: nat, m: nat)
    requires h.Sound() && f < |h.ring| && m < |h.ring|
    requires h.ring[Succ(|h.ring|, Around(|h.ring|, f, m))] != h.ring[f]
    ensures m + 1 < |h.ring| && Succ(|h.ring|, Around(|h.ring|, f, m)) == Around(|h.ring|, f, m + 1)
    ensures var p := h.ring[Around(|h.ring|, f, m + 1)];
      p in h.hdr && h.hdr[p].ptr == h.ring[Succ(|h.ring|, Around(|h.ring|, f, m + 1))]
  {
    assert h.Link(Succ(|h.ring|, Around(|h.ring|, f, m)));
  }

  /** The m ring elements behind position f are all smaller than n units. */
  ghost predicate SeenSmall(h: Heap, f: nat, m: nat, n: nat)
    requires f < |h.ring| && m < |h.ring|
  {
    forall t: nat :: 1 <= t <= m ==> h.Size(h.ring[Around(|h.ring|, f, t)]) < n
  }

  /** Back at freep, every ring element has been seen and is too small. */
  lemma LapDone(h: Heap, f: nat, m: nat, n: nat)
    requires h.Sound() && f < |h.ring| && m < |h.ring|
    requires h.ring[Succ(|h.ring|, Around(|h.ring|, f, m))] == h.ring[f] && h.Size(h.ring[f]) < n
    requires SeenSmall(h, f, m, n)
    ensures !HasBig(h, n)
  {
    var k := |h.ring|;
    AscendingApart(h.ring, Succ(k, Around(k, f, m)), f);
    assert m == k - 1;
    forall i | 1 <= i < k ensures h.Size(h.ring[i]) < n {
      var t := if i >= f then i - f else i - f + k;
      assert Around(k, f, t) == i;
    }
  }

  /** Some free block has at least n units. */
  ghost predicate HasBig(h: Heap, n: nat) {
    exists i :: 1 <= i < |h.ring| && h.Size(h.ring[i]) >= n
  }

  /** The heap has gained exactly the nu units from p on. */
  ghost predicate Obtained(own: map<nat, nat>, own': map<nat, nat>, p: nat, nu: nat) {
    forall u: nat :: u in own' <==> u in own || p <= u < p + nu
  }

  lemma GrownSize(h: Heap, p: nat, nu: nat, junk: nat)
    ensures Grown(h, p, nu, junk).Size(p) == nu
  {
  }

  lemma BigIsInRing(h: Heap, u: nat, nu: nat, n: nat)
    requires h.Sound() && InBigFree(h, u, nu) && nu >= n
    ensures HasBig(h, n)
  {
    assert h.InRing(h.own[u]);
  }

  lemma NotInRing(h: Heap, a: nat)
    requires h.Sound() && a in h.live
    ensures a !in h.ring
  {
    hide Heap.InRing;
    LiveIsBlock(h, a);
    forall i | 0 <= i < |h.ring| ensures h.ring[i] != a {
      if i > 0 { assert h.ring[i] in h.free; }
    }
  }

  lemma FreedKeepsPlace(h: Heap, j: nat, bp: nat)
    requires h.Sound() && j < |h.ring| && bp in h.live && bp in h.hdr && h.ring[j] in h.hdr
    requires h.ring[j] < bp && (j + 1 < |h.ring| ==> bp < h.ring[j + 1])
    ensures h.ring[j] in Freed(h, j, bp).ring && Freed(h, j, bp).base == h.base
  {
    hide Heap.Ring, Heap.Tiled;
    var h1 := Insert(h, j, bp);
    assert h1.ring[j] == h.ring[j];
    var h2 := Coalesce(h1, j + 1);
    assert h2.ring[j] == h.ring[j];
    var h3 := Coalesce(h2, j);
    assert h3.ring[j] == h.ring[j];
  }

  /** The header updates of free, as its two if statements make them. */
  function FreeHeaders(hdr: map<nat, Header>, p: nat, bp: nat): map<nat, Header>
    requires p in hdr && bp in hdr && (bp + hdr[bp].size == hdr[p].ptr ==> hdr[p].ptr in hdr)
  {
    var hdr1 := UpperHeaders(hdr, p, bp);
    if p + hdr1[p].size == bp
    then hdr1[p := Header(hdr1[bp].ptr, hdr1[p].size + hdr1[bp].size)]
    else hdr1[p := hdr1[p].(ptr := bp)]
  }

  /** The headers after the test against the block behind bp. */
  function UpperHeaders(hdr: map<nat, Header>, p: nat, bp: nat): map<nat, Header>
    requires p in hdr && bp in hdr && (bp + hdr[bp].size == hdr[p].ptr ==> hdr[p].ptr in hdr)
  {
    var q := hdr[p].ptr;
    if bp + hdr[bp].size == q then hdr[bp := Header(hdr[q].ptr, hdr[bp].size + hdr[q].size)]
    else hdr[bp := hdr[bp].(ptr := q)]
  }

  /** Linking in and merging with the block behind. */
  lemma UpperMerge(h: Heap, j: nat, bp: nat)
    requires h.Sound() && j < |h.ring| && bp in h.live && bp in h.hdr && h.ring[j] in h.hdr
    requires h.ring[j] < bp && (j + 1 < |h.ring| ==> bp < h.ring[j + 1])
    ensures bp + h.hdr[bp].size == h.hdr[h.ring[j]].ptr ==> h.hdr[h.ring[j]].ptr in h.hdr
    ensures var h2 := Coalesce(Insert(h, j, bp), j + 1); var p := h.ring[j]; var up := UpperHeaders(h.hdr, p, bp);
      && j + 1 < |h2.ring| && h2.ring[j] == p && h2.ring[j + 1] == bp && h2.hdr == up[p := up[p].(ptr := bp)]
  {
    hide Heap.InRing, Heap.Tiled;
    assert h.Link(j);
    SoundRing(h);
    AscendingApart(h.ring, 0, j);
    var h1 := Insert(h, j, bp);
    InsertIndex(h.ring, j, bp, j);
    InsertIndex(h.ring, j, bp, j + 1);
    if j + 1 < |h.ring| {
      InsertIndex(h.ring, j, bp, j + 2);
      AscendingApart(h.ring, j, j + 1);
    }
  }

  /** They are what linking in and merging amount to. */
  lemma FreeHeadersAre(h: Heap, j: nat, bp: nat)
    requires h.Sound() && j < |h.ring| && bp in h.live && bp in h.hdr && h.ring[j] in h.hdr
    requires h.ring[j] < bp && (j + 1 < |h.ring| ==> bp < h.ring[j + 1])
    ensures bp + h.hdr[bp].size == h.hdr[h.ring[j]].ptr ==> h.hdr[h.ring[j]].ptr in h.hdr
    ensures Freed(h, j, bp).hdr == FreeHeaders(h.hdr, h.ring[j], bp)
  {
    hide Heap.Sound, Insert;
    UpperMerge(h, j, bp);
  }

  /** free's loop stops at p, whose successor is q. */
  predicate RightPlace(bp: nat, p: nat, q: nat) {
    (bp > p && bp < q) || (p >= q && (bp > p || bp < q))
  }

  /** It stops at the right place and nowhere else. */
  lemma PlaceIs(h: Heap, bp: nat, i: nat, j: nat)
    requires h.Ring() && i < |h.ring| && j < |h.ring| && h.ring[i] in h.hdr && h.base < bp
    requires h.ring[j] < bp && (j + 1 < |h.ring| ==> bp < h.ring[j + 1])
    ensures RightPlace(bp, h.ring[i], h.hdr[h.ring[i]].ptr) <==> i == j
  {
    hide Heap.InRing;
    assert h.Link(i);
    AscendingApart(h.ring, 0, i);
    if i < j {
      AscendingApart(h.ring, i + 1, j);
    } else if j < i {
      AscendingApart(h.ring, j + 1, i);
      if i + 1 < |h.ring| { AscendingApart(h.ring, i, i + 1); }
    } else if i + 1 < |h.ring| {
      AscendingApart(h.ring, i, i + 1);
    }
  }
}
