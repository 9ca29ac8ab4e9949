/** What the frame allocator and the page-table operations of vm.c:45-292 and
    kalloc.c:46-95 do to the pure state, and what they keep. */
module PageSteps {
  import opened Blocks
  import opened Finite
  import opened PageTable

  function RoundUp(sz: nat): nat {
    (sz + PGSIZE - 1) / PGSIZE
  }

  /** The user pages that are mapped are those below top. */
  ghost predicate Contiguous(flat: map<nat, uint>, top: nat) {
    forall p: nat :: p < USER_PAGES ==> (p in flat <==> p < top)
  }

  /** The allocator's part of the invariant, which needs no address space. */
  ghost predicate Pool(v: Vm) {
    Sized(v.mem) && Listed(v.mem, v.head, v.free) && InRange(v.role) && FreeRoles(v.role, v.free)
  }

  ghost function HeldFrames(role: map<nat, Role>): set<nat> {
    set f | f in role && role[f].Held?
  }

  /** What the allocator and the page-table code leave alone: the frames outside this
      address space and free list, and the pages that are mapped and stay mapped. */
  ghost predicate Preserves(v: Vm, w: Vm)
    requires Sized(v.mem) && Sized(w.mem)
  {
    && w.dir == v.dir && w.role.Keys == v.role.Keys
    && (forall f :: 0 <= f < FRAMES && f !in v.role ==> w.mem[f] == v.mem[f])
    && (forall p :: p in v.flat && p in w.flat && p < USER_PAGES && Target(v.flat[p]) < FRAMES ==>
          w.flat[p] == v.flat[p] && w.mem[Target(v.flat[p])] == v.mem[Target(v.flat[p])])
  }

  /** The directory entries that pages p .. p+n-1 fall under. */
  ghost function Span(p: nat, n: nat): (s: set<nat>)
    ensures forall q: nat :: p <= q < p + n ==> Pdx(q) in s
  {
    if n == 0 then {} else Span(p, n - 1) + {Pdx(p + n - 1)}
  }

  ghost function Extended(flat: map<nat, uint>, p: nat, n: nat, f: nat, perm: nat): (r: map<nat, uint>)
    requires f + n <= PAGES && perm < PGSIZE
    ensures forall q :: q in r <==> q in flat || p <= q < p + n
    ensures forall q: nat :: p <= q < p + n ==> r[q] == Entry(f + (q - p), perm)
    ensures forall q :: q in flat && !(p <= q < p + n) ==> r[q] == flat[q]
  {
    if n == 0 then flat else Extended(flat, p, n - 1, f, perm)[p + n - 1 := Entry(f + n - 1, perm)]
  }

  lemma PoppedPool(v: Vm)
    requires Pool(v) && |v.free| > 0
    ensures Pool(Popped(v)) && Is(v.role, v.free[0], Free(|v.free| - 1)) && v.head == v.free[0]
    ensures 0 < v.free[0] < FRAMES && v.mem[v.free[0]][0] == Link(v.free, 1)
  {
    TailListed(v.mem, v.head, v.free) by { hide FreeRoles; }
    TailFreeRoles(v) by { hide Listed; }
    hide FreeRoles;
  }

  lemma TailFreeRoles(v: Vm)
    requires FreeRoles(v.role, v.free) && |v.free| > 0
    ensures Is(v.role, v.free[0], Free(|v.free| - 1)) && FreeRoles(Popped(v).role, v.free[1..])
  {
    assert Is(v.role, v.free[0], Free(|v.free| - 1));
  }

  lemma TailListed(mem: Memory, head: nat, free: seq<nat>)
    requires Sized(mem) && Listed(mem, head, free) && |free| > 0
    ensures Listed(mem, Link(free, 1), free[1..])
  {
    assert forall i :: 0 <= i < |free| - 1 ==> free[1..][i] == free[i + 1];
  }

  lemma PushedPool(v: Vm, f: nat)
    requires Pool(v) && 0 < f < FRAMES && (f in v.role ==> !v.role[f].Free?)
    ensures v.head < FRAMES && Pool(Pushed(v, f))
  {
    PushedListed(v, f) by { hide Listed, FreeRoles; }
    PushedFreeRoles(v, f) by { hide Listed, FreeRoles; }
    hide Listed, FreeRoles;
  }

  /** walkpgdir when it has to make a table: the table takes one zeroed frame. */
  ghost function Walked(v: Vm, p: nat): Vm
    requires Sized(v.mem) && v.dir < FRAMES && p < PAGES && |v.free| > 0 && v.free[0] < FRAMES
  {
    var u := Popped(v);
    WithTable(u.(mem := u.mem[v.free[0] := Filled(0)]), Pdx(p), v.free[0])
  }

  /** Facts for callers that keep the parts of the invariant hidden. */
  lemma InvShape(v: Vm)
    requires Inv(v)
    ensures Sized(v.mem) && 0 < v.dir < FRAMES && Is(v.role, v.dir, Directory) && Pool(v)
    ensures InRange(v.role)
    ensures forall i :: i in v.tables ==> 0 < v.tables[i] < FRAMES && Is(v.role, v.tables[i], Table(i))
    ensures |v.free| > 0 ==> 0 < v.free[0] < FRAMES && Is(v.role, v.free[0], Free(|v.free| - 1))
  {
    hide DirOk, FlatOk, UserRoles;
    TableBounds(v);
  }

  lemma UserFrames(v: Vm)
    requires Inv(v)
    ensures forall p :: p in v.flat && p < USER_PAGES ==>
                          Target(v.flat[p]) < FRAMES && Is(v.role, Target(v.flat[p]), User(p))
  {
    hide DirOk, FlatOk, TableRoles, FreeRoles, Listed;
    forall p | p in v.flat && p < USER_PAGES
      ensures Target(v.flat[p]) < FRAMES && Is(v.role, Target(v.flat[p]), User(p))
    {
      assert Is(v.role, Target(v.flat[p]), User(p));
    }
  }

  lemma WalkedInv(v: Vm, p: nat)
    requires Inv(v) && p < PAGES && |v.free| > 0 && Pdx(p) !in v.tables
    ensures Sized(v.mem) && 0 < v.dir < FRAMES && 0 < v.free[0] < FRAMES && Inv(Walked(v, p))
  {
    InvShape(v);
    PoppedInv(v);
    hide Inv;
    var u := Popped(v);
    HeldInv(u, v.free[0], Filled(0));
    WithTableInv(u.(mem := u.mem[v.free[0] := Filled(0)]), Pdx(p), v.free[0]);
  }

  lemma WalkedPreserves(v: Vm, p: nat)
    requires Inv(v) && p < PAGES && |v.free| > 0 && Pdx(p) !in v.tables
    requires Sized(v.mem) && v.dir < FRAMES && v.free[0] < FRAMES
    ensures Sized(Walked(v, p).mem) && Preserves(v, Walked(v, p))
    ensures Walked(v, p).flat == v.flat && Walked(v, p).tables == v.tables[Pdx(p) := v.free[0]]
    ensures |Walked(v, p).free| == |v.free| - 1
    ensures HeldFrames(Walked(v, p).role) == HeldFrames(v.role)
  {
    hide Inv, Pool, HeldFrames;
    InvShape(v);
    UserFrames(v);
    HeldRetag(v.role, v.free[0], Table(Pdx(p)));
    assert Walked(v, p).role == v.role[v.free[0] := Table(Pdx(p))];
  }

  /** Mapping a page under an existing table. */
  lemma MappedFacts(v: Vm, p: nat, word: uint)
    requires Inv(v) && p < PAGES && p !in v.flat && Present(word)
    requires Pdx(p) in v.tables && (p < USER_PAGES ==> Is(v.role, Target(word), Held))
    ensures Sized(v.mem) && v.tables[Pdx(p)] < FRAMES
    ensures Inv(WithPage(v, p, word)) && Sized(WithPage(v, p, word).mem)
    ensures Preserves(v, WithPage(v, p, word))
    ensures HeldKept(v, WithPage(v, p, word))
    ensures HeldFrames(WithPage(v, p, word).role) ==
            HeldFrames(v.role) - (if p < USER_PAGES then {Target(word)} else {})
  {
    WithPageInv(v, p, word);
    InvShape(v);
    UserFrames(v);
    hide Inv, Pool;
    var w := WithPage(v, p, word);
    assert Is(v.role, v.tables[Pdx(p)], Table(Pdx(p)));
  }

  ghost predicate HeldKept(v: Vm, w: Vm)
    requires Sized(v.mem) && Sized(w.mem)
  {
    forall f :: f in HeldFrames(v.role) && f < FRAMES ==> w.mem[f] == v.mem[f]
  }

  lemma WalkedHeld(v: Vm, p: nat)
    requires Inv(v) && p < PAGES && |v.free| > 0 && Pdx(p) !in v.tables
    requires Sized(v.mem) && v.dir < FRAMES && v.free[0] < FRAMES && Sized(Walked(v, p).mem)
    ensures HeldKept(v, Walked(v, p))
  {
    InvShape(v);
    hide Inv, Pool;
  }

  lemma PreservesTrans(u: Vm, v: Vm, w: Vm)
    requires Sized(u.mem) && Sized(v.mem) && Sized(w.mem) && Preserves(u, v) && Preserves(v, w)
    requires forall p :: p in u.flat && p < USER_PAGES && p in w.flat ==> p in v.flat
    ensures Preserves(u, w)
  {
  }

  /** How many pages the bytes va .. va+size-1 touch. */
  function PageCount(va: nat, size: nat): nat
    requires size > 0
  {
    (va + size - 1) / PGSIZE - va / PGSIZE + 1
  }

  /** Frames for user pages are in the caller's hands before they are mapped. */
  ghost predicate AllHeld(role: map<nat, Role>, p: nat, n: nat, f: nat) {
    forall g: nat :: f <= g < f + n && p + (g - f) < USER_PAGES ==> Is(role, g, Held)
  }

  ghost function Claimed(p: nat, n: nat, f: nat): (s: set<nat>)
    ensures forall g :: g in s <==> f <= g < f + n && p + (g - f) < USER_PAGES
  {
    if n == 0 then {}
    else if p + n - 1 < USER_PAGES then Claimed(p, n - 1, f) + {f + n - 1}
    else Claimed(p, n - 1, f)
  }

  lemma PreservesSelf(v: Vm)
    requires Sized(v.mem)
    ensures Preserves(v, v) && HeldKept(v, v)
  {
  }

  /** w is v after the first k of the pages from p on were mapped to the frames from f on. */
  ghost predicate MappedTo(v: Vm, w: Vm, p: nat, k: nat, f: nat, perm: nat)
    requires f + k <= PAGES && perm < PGSIZE
  {
    && Sized(v.mem) && Sized(w.mem) && Preserves(v, w) && HeldKept(v, w)
    && w.flat == Extended(v.flat, p, k, f, perm)
    && w.tables.Keys == v.tables.Keys + Span(p, k) && |w.free| + |w.tables| == |v.free| + |v.tables|
    && HeldFrames(w.role) == HeldFrames(v.role) - Claimed(p, k, f)
  }

  lemma MappedNone(v: Vm, p: nat, f: nat, perm: nat)
    requires Sized(v.mem) && f <= PAGES && perm < PGSIZE
    ensures MappedTo(v, v, p, 0, f, perm)
  {
    PreservesSelf(v);
    assert v.tables.Keys == v.tables.Keys + Span(p, 0);
  }

  lemma MapStep(v: Vm, u: Vm, w: Vm, p: nat, k: nat, f: nat, perm: nat)
    requires f + k < PAGES && perm < PGSIZE && MappedTo(v, u, p, k, f, perm) && Sized(w.mem)
    requires Preserves(u, w) && HeldKept(u, w) && w.flat == u.flat[p + k := Entry(f + k, perm)]
    requires w.tables.Keys == u.tables.Keys + {Pdx(p + k)} && |w.free| + |w.tables| == |u.free| + |u.tables|
    requires HeldFrames(w.role) == HeldFrames(u.role) - (if p + k < USER_PAGES then {f + k} else {})
    ensures MappedTo(v, w, p, k + 1, f, perm)
  {
    hide HeldKept, HeldFrames, Preserves, Pdx, Extended, Span, Claimed, Entry, Sized;
    MapStepFolds(v.flat, p, k, f, perm);
    assert forall q :: q in v.flat && q < USER_PAGES ==> q in u.flat by { ExtendedGrows(v.flat, p, k, f, perm); }
    PreservesTrans(v, u, w);
    MapStepHeld(v, u, w, p, k, f, perm);
    SetSteps(HeldFrames(v.role), Claimed(p, k, f), if p + k < USER_PAGES then {f + k} else {});
    SetSteps(v.tables.Keys, Span(p, k), {Pdx(p + k)});
  }

  lemma SetSteps<T>(a: set<T>, b: set<T>, c: set<T>)
    ensures a - b - c == a - (b + c) && a + b + c == a + (b + c)
  {
  }

  lemma ExtendedGrows(flat: map<nat, uint>, p: nat, k: nat, f: nat, perm: nat)
    requires f + k <= PAGES && perm < PGSIZE
    ensures forall q :: q in flat ==> q in Extended(flat, p, k, f, perm)
  {
  }

  lemma MapStepFolds(flat: map<nat, uint>, p: nat, k: nat, f: nat, perm: nat)
    requires f + k < PAGES && perm < PGSIZE
    ensures Extended(flat, p, k + 1, f, perm) == Extended(flat, p, k, f, perm)[p + k := Entry(f + k, perm)]
    ensures Claimed(p, k + 1, f) == Claimed(p, k, f) + (if p + k < USER_PAGES then {f + k} else {})
    ensures Span(p, k + 1) == Span(p, k) + {Pdx(p + k)}
  {
  }

  lemma ReadyToMap(v: Vm, u: Vm, p: nat, n: nat, f: nat, perm: nat, k: nat)
    requires f + n <= PAGES && perm < PGSIZE && k < n && MappedTo(v, u, p, k, f, perm)
    requires AllHeld(v.role, p, n, f) && forall q :: p <= q < p + n ==> q !in v.flat
    ensures p + k !in u.flat && (p + k < USER_PAGES ==> Is(u.role, f + k, Held))
  {
    hide Preserves, HeldKept;
    if p + k < USER_PAGES {
      assert Is(v.role, f + k, Held);
      assert f + k in HeldFrames(u.role);
    }
  }

  lemma MapStepHeld(v: Vm, u: Vm, w: Vm, p: nat, k: nat, f: nat, perm: nat)
    requires Sized(v.mem) && Sized(u.mem) && Sized(w.mem) && f + k < PAGES && perm < PGSIZE
    requires HeldKept(v, u) && u.flat == Extended(v.flat, p, k, f, perm)
    requires HeldFrames(u.role) == HeldFrames(v.role) - Claimed(p, k, f)
    requires Preserves(u, w) && HeldKept(u, w) && w.flat == u.flat[p + k := Entry(f + k, perm)]
    ensures HeldKept(v, w)
  {
    forall g | g in HeldFrames(v.role) && g < FRAMES
      ensures w.mem[g] == u.mem[g]
    {
      if g !in HeldFrames(u.role) {
        var q := p + (g - f);
        assert u.flat[q] == Entry(g, perm) && q in w.flat && q < USER_PAGES;
      }
    }
  }

  /** w is v without the user pages lo .. hi-1: their frames, and no others, are free now. */
  ghost predicate Shrunk(v: Vm, w: Vm, lo: nat, hi: nat) {
    && Sized(v.mem) && Sized(w.mem) && Preserves(v, w)
    && w.flat == v.flat - Range(lo, hi) && w.tables == v.tables
    && HeldFrames(w.role) == HeldFrames(v.role)
    && |w.free| == |v.free| + |v.flat.Keys * Range(lo, hi)|
  }

  lemma ShrunkNone(v: Vm, lo: nat)
    requires Sized(v.mem)
    ensures Shrunk(v, v, lo, lo)
  {
    PreservesSelf(v);
    hide Preserves, HeldFrames;
    assert v.flat.Keys * Range(lo, lo) == {};
    assert v.flat - Range(lo, lo) == v.flat;
  }

  lemma DropStep(flat: map<nat, uint>, lo: nat, p: nat)
    requires lo <= p && p in flat
    ensures flat - Range(lo, p) - {p} == flat - Range(lo, p + 1)
    ensures |flat.Keys * Range(lo, p + 1)| == |flat.Keys * Range(lo, p)| + 1
  {
    assert p !in Range(lo, p);
    RangeStep(lo, p);
    hide Range;
    assert flat.Keys * Range(lo, p + 1) == flat.Keys * Range(lo, p) + {p};
  }

  lemma RangeStep(lo: nat, p: nat)
    requires lo <= p
    ensures Range(lo, p + 1) == Range(lo, p) + {p}
  {
  }

  lemma DropOver(flat: map<nat, uint>, lo: nat, p: nat, q: nat)
    requires lo <= p <= q && forall x :: p <= x < q ==> x !in flat
    ensures flat - Range(lo, p) == flat - Range(lo, q)
    ensures flat.Keys * Range(lo, p) == flat.Keys * Range(lo, q)
  {
  }

  /** Dropping one page. */
  lemma ShrunkStep(v: Vm, u: Vm, lo: nat, p: nat)
    requires Inv(u) && p in u.flat && p < USER_PAGES && lo <= p && Shrunk(v, u, lo, p)
    ensures Shrunk(v, WithoutPage(u, p), lo, p + 1)
  {
    UnmappedFacts(u, p);
    hide Inv, HeldFrames, Preserves, Sized, WithoutPage;
    var w := WithoutPage(u, p);
    assert forall x :: x in w.flat ==> x in u.flat;
    PreservesTrans(v, u, w);
    DropStep(v.flat, lo, p);
  }

  /** Passing over pages that are not mapped. */
  lemma ShrunkOver(v: Vm, u: Vm, lo: nat, p: nat, q: nat)
    requires Shrunk(v, u, lo, p) && lo <= p <= q && forall x :: p <= x < q ==> x !in v.flat
    ensures Shrunk(v, u, lo, q)
  {
    DropOver(v.flat, lo, p, q);
    hide Preserves, HeldFrames, Sized, Range;
  }

  lemma ShrunkSkip(v: Vm, u: Vm, lo: nat, p: nat)
    requires Shrunk(v, u, lo, p) && lo <= p && p !in u.flat
    ensures Shrunk(v, u, lo, p + 1)
  {
    ShrunkOver(v, u, lo, p, p + 1);
  }

  /** If there is no table for page p, no page from p up is mapped. */
  lemma SkipIsSafe(v: Vm, u: Vm, lo: nat, hi: nat, p: nat, top: nat)
    requires Inv(u) && Shrunk(v, u, lo, p) && lo <= p < hi <= USER_PAGES
    requires Pdx(p) !in u.tables && Contiguous(v.flat, top)
    ensures Shrunk(v, u, lo, if p + ENTRIES < hi then p + ENTRIES else hi)
  {
    assert PageEntry(u, p);
    hide Inv;
    var q := if p + ENTRIES < hi then p + ENTRIES else hi;
    assert p !in v.flat && top <= p;
    ShrunkOver(v, u, lo, p, q);
  }

  lemma UnmappedFacts(v: Vm, p: nat)
    requires Inv(v) && p in v.flat && p < USER_PAGES
    ensures Sized(v.mem) && Sized(WithoutPage(v, p).mem) && Preserves(v, WithoutPage(v, p))
    ensures HeldFrames(WithoutPage(v, p).role) == HeldFrames(v.role)
    ensures |WithoutPage(v, p).free| == |v.free| + 1 && WithoutPage(v, p).tables == v.tables
    ensures WithoutPage(v, p).flat == v.flat - {p}
  {
    InvShape(v);
    UserFrames(v);
    assert PageEntry(v, p);
    hide Pool, InRange;
    var w := WithoutPage(v, p);
    hide Inv;
    forall q | q in w.flat && q < USER_PAGES
      ensures w.mem[Target(v.flat[q])] == v.mem[Target(v.flat[q])]
    {
      assert Is(v.role, Target(v.flat[q]), User(q));
    }
  }

  ghost predicate PagesAdded(flat: map<nat, uint>, flat': map<nat, uint>, lo: nat, hi: nat) {
    && (forall q :: q in flat' <==> q in flat || lo <= q < hi)
    && (forall q :: q in flat && !(lo <= q < hi) ==> flat'[q] == flat[q])
  }

  /** The pages lo .. hi-1 are zeroed, and mapped present, writable and for the user. */
  ghost predicate Zeroed(w: Vm, lo: nat, hi: nat)
    requires Sized(w.mem)
  {
    forall q :: lo <= q < hi && q in w.flat ==>
      && Target(w.flat[q]) < FRAMES && w.mem[Target(w.flat[q])] == Filled(0)
      && w.flat[q] == Entry(Target(w.flat[q]), 6)
  }

  /** The frames are accounted for: pages, new tables and lost frames came off the free list. */
  ghost predicate Accounted(v: Vm, w: Vm, lo: nat, hi: nat, lost: set<nat>)
    requires lo <= hi
  {
    && HeldFrames(w.role) == HeldFrames(v.role) + lost
    && w.tables.Keys == v.tables.Keys + Span(lo, hi - lo)
    && |w.free| + |w.tables| + (hi - lo) + |lost| == |v.free| + |v.tables|
  }

  /** w is v with zeroed pages lo .. hi-1 added, the frames in lost being held besides. */
  ghost predicate Grown(v: Vm, w: Vm, lo: nat, hi: nat, lost: set<nat>)
    requires lo <= hi
  {
    && Sized(v.mem) && Sized(w.mem) && Preserves(v, w)
    && PagesAdded(v.flat, w.flat, lo, hi) && Zeroed(w, lo, hi) && Accounted(v, w, lo, hi, lost)
  }

  /** y is u with page p added, in the zeroed frame f. */
  ghost predicate OnePage(u: Vm, y: Vm, p: nat, f: nat) {
    && Sized(u.mem) && Sized(y.mem) && Preserves(u, y) && f < FRAMES && y.mem[f] == Filled(0)
    && y.flat == u.flat[p := Entry(f, 6)] && y.tables.Keys == u.tables.Keys + {Pdx(p)}
    && |y.free| + |y.tables| + 1 == |u.free| + |u.tables| && HeldFrames(y.role) == HeldFrames(u.role)
  }

  /** x is u with the first free frame f zeroed and in the kernel's hands. */
  ghost predicate Handing(u: Vm, x: Vm, f: nat) {
    && Sized(u.mem) && Sized(x.mem) && Preserves(u, x) && 0 < f < FRAMES && x.mem[f] == Filled(0)
    && x.flat == u.flat && x.tables == u.tables && |x.free| + 1 == |u.free|
    && f !in HeldFrames(u.role) && HeldFrames(x.role) == HeldFrames(u.role) + {f}
  }

  lemma Handed(u: Vm, x: Vm, f: nat)
    requires Inv(u) && u.free != [] && f == u.free[0] < |u.mem|
    requires x == Popped(u).(mem := u.mem[f := Filled(0)])
    ensures Handing(u, x, f) && Is(x.role, f, Held)
  {
    hide Inv, Pool, InRange, HeldFrames, Preserves;
    InvShape(u);
    UserFrames(u);
    HeldNow(u.role, f);
    HandedPreserves(u, x, f);
  }

  lemma HandedPreserves(u: Vm, x: Vm, f: nat)
    requires Sized(u.mem) && 0 < f < FRAMES && f in u.role && u.role[f].Free?
    requires forall p :: p in u.flat && p < USER_PAGES ==>
               Target(u.flat[p]) < FRAMES && Is(u.role, Target(u.flat[p]), User(p))
    requires x == u.(mem := u.mem[f := Filled(0)], head := x.head, free := x.free, role := u.role[f := Held])
    ensures Sized(x.mem) && Preserves(u, x)
  {
  }

  lemma HeldNow(role: map<nat, Role>, f: nat)
    requires f in role && role[f].Free?
    ensures f !in HeldFrames(role) && HeldFrames(role[f := Held]) == HeldFrames(role) + {f}
  {
  }

  /** Frames taken by n pages from page p on, when the directory has entries T: the pages'
      own, and one for each page table to be made. */
  ghost function Needs(T: set<nat>, p: nat, n: nat): int {
    n + |T + Span(p, n)| - |T|
  }

  /** At the k-th page there is one frame left and a page table is needed besides. */
  ghost predicate StuckAt(v: Vm, lo: nat, k: nat) {
    Pdx(lo + k) !in v.tables.Keys + Span(lo, k) && |v.free| == Needs(v.tables.Keys, lo, k) + 1
  }

  ghost predicate NoneStuck(v: Vm, lo: nat, n: nat) {
    forall k: nat :: k < n ==> !StuckAt(v, lo, k)
  }

  /** w has v's pages again; tables that were made stay. */
  ghost predicate GaveBack(v: Vm, w: Vm, lost: set<nat>) {
    && Sized(v.mem) && Sized(w.mem) && Preserves(v, w) && w.flat == v.flat
    && HeldFrames(w.role) == HeldFrames(v.role) + lost && v.tables.Keys <= w.tables.Keys
  }

  ghost predicate FreshFrame(v: Vm, lost: set<nat>) {
    |lost| == 1 && lost !! HeldFrames(v.role)
  }

  /** What allocuvm comes to, by the length of the free list it starts with. */
  ghost predicate Outcome(v: Vm, w: Vm, lo: nat, hi: nat, success: bool)
    requires lo <= hi
  {
    && (NoneStuck(v, lo, hi - lo) ==>
          if |v.free| >= Needs(v.tables.Keys, lo, hi - lo)
          then success && Grown(v, w, lo, hi, {})
          else !success && GaveBack(v, w, {}))
    && (forall k: nat :: k < hi - lo && StuckAt(v, lo, k) ==>
          exists lost :: FreshFrame(v, lost) &&
            if k + 1 < hi - lo then !success && GaveBack(v, w, lost)
            else success && Grown(v, w, lo, hi - 1, lost))
  }

  /** The frames first .. p-1 are on the free list, the last of them first. */
  ghost predicate AllFreed(v: Vm, first: nat, p: nat) {
    && Pool(v) && v.role.Keys == Range(first, p) && |v.free| == p - first
    && (|v.free| > 0 ==> v.free[0] == p - 1) && (forall f :: f in v.role ==> v.role[f].Free?)
  }

  lemma PoolOfNone(v: Vm, first: nat)
    requires Sized(v.mem) && v.head == 0 && v.free == [] && v.role == map[]
    ensures AllFreed(v, first, first)
  {
  }

  lemma NextFreed(u: Vm, first: nat, p: nat)
    requires AllFreed(u, first, p) && 0 < first <= p < FRAMES
    ensures Pool(u) && p !in u.role && u.head < FRAMES && p < |u.mem| && AllFreed(Pushed(u, p), first, p + 1)
  {
    hide Listed, FreeRoles;
    assert p !in u.role.Keys;
    PushedPool(u, p);
    RangeStep(first, p);
    hide Range;
  }

  /** The state once the first frame of the list is the zeroed directory. */
  ghost function WithDirectory(u: Vm): Vm
    requires |u.free| > 0 && u.dir < |u.mem|
  {
    Popped(u).(mem := u.mem[u.dir := Filled(0)], role := u.role[u.dir := Directory])
  }

  lemma LastFreed(u: Vm, first: nat, last: nat)
    requires AllFreed(u, first, last) && 0 < first < last <= FRAMES
    requires u.tables == map[] && u.flat == map[] && u.dir == last - 1
    ensures Pool(u) && |u.free| == last - first && u.free[0] == u.dir < FRAMES && |u.mem| == FRAMES
    ensures Inv(WithDirectory(u)) && WithDirectory(u).role.Keys == Range(first, last)
    ensures HeldFrames(WithDirectory(u).role) == {}
  {
    hide Listed, FreeRoles;
    PoppedPool(u);
    var w := WithDirectory(u);
    assert Popped(u).role[u.dir := Directory] == w.role;
    assert w.role.Keys == u.role.Keys;
    hide Range, AllFreed;
    FreeKept(Popped(u), w.mem, u.dir);
    Retagged(Popped(u), u.dir, Directory);
    NewSpaceInv(w);
  }

  lemma NewSpaceInv(w: Vm)
    requires Sized(w.mem) && Listed(w.mem, w.head, w.free) && InRange(w.role) && FreeRoles(w.role, w.free)
    requires w.tables == map[] && w.flat == map[] && w.dir < FRAMES && w.mem[w.dir] == Filled(0)
    requires Is(w.role, w.dir, Directory)
    requires forall f :: f in w.role && f != w.dir ==> w.role[f].Free?
    ensures Inv(w)
  {
    hide FreeRoles, Listed;
  }

  /** freevm under way: no user page is left, nor a table below directory entry i. */
  ghost predicate Dismantled(v: Vm, w: Vm, i: nat) {
    && Sized(v.mem) && Pool(w) && w.dir == v.dir && 0 < w.dir < FRAMES && w.role.Keys == v.role.Keys
    && HeldFrames(w.role) == HeldFrames(v.role) && TableRoles(w.role, w.tables, w.dir)
    && (forall f :: f in w.role ==> !w.role[f].User?)
    && (forall j :: i <= j < ENTRIES ==> DirEntry(w, j))
    && (forall j :: j in w.tables ==> i <= j)
    && (forall f :: 0 <= f < FRAMES && f !in v.role ==> w.mem[f] == v.mem[f])
  }

  lemma EmptiedDismantles(v: Vm, u: Vm, lo: nat, hi: nat)
    requires Inv(v) && Inv(u) && lo == 0 && hi == USER_PAGES && Shrunk(v, u, lo, hi) && u.dir == v.dir
    ensures Dismantled(v, u, 0)
  {
    hide Inv, Pool, TableRoles, HeldFrames, Shrunk, Sized, DirEntry;
    ShrunkAll(v, u, lo, hi);
    NoUsers(u);
  }

  lemma ShrunkAll(v: Vm, u: Vm, lo: nat, hi: nat)
    requires lo == 0 && hi == USER_PAGES && Shrunk(v, u, lo, hi)
    ensures forall p :: p in u.flat ==> p >= USER_PAGES
    ensures Sized(v.mem) && Sized(u.mem) && Preserves(v, u) && HeldFrames(u.role) == HeldFrames(v.role)
  {
    hide Preserves, HeldFrames, Sized;
  }

  lemma NoUsers(u: Vm)
    requires Inv(u) && forall p :: p in u.flat ==> p >= USER_PAGES
    ensures forall f :: f in u.role ==> !u.role[f].User?
    ensures TableRoles(u.role, u.tables, u.dir) && 0 < u.dir < FRAMES && Sized(u.mem) && Pool(u)
    ensures forall j :: 0 <= j < ENTRIES ==> DirEntry(u, j)
  {
    assert 0 < u.dir < FRAMES by { hide FreeRoles, Listed, FlatOk, UserRoles, DirOk; TableBounds(u); }
    hide FreeRoles, Listed, FlatOk, TableRoles;
  }

  lemma NextTable(v: Vm, u: Vm, i: nat)
    requires Dismantled(v, u, i) && i < ENTRIES
    ensures Sized(u.mem) && u.dir < FRAMES && Pool(u)
    ensures i in u.tables <==> Present(u.mem[u.dir][i])
    ensures i in u.tables ==> u.tables[i] == Target(u.mem[u.dir][i]) && 0 < u.tables[i] < FRAMES
    ensures i in u.tables ==> Is(u.role, u.tables[i], Table(i))
    ensures i !in u.tables ==> Dismantled(v, u, i + 1)
  {
    hide HeldFrames, FreeRoles, Listed;
    assert DirEntry(u, i);
    if i in u.tables {
      assert Is(u.role, u.tables[i], Table(i));
    }
  }

  lemma TableFreed(v: Vm, u: Vm, i: nat)
    requires Dismantled(v, u, i) && i < ENTRIES && i in u.tables && Is(u.role, u.tables[i], Table(i))
    requires Sized(u.mem) && 0 < u.tables[i] < FRAMES
    ensures u.head < FRAMES && Dismantled(v, Pushed(u, u.tables[i]).(tables := u.tables - {i}), i + 1)
  {
    hide FreeRoles, Listed, HeldFrames, TableRoles;
    var f := u.tables[i];
    PushedPool(u, f);
    var w := Pushed(u, f).(tables := u.tables - {i});
    HeldRetag(u.role, f, Free(|u.free|));
    assert w.role.Keys == u.role.Keys;
    TableDropped(u, i, Free(|u.free|));
    forall j | i + 1 <= j < ENTRIES
      ensures DirEntry(w, j)
    {
      assert DirEntry(u, j);
    }
  }

  lemma HeldRetag(role: map<nat, Role>, f: nat, r: Role)
    requires f in role && !role[f].Held? && !r.Held?
    ensures HeldFrames(role[f := r]) == HeldFrames(role)
  {
  }

  lemma TableDropped(u: Vm, i: nat, r: Role)
    requires TableRoles(u.role, u.tables, u.dir) && i in u.tables && r.Free?
    ensures TableRoles(u.role[u.tables[i] := r], u.tables - {i}, u.dir) && u.tables[i] != u.dir
  {
    assert Is(u.role, u.tables[i], Table(i)) && Is(u.role, u.dir, Directory);
  }

  lemma DirectoryFreed(v: Vm, u: Vm)
    requires Dismantled(v, u, ENTRIES)
    ensures Pool(u) && 0 < u.dir < FRAMES && Is(u.role, u.dir, Directory) && u.head < FRAMES && Sized(u.mem)
    ensures var w := Pushed(u, u.dir);
      && Pool(w) && w.role.Keys == v.role.Keys && HeldFrames(w.role) == HeldFrames(v.role)
      && (forall f :: f in w.role ==> f in w.free || f in HeldFrames(w.role))
      && (forall i, j :: 0 <= i < j < |w.free| ==> w.free[i] != w.free[j])
      && (forall f :: 0 <= f < FRAMES && f !in v.role && Sized(v.mem) ==> w.mem[f] == v.mem[f])
  {
    hide Listed, HeldFrames, FreeRoles, DirEntry;
    assert |u.mem| == |v.mem| == FRAMES;
    assert Is(u.role, u.dir, Directory) && u.tables == map[];
    hide Sized;
    PushedPool(u, u.dir);
    var w := Pushed(u, u.dir);
    HeldRetag(u.role, u.dir, Free(|u.free|));
    assert w.role.Keys == u.role.Keys;
    AllFree(w);
    EverythingFree(u, w);
  }

  lemma EverythingFree(u: Vm, w: Vm)
    requires TableRoles(u.role, u.tables, u.dir) && u.tables == map[]
    requires (forall f :: f in u.role ==> !u.role[f].User?) && w.role == u.role[u.dir := Free(|u.free|)]
    requires forall f :: f in w.role && w.role[f].Free? ==> f in w.free
    ensures forall f :: f in w.role ==> f in w.free || f in HeldFrames(w.role)
  {
  }

  /** The list has no frame twice, and has every frame with no other use. */
  lemma AllFree(w: Vm)
    requires FreeRoles(w.role, w.free)
    ensures forall f :: f in w.role && w.role[f].Free? ==> f in w.free
    ensures forall i, j :: 0 <= i < j < |w.free| ==> w.free[i] != w.free[j]
  {
    forall i, j | 0 <= i < j < |w.free|
      ensures w.free[i] != w.free[j]
    {
      assert Is(w.role, w.free[i], Free(|w.free| - 1 - i)) && Is(w.role, w.free[j], Free(|w.free| - 1 - j));
    }
  }

  /** The loop of allocuvm before page p: all pages so far mapped, or the last one not and
      its frame lost. */
  ghost predicate Progress(v: Vm, w: Vm, lo: nat, p: nat, lost: set<nat>) {
    if lost == {} then lo <= p && Grown(v, w, lo, p, {}) && NoneStuck(v, lo, p - lo)
    else lo < p && w.free == [] && LostOne(v, w, lo, p - 1, lost)
  }

  lemma ProgressStart(v: Vm, lo: nat)
    requires Inv(v)
    ensures Progress(v, v, lo, lo, {})
  {
    hide Inv, Grown;
    InvShape(v);
    GrownNone(v, lo);
  }

  ghost function Top(p: nat, lost: set<nat>): nat {
    if lost == {} || p == 0 then p else p - 1
  }

  lemma ProgressNext(v: Vm, u: Vm, lo: nat, p: nat, lost: set<nat>)
    requires Progress(v, u, lo, p, lost) && Contiguous(v.flat, lo) && p < USER_PAGES
    ensures Contiguous(u.flat, Top(p, lost))
    ensures u.free != [] ==> lost == {} && lo <= p && p !in u.flat && Grown(v, u, lo, p, {})
  {
    hide Grown, Contiguous, NoneStuck, StuckAt, FreshFrame;
    StillContiguous(v, u, lo, Top(p, lost), lost);
  }

  lemma ProgressGrew(v: Vm, u: Vm, w: Vm, lo: nat, p: nat)
    requires Progress(v, u, lo, p, {}) && lo <= p && Grown(v, w, lo, p + 1, {})
    requires Pdx(p) in u.tables || |u.free| > 1
    ensures Progress(v, w, lo, p + 1, {})
  {
    hide Grown, NoneStuck;
    NotStuck(v, u, lo, p);
  }

  lemma ProgressLost(v: Vm, u: Vm, w: Vm, lo: nat, p: nat, f: nat)
    requires Progress(v, u, lo, p, {}) && lo <= p && Grown(v, w, lo, p, {f}) && f !in HeldFrames(v.role)
    requires Pdx(p) !in u.tables && |u.free| == 1 && w.free == []
    ensures Progress(v, w, lo, p + 1, {f})
  {
    hide Grown, NoneStuck, LostOne;
    IsStuck(v, u, w, lo, p, f);
  }

  lemma ProgressStopped(v: Vm, u: Vm, w: Vm, lo: nat, hi: nat, p: nat, lost: set<nat>)
    requires Progress(v, u, lo, p, lost) && u.free == [] && Contiguous(v.flat, lo)
    requires lo <= p < hi <= USER_PAGES && Shrunk(u, w, lo, hi)
    ensures Outcome(v, w, lo, hi, false)
  {
    hide Grown, NoneStuck, LostOne, Shrunk, Contiguous, Outcome;
    RanOut(v, u, w, lo, hi, Top(p, lost), lost);
  }

  lemma ProgressDone(v: Vm, w: Vm, lo: nat, hi: nat, lost: set<nat>)
    requires lo <= hi && Progress(v, w, lo, hi, lost)
    ensures Outcome(v, w, lo, hi, true)
  {
    hide Grown, NoneStuck, LostOne, Outcome;
    if lost == {} {
      AllGrown(v, w, lo, hi);
    } else {
      AllButOne(v, w, lo, hi, lost);
    }
  }

  lemma GrownNone(v: Vm, lo: nat)
    requires Sized(v.mem)
    ensures Grown(v, v, lo, lo, {})
  {
    PreservesSelf(v);
    hide Preserves, HeldFrames;
    assert HeldFrames(v.role) + {} == HeldFrames(v.role);
    assert v.tables.Keys + Span(lo, 0) == v.tables.Keys;
  }

  /** One page table was missing for page lo+k when the last frame went to the page. */
  ghost predicate LostOne(v: Vm, w: Vm, lo: nat, top: nat, lost: set<nat>)
    requires lo <= top
  {
    && Grown(v, w, lo, top, lost) && FreshFrame(v, lost)
    && StuckAt(v, lo, top - lo) && NoneStuck(v, lo, top - lo)
  }

  lemma StillContiguous(v: Vm, u: Vm, lo: nat, top: nat, lost: set<nat>)
    requires lo <= top <= USER_PAGES && Contiguous(v.flat, lo) && Grown(v, u, lo, top, lost)
    ensures Contiguous(u.flat, top)
    ensures top < USER_PAGES ==> top !in u.flat
  {
    hide Preserves, Sized, Accounted, Zeroed;
  }

  /** What is left of the free list. */
  lemma FreeLeft(v: Vm, u: Vm, lo: nat, p: nat, lost: set<nat>)
    requires lo <= p && Grown(v, u, lo, p, lost)
    ensures |u.free| == |v.free| - Needs(v.tables.Keys, lo, p - lo) - |lost|
    ensures u.tables.Keys == v.tables.Keys + Span(lo, p - lo)
  {
    hide Preserves, Sized, Zeroed, PagesAdded, HeldFrames, Span;
    assert |u.tables| == |u.tables.Keys| && |v.tables| == |v.tables.Keys|;
  }

  lemma NotStuck(v: Vm, u: Vm, lo: nat, p: nat)
    requires lo <= p && Grown(v, u, lo, p, {}) && NoneStuck(v, lo, p - lo)
    requires Pdx(p) in u.tables || |u.free| > 1
    ensures NoneStuck(v, lo, p + 1 - lo)
  {
    hide Grown, StuckAt, Pdx;
    NotStuckHere(v, u, lo, p);
  }

  lemma NotStuckHere(v: Vm, u: Vm, lo: nat, p: nat)
    requires lo <= p && Grown(v, u, lo, p, {}) && (Pdx(p) in u.tables || |u.free| > 1)
    ensures !StuckAt(v, lo, p - lo)
  {
    hide Grown, Needs, Span, Pdx;
    FreeLeft(v, u, lo, p, {});
    assert Pdx(p) in u.tables.Keys <==> Pdx(p) in u.tables;
  }

  lemma IsStuck(v: Vm, u: Vm, w: Vm, lo: nat, p: nat, f: nat)
    requires lo <= p && Grown(v, u, lo, p, {}) && NoneStuck(v, lo, p - lo)
    requires Pdx(p) !in u.tables && |u.free| == 1 && f !in HeldFrames(v.role) && Grown(v, w, lo, p, {f})
    ensures LostOne(v, w, lo, p, {f})
  {
    FreeLeft(v, u, lo, p, {});
    hide Grown, Needs, Span, Pdx, HeldFrames;
    assert Pdx(p) !in u.tables.Keys;
    assert |{f}| == 1;
  }

  lemma {:induction false} NeedsGrows(T: set<nat>, lo: nat, j: nat, k: nat)
    requires j <= k
    ensures Needs(T, lo, k) >= Needs(T, lo, j) + (k - j)
    ensures j < k && Pdx(lo + j) !in T + Span(lo, j) ==> Needs(T, lo, k) >= Needs(T, lo, j) + (k - j) + 1
  {
    if j < k {
      NeedsGrows(T, lo, j, k - 1);
      SetSteps(T, Span(lo, k - 1), {Pdx(lo + k - 1)});
      assert Span(lo, k) == Span(lo, k - 1) + {Pdx(lo + k - 1)};
      var before, x := T + Span(lo, k - 1), Pdx(lo + k - 1);
      hide Span, Pdx;
      if x in before {
        assert before + {x} == before;
      }
    }
  }

  /** A page to which the frames run out, or past one, is not one where one frame is left. */
  lemma NoneStuckAfter(v: Vm, lo: nat, k: nat, n: nat)
    requires k <= n && NoneStuck(v, lo, k) && |v.free| <= Needs(v.tables.Keys, lo, k)
    ensures NoneStuck(v, lo, n)
  {
    hide Needs;
    forall j: nat | j < n
      ensures !StuckAt(v, lo, j)
    {
      if j >= k {
        NeedsGrows(v.tables.Keys, lo, k, j);
      }
    }
  }

  /** There is at most one such page. */
  lemma StuckOnce(v: Vm, lo: nat, k: nat, j: nat)
    requires StuckAt(v, lo, k) && NoneStuck(v, lo, k) && StuckAt(v, lo, j)
    ensures j == k
  {
    hide Needs;
    if j > k {
      NeedsGrows(v.tables.Keys, lo, k, j);
    }
  }

  /** After an allocuvm that found no frame for page p. */
  lemma RanOut(v: Vm, u: Vm, w: Vm, lo: nat, hi: nat, top: nat, lost: set<nat>)
    requires lo <= top < hi <= USER_PAGES && u.free == [] && Shrunk(u, w, lo, hi) && Contiguous(v.flat, lo)
    requires if lost == {} then Grown(v, u, lo, top, {}) && NoneStuck(v, lo, top - lo)
             else top + 1 < hi && LostOne(v, u, lo, top, lost)
    ensures Outcome(v, w, lo, hi, false)
  {
    hide Shrunk, Grown, Contiguous, StuckAt, FreshFrame, Outcome;
    Returned(v, u, w, lo, top, hi, lost);
    hide GaveBack;
    if lost == {} {
      FreeLeft(v, u, lo, top, {});
      ShortOutcome(v, w, lo, hi, top);
    } else {
      StuckOutcome(v, w, lo, hi, top, lost, false);
    }
  }

  lemma ShortOutcome(v: Vm, w: Vm, lo: nat, hi: nat, top: nat)
    requires lo <= top < hi && NoneStuck(v, lo, top - lo) && GaveBack(v, w, {})
    requires |v.free| == Needs(v.tables.Keys, lo, top - lo)
    ensures Outcome(v, w, lo, hi, false)
  {
    hide StuckAt, GaveBack, Grown, Needs;
    NoneStuckAfter(v, lo, top - lo, hi - lo) by { hide NoneStuck; }
    NeedsGrows(v.tables.Keys, lo, top - lo, hi - lo) by { hide NoneStuck; }
  }

  lemma StuckOutcome(v: Vm, w: Vm, lo: nat, hi: nat, top: nat, lost: set<nat>, success: bool)
    requires lo <= top < hi && StuckAt(v, lo, top - lo) && NoneStuck(v, lo, top - lo) && FreshFrame(v, lost)
    requires if top + 1 < hi then !success && GaveBack(v, w, lost) else success && Grown(v, w, lo, hi - 1, lost)
    ensures Outcome(v, w, lo, hi, success)
  {
    hide StuckAt, FreshFrame, GaveBack, Grown, Needs;
    assert !NoneStuck(v, lo, hi - lo) by { var k: nat := top - lo; assert StuckAt(v, lo, k); }
    forall k: nat | k < hi - lo && StuckAt(v, lo, k)
      ensures k == top - lo
    {
      StuckOnce(v, lo, top - lo, k);
    }
  }

  lemma Returned(v: Vm, u: Vm, w: Vm, lo: nat, top: nat, hi: nat, lost: set<nat>)
    requires lo <= top <= hi <= USER_PAGES && Grown(v, u, lo, top, lost) && Shrunk(u, w, lo, hi)
    requires Contiguous(v.flat, lo)
    ensures GaveBack(v, w, lost)
  {
    hide Preserves, Sized, HeldFrames, Zeroed;
    assert w.flat == v.flat by { hide Accounted; BackToStart(v.flat, u.flat, lo, top, hi); }
    PreservesTrans(v, u, w) by { hide Accounted; }
  }

  lemma BackToStart(flat: map<nat, uint>, flat': map<nat, uint>, lo: nat, top: nat, hi: nat)
    requires lo <= top <= hi <= USER_PAGES && Contiguous(flat, lo) && PagesAdded(flat, flat', lo, top)
    ensures flat' - Range(lo, hi) == flat
  {
  }

  lemma AllGrown(v: Vm, w: Vm, lo: nat, hi: nat)
    requires lo <= hi && Grown(v, w, lo, hi, {}) && NoneStuck(v, lo, hi - lo)
    ensures Outcome(v, w, lo, hi, true)
  {
    FreeLeft(v, w, lo, hi, {});
    hide Grown, StuckAt;
  }

  lemma AllButOne(v: Vm, w: Vm, lo: nat, hi: nat, lost: set<nat>)
    requires lo < hi && LostOne(v, w, lo, hi - 1, lost)
    ensures Outcome(v, w, lo, hi, true)
  {
    hide Grown, StuckAt, FreshFrame;
    StuckOutcome(v, w, lo, hi, hi - 1, lost, true);
  }

  lemma UnitFolds(flat: map<nat, uint>, p: nat, f: nat)
    requires f < PAGES
    ensures Extended(flat, p, 0, f, 6) == flat && Extended(flat, p, 1, f, 6) == flat[p := Entry(f, 6)]
    ensures Span(p, 0) == {} && Span(p, 1) == {Pdx(p)}
    ensures Claimed(p, 0, f) == {} && (p < USER_PAGES ==> Claimed(p, 1, f) == {f})
  {
    MapStepFolds(flat, p, 0, f, 6);
  }

  lemma MappedOne(u: Vm, x: Vm, y: Vm, p: nat, f: nat)
    requires p < USER_PAGES && p !in u.flat && Handing(u, x, f) && MappedTo(x, y, p, 1, f, 6)
    ensures OnePage(u, y, p, f)
  {
    UnitFolds(x.flat, p, f);
    assert f in HeldFrames(x.role) by { hide Preserves, HeldKept, Sized, Extended, Span, Claimed; }
    assert y.mem[f] == x.mem[f] by { hide Preserves, HeldFrames, Extended, Span, Claimed; }
    hide HeldFrames, HeldKept, Sized, Preserves, Extended, Span, Claimed, Entry, Pdx;
    SetBack(HeldFrames(u.role), f);
    PreservesTrans(u, x, y);
  }

  lemma SetBack<T>(a: set<T>, x: T)
    requires x !in a
    ensures a + {x} - {x} == a && a + {} == a && a - {} == a && |a + {x}| == |a| + 1
  {
  }

  lemma GrownStep(v: Vm, u: Vm, y: Vm, lo: nat, p: nat, f: nat)
    requires lo <= p < USER_PAGES && p !in u.flat && Grown(v, u, lo, p, {}) && OnePage(u, y, p, f)
    ensures Grown(v, y, lo, p + 1, {})
  {
    hide Preserves, Sized, HeldFrames, Zeroed, Accounted, PagesAdded, Pdx, Entry;
    PagesAddedStep(v.flat, u.flat, lo, p, Entry(f, 6));
    PreservesTrans(v, u, y);
    ZeroedStep(u, y, lo, p, f);
    AccountedStep(v, u, y, lo, p);
  }

  lemma PagesAddedStep(flat: map<nat, uint>, flat': map<nat, uint>, lo: nat, p: nat, w: uint)
    requires lo <= p && PagesAdded(flat, flat', lo, p)
    ensures PagesAdded(flat, flat'[p := w], lo, p + 1)
    ensures forall q :: q in flat ==> q in flat'
  {
  }

  lemma ZeroedStep(u: Vm, y: Vm, lo: nat, p: nat, f: nat)
    requires lo <= p < USER_PAGES && p !in u.flat && Sized(u.mem) && Zeroed(u, lo, p) && OnePage(u, y, p, f)
    ensures Zeroed(y, lo, p + 1)
  {
    hide HeldFrames;
  }

  lemma AccountedStep(v: Vm, u: Vm, y: Vm, lo: nat, p: nat)
    requires lo <= p && Accounted(v, u, lo, p, {})
    requires y.tables.Keys == u.tables.Keys + {Pdx(p)} && HeldFrames(y.role) == HeldFrames(u.role)
    requires |y.free| + |y.tables| + 1 == |u.free| + |u.tables|
    ensures Accounted(v, y, lo, p + 1, {})
  {
    hide HeldFrames, Pdx;
    assert Span(lo, p + 1 - lo) == Span(lo, p - lo) + {Pdx(p)};
    SetSteps(v.tables.Keys, Span(lo, p - lo), {Pdx(p)});
  }

  lemma MappedZero(x: Vm, y: Vm, p: nat, f: nat)
    requires f < PAGES && MappedTo(x, y, p, 0, f, 6)
    ensures y.flat == x.flat && y.tables.Keys == x.tables.Keys && HeldFrames(y.role) == HeldFrames(x.role)
    ensures |y.free| + |y.tables| == |x.free| + |x.tables|
    ensures Sized(x.mem) && Sized(y.mem) && Preserves(x, y)
  {
    UnitFolds(x.flat, p, f);
    hide HeldFrames, HeldKept, Sized, Preserves, Extended, Span, Claimed;
    assert x.tables.Keys + {} == x.tables.Keys;
    assert HeldFrames(x.role) - {} == HeldFrames(x.role);
  }

  lemma GrownLost(v: Vm, u: Vm, x: Vm, y: Vm, lo: nat, p: nat, f: nat)
    requires lo <= p < USER_PAGES && Grown(v, u, lo, p, {}) && Handing(u, x, f)
    requires MappedTo(x, y, p, 0, f, 6)
    ensures Grown(v, y, lo, p, {f}) && f !in HeldFrames(v.role)
  {
    hide Sized, HeldFrames, MappedTo, Preserves, Zeroed, PagesAdded, Accounted;
    MappedZero(x, y, p, f);
    ZeroedKept(u, x, lo, p);
    ZeroedKept(x, y, lo, p);
    PagesAddedGrows(v.flat, u.flat, lo, p);
    PreservesTrans(v, u, x);
    PreservesTrans(v, x, y);
    AccountedLost(v, u, y, lo, p, f);
  }

  lemma PagesAddedGrows(flat: map<nat, uint>, flat': map<nat, uint>, lo: nat, p: nat)
    requires PagesAdded(flat, flat', lo, p)
    ensures forall q :: q in flat ==> q in flat'
  {
  }

  lemma AccountedLost(v: Vm, u: Vm, y: Vm, lo: nat, p: nat, f: nat)
    requires lo <= p && Accounted(v, u, lo, p, {}) && f !in HeldFrames(u.role)
    requires y.tables.Keys == u.tables.Keys && HeldFrames(y.role) == HeldFrames(u.role) + {f}
    requires |y.free| + |y.tables| + 1 == |u.free| + |u.tables|
    ensures Accounted(v, y, lo, p, {f}) && f !in HeldFrames(v.role)
  {
    hide HeldFrames, Span;
    assert HeldFrames(v.role) + {} == HeldFrames(v.role);
  }

  lemma TableCount(u: Vm, y: Vm, p: nat)
    requires y.tables.Keys == u.tables.Keys + {Pdx(p)}
    ensures |y.tables| == |u.tables| + (if Pdx(p) in u.tables then 0 else 1)
  {
    if Pdx(p) in u.tables {
      assert u.tables.Keys + {Pdx(p)} == u.tables.Keys;
    }
    assert |y.tables| == |y.tables.Keys| && |u.tables| == |u.tables.Keys|;
  }

  /** When mapping the page failed: no table, and no frame left after the page's own. */
  lemma WhyLost(u: Vm, x: Vm, y: Vm, p: nat, f: nat)
    requires Handing(u, x, f) && MappedTo(x, y, p, 0, f, 6) && y.free == [] && Pdx(p) !in y.tables
    ensures Pdx(p) !in u.tables && |u.free| == 1
  {
    hide Sized, HeldFrames, MappedTo, Preserves, Pdx;
    MappedZero(x, y, p, f);
    assert Pdx(p) !in y.tables.Keys;
    assert |y.tables| == |y.tables.Keys| && |x.tables| == |x.tables.Keys|;
  }

  lemma WhyMapped(u: Vm, y: Vm, p: nat, f: nat)
    requires OnePage(u, y, p, f)
    ensures Pdx(p) in u.tables || |u.free| > 1
  {
    hide Sized, HeldFrames, Preserves, Pdx;
    TableCount(u, y, p);
  }

  lemma ZeroedKept(u: Vm, x: Vm, lo: nat, p: nat)
    requires Sized(u.mem) && Sized(x.mem) && Preserves(u, x) && x.flat == u.flat && p <= USER_PAGES && Zeroed(u, lo, p)
    ensures Zeroed(x, lo, p)
  {
  }

  /** The state after walkpgdir, made or found: only tables and the free list may differ. */
  ghost predicate Extends(v: Vm, u: Vm, p: nat) {
    && Sized(v.mem) && Sized(u.mem) && Preserves(v, u) && HeldKept(v, u)
    && HeldFrames(u.role) == HeldFrames(v.role) && u.flat == v.flat
    && Pdx(p) in u.tables && u.tables.Keys == v.tables.Keys + {Pdx(p)}
    && |u.free| + |u.tables| == |v.free| + |v.tables|
  }

  lemma WalkExtends(v: Vm, u: Vm, p: nat)
    requires Inv(v) && p < PAGES
    requires Pdx(p) in v.tables ==> u == v
    requires Pdx(p) !in v.tables ==>
               Sized(v.mem) && v.dir < FRAMES && v.free != [] && v.free[0] < FRAMES && u == Walked(v, p)
    ensures Extends(v, u, p)
  {
    InvShape(v);
    hide Inv, Pool, InRange;
    if Pdx(p) in v.tables {
      assert v.tables.Keys == v.tables.Keys + {Pdx(p)};
    } else {
      WalkedExtends(v, p);
    }
  }

  lemma WalkedExtends(v: Vm, p: nat)
    requires Inv(v) && p < PAGES && Pdx(p) !in v.tables
    requires Sized(v.mem) && v.dir < FRAMES && v.free != [] && v.free[0] < FRAMES
    ensures Extends(v, Walked(v, p), p)
  {
    hide Inv, Sized, Walked, HeldKept, HeldFrames, Preserves;
    WalkedPreserves(v, p);
    WalkedHeld(v, p);
    assert Walked(v, p).tables.Keys == v.tables.Keys + {Pdx(p)};
  }

  lemma MapPageFacts(v: Vm, u: Vm, p: nat, f: nat, perm: nat)
    requires Inv(u) && Extends(v, u, p) && p < PAGES && p !in v.flat && f < PAGES && perm < PGSIZE
    requires p < USER_PAGES ==> Is(v.role, f, Held)
    ensures u.tables[Pdx(p)] < FRAMES
    ensures var w := WithPage(u, p, Entry(f, perm));
      && Inv(w) && Sized(w.mem) && w.flat == v.flat[p := Entry(f, perm)]
      && Preserves(v, w) && HeldKept(v, w)
      && w.tables.Keys == v.tables.Keys + {Pdx(p)} && |w.free| + |w.tables| == |v.free| + |v.tables|
      && HeldFrames(w.role) == HeldFrames(v.role) - (if p < USER_PAGES then {f} else {})
  {
    hide Inv, Preserves, HeldKept;
    assert p < USER_PAGES ==> f in HeldFrames(v.role) && f in HeldFrames(u.role);
    assert p < USER_PAGES ==> Is(u.role, f, Held);
    hide HeldFrames;
    MappedFacts(u, p, Entry(f, perm));
    MapPageDone(v, u, WithPage(u, p, Entry(f, perm))) by { hide WithPage; }
  }

  lemma MapPageDone(v: Vm, u: Vm, w: Vm)
    requires Sized(v.mem) && Sized(u.mem) && Sized(w.mem)
    requires Preserves(v, u) && HeldKept(v, u) && HeldFrames(u.role) == HeldFrames(v.role)
    requires Preserves(u, w) && HeldKept(u, w) && u.flat == v.flat
    ensures Preserves(v, w) && HeldKept(v, w)
  {
  }
}
