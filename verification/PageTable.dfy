/** vm.c and kalloc.c: two-level page tables kept in physical frames, and the free
    list that is threaded through the free frames themselves.
    A frame is a page of 1024 words; a pointer to a frame is its number, 0 for null. */
module PageTable {
  import opened Blocks

  const PGSIZE := 4096
  const ENTRIES := 1024
  const FRAMES := 0xE000     // PHYSTOP / PGSIZE
  const USER_PAGES := 0x8_0000  // KERNBASE / PGSIZE
  const PAGES := 0x10_0000
  const KERNBASE := 0x8000_0000

  type Frame = seq<uint>
  type Memory = seq<Frame>

  /** A page number's index in the directory. */
  function Pdx(p: nat): (i: nat)
    ensures p < PAGES ==> i < ENTRIES
  {
    p / ENTRIES
  }

  /** A page number's index in its page table. */
  function Ptx(p: nat): (i: nat)
    ensures i < ENTRIES
  {
    p % ENTRIES
  }

  function Present(w: uint): bool {
    w % 2 == 1
  }

  /** PTE_W */
  predicate Writable(w: nat) {
    w / 2 % 2 == 1
  }

  /** PTE_U */
  predicate ForUser(w: nat) {
    w / 4 % 2 == 1
  }

  /** PTE_ADDR, as a frame number. */
  function Target(w: uint): nat {
    w / PGSIZE
  }

  /** pa | perm | PTE_P for a page-aligned pa. */
  function Entry(frame: nat, perm: nat): (w: uint)
    requires frame < PAGES && perm < PGSIZE
    ensures Present(w) && Target(w) == frame
    ensures w % PGSIZE == perm / 2 * 2 + 1
  {
    var low := perm / 2 * 2 + 1;
    FrameAndLow(frame, low);
    OddLow(frame, perm / 2);
    frame * PGSIZE + low
  }

  lemma FrameAndLow(frame: nat, low: nat)
    requires low < PGSIZE
    ensures (frame * PGSIZE + low) / PGSIZE == frame && (frame * PGSIZE + low) % PGSIZE == low
  {
  }

  lemma OddLow(frame: nat, half: nat)
    ensures (frame * PGSIZE + (half * 2 + 1)) % 2 == 1
  {
    assert frame * PGSIZE + (half * 2 + 1) == 2 * (frame * 0x800 + half) + 1;
  }

  function Filled(w: uint): (f: Frame)
    ensures |f| == ENTRIES && forall i :: 0 <= i < ENTRIES ==> f[i] == w
  {
    seq<uint>(ENTRIES, _ => w)
  }

  /** Memory with one word of one frame changed. */
  function Store(mem: Memory, f: nat, i: nat, w: uint): (m: Memory)
    requires f < |mem| && i < |mem[f]|
    ensures |m| == |mem| && |m[f]| == |mem[f]|
    ensures m[f][i] == w && forall j :: 0 <= j < |m[f]| && j != i ==> m[f][j] == mem[f][j]
    ensures forall g :: 0 <= g < |mem| && g != f ==> m[g] == mem[g]
  {
    var page: Frame := mem[f];
    mem[f := page[i := w]]
  }

  /** What a frame the address space or the kernel may use is used for. */
  datatype Role = Free(k: nat) | Directory | Table(i: nat) | User(p: nat) | Held

  /** One address space and the free list. flat is the page map the two levels stand
      for; role says of each of these frames what it is used for. */
  datatype Vm = Vm(
    mem: Memory, head: nat, free: seq<nat>, dir: nat,
    tables: map<nat, nat>, flat: map<nat, uint>, role: map<nat, Role>)

  ghost predicate Sized(mem: Memory) {
    |mem| == FRAMES && forall f :: 0 <= f < FRAMES ==> |mem[f]| == ENTRIES
  }

  ghost predicate Is(role: map<nat, Role>, f: nat, r: Role) {
    f in role && role[f] == r
  }

  ghost predicate InRange(role: map<nat, Role>) {
    forall f :: f in role ==> 0 < f < FRAMES
  }

  function Link(free: seq<nat>, i: nat): nat {
    if i < |free| then free[i] else 0
  }

  /** The free list: each free frame's first word points at the next. */
  ghost predicate Listed(mem: Memory, head: nat, free: seq<nat>)
    requires Sized(mem)
  {
    && head == Link(free, 0)
    && forall i :: 0 <= i < |free| ==> 0 < free[i] < FRAMES && mem[free[i]][0] == Link(free, i + 1)
  }

  /** Free frames are numbered from the end of the list. */
  ghost predicate FreeRoles(role: map<nat, Role>, free: seq<nat>) {
    && (forall i :: 0 <= i < |free| ==> Is(role, free[i], Free(|free| - 1 - i)))
    && (forall f :: f in role && role[f].Free? ==> role[f].k < |free| && free[|free| - 1 - role[f].k] == f)
  }

  ghost predicate TableRoles(role: map<nat, Role>, tables: map<nat, nat>, dir: nat) {
    && (forall i :: i in tables ==> i < ENTRIES && Is(role, tables[i], Table(i)))
    && (forall f :: f in role && role[f].Table? ==> role[f].i in tables && tables[role[f].i] == f)
    && Is(role, dir, Directory)
    && (forall f :: f in role && role[f].Directory? ==> f == dir)
  }

  ghost predicate UserRoles(role: map<nat, Role>, flat: map<nat, uint>) {
    && (forall p :: p in flat && p < USER_PAGES ==> Is(role, Target(flat[p]), User(p)))
    && (forall f :: f in role && role[f].User? ==>
          var p := role[f].p; p in flat && p < USER_PAGES && Target(flat[p]) == f)
  }

  /** Every frame has one use: the free list, directory, tables and user pages never overlap. */
  ghost predicate Roles(v: Vm) {
    && InRange(v.role) && FreeRoles(v.role, v.free)
    && TableRoles(v.role, v.tables, v.dir) && UserRoles(v.role, v.flat)
  }

  ghost predicate DirEntry(v: Vm, i: nat)
    requires Sized(v.mem) && v.dir < FRAMES && i < ENTRIES
  {
    var w := v.mem[v.dir][i];
    && (i in v.tables <==> Present(w))
    && (i in v.tables ==> v.tables[i] == Target(w) && Writable(w) && ForUser(w))
  }

  ghost predicate PageEntry(v: Vm, p: nat)
    requires Sized(v.mem) && p < PAGES
  {
    if Pdx(p) in v.tables && v.tables[Pdx(p)] < FRAMES then
      var w := v.mem[v.tables[Pdx(p)]][Ptx(p)];
      (p in v.flat <==> Present(w)) && (p in v.flat ==> v.flat[p] == w)
    else p !in v.flat
  }

  ghost predicate DirOk(v: Vm)
    requires Sized(v.mem) && v.dir < FRAMES
  {
    forall i :: 0 <= i < ENTRIES ==> DirEntry(v, i)
  }

  ghost predicate FlatOk(v: Vm)
    requires Sized(v.mem)
  {
    && (forall p :: p in v.flat ==> p < PAGES)
    && (forall p :: 0 <= p < PAGES ==> PageEntry(v, p))
  }

  ghost predicate Inv(v: Vm) {
    && Sized(v.mem) && v.dir < FRAMES
    && Listed(v.mem, v.head, v.free)
    && Roles(v) && DirOk(v) && FlatOk(v)
  }

  /** Frames in these uses are as they were. */
  ghost predicate FreeFramesKept(v: Vm, mem: Memory)
    requires Sized(v.mem) && Sized(mem)
  {
    forall i :: 0 <= i < |v.free| ==> 0 < v.free[i] < FRAMES && mem[v.free[i]] == v.mem[v.free[i]]
  }

  ghost predicate TableFramesKept(v: Vm, mem: Memory)
    requires Sized(v.mem) && Sized(mem)
  {
    forall i :: i in v.tables ==> v.tables[i] < FRAMES && mem[v.tables[i]] == v.mem[v.tables[i]]
  }

  /** A memory that differs from v's only in the given frame. */
  ghost predicate OnlyIn(v: Vm, mem: Memory, f: nat)
    requires Sized(v.mem) && Sized(mem)
  {
    forall g :: 0 <= g < FRAMES && g != f ==> mem[g] == v.mem[g]
  }

  lemma FreeKept(v: Vm, mem: Memory, f: nat)
    requires Sized(v.mem) && Sized(mem) && Listed(v.mem, v.head, v.free) && FreeRoles(v.role, v.free)
    requires OnlyIn(v, mem, f) && (f in v.role ==> !v.role[f].Free?)
    ensures FreeFramesKept(v, mem) && Listed(mem, v.head, v.free)
  {
    forall i | 0 <= i < |v.free|
      ensures v.free[i] != f
    {
      assert Is(v.role, v.free[i], Free(|v.free| - 1 - i));
    }
  }

  lemma TablesKept(v: Vm, mem: Memory, f: nat)
    requires Sized(v.mem) && Sized(mem) && InRange(v.role) && TableRoles(v.role, v.tables, v.dir)
    requires OnlyIn(v, mem, f) && f in v.role && !v.role[f].Table?
    ensures TableFramesKept(v, mem)
  {
    forall i | i in v.tables
      ensures v.tables[i] < FRAMES && v.tables[i] != f
    {
      assert Is(v.role, v.tables[i], Table(i));
    }
  }

  lemma FlatKept(v: Vm, w: Vm)
    requires Sized(v.mem) && Sized(w.mem) && FlatOk(v)
    requires w.tables == v.tables && w.flat == v.flat && TableFramesKept(v, w.mem)
    ensures FlatOk(w)
  {
    forall p | 0 <= p < PAGES
      ensures PageEntry(w, p)
    {
      assert PageEntry(v, p);
    }
  }

  lemma DirKept(v: Vm, w: Vm)
    requires Sized(v.mem) && Sized(w.mem) && v.dir < FRAMES && DirOk(v)
    requires w.tables == v.tables && w.dir == v.dir && w.mem[v.dir] == v.mem[v.dir]
    ensures DirOk(w)
  {
    forall i | 0 <= i < ENTRIES
      ensures DirEntry(w, i)
    {
      assert DirEntry(v, i);
    }
  }

  /** Giving a frame a new use that is not of some kind, when its old use was not either. */
  lemma Retagged(v: Vm, f: nat, r: Role)
    requires f in v.role
    ensures FreeRoles(v.role, v.free) && !v.role[f].Free? && !r.Free? ==>
              FreeRoles(v.role[f := r], v.free)
    ensures (&& TableRoles(v.role, v.tables, v.dir)
             && !v.role[f].Table? && !v.role[f].Directory? && !r.Table? && !r.Directory?) ==>
              TableRoles(v.role[f := r], v.tables, v.dir)
    ensures UserRoles(v.role, v.flat) && !v.role[f].User? && !r.User? ==>
              UserRoles(v.role[f := r], v.flat)
  {
  }

  // ---- steps on the pure state ----

  ghost function Popped(v: Vm): Vm
    requires |v.free| > 0
  {
    v.(head := Link(v.free, 1), free := v.free[1..], role := v.role[v.free[0] := Held])
  }

  lemma PoppedInv(v: Vm)
    requires Inv(v) && |v.free| > 0
    ensures Inv(Popped(v))
    ensures Is(Popped(v).role, v.free[0], Held) && 0 < v.free[0] < FRAMES
  {
    var w := Popped(v);
    PoppedRoles(v);
    assert Listed(w.mem, w.head, w.free);
    DirKept(v, w) by { hide Roles, FlatOk; }
    assert TableFramesKept(v, v.mem) by { TableBounds(v); }
    FlatKept(v, w) by { hide Roles, DirOk; }
  }

  lemma TableBounds(v: Vm)
    requires InRange(v.role) && TableRoles(v.role, v.tables, v.dir)
    ensures 0 < v.dir < FRAMES && forall i :: i in v.tables ==> 0 < v.tables[i] < FRAMES
  {
    forall i | i in v.tables
      ensures 0 < v.tables[i] < FRAMES
    {
      assert Is(v.role, v.tables[i], Table(i));
    }
  }

  lemma PoppedRoles(v: Vm)
    requires Roles(v) && |v.free| > 0
    ensures Roles(Popped(v))
  {
    assert Is(v.role, v.free[0], Free(|v.free| - 1));
    assert FreeRoles(Popped(v).role, v.free[1..]) by { hide TableRoles, UserRoles; }
    Retagged(v, v.free[0], Held) by { hide TableRoles, UserRoles, FreeRoles; }
    hide TableRoles, UserRoles, FreeRoles;
  }

  /** Writing into a held frame disturbs nothing. */
  lemma HeldInv(v: Vm, f: nat, page: Frame)
    requires Inv(v) && Is(v.role, f, Held) && |page| == ENTRIES
    ensures f < FRAMES && Inv(v.(mem := v.mem[f := page]))
  {
    var w := v.(mem := v.mem[f := page]);
    FreeKept(v, w.mem, f) by { hide DirOk, FlatOk; }
    TablesKept(v, w.mem, f) by { hide DirOk, FlatOk; }
    DirKept(v, w) by { hide FlatOk; }
    FlatKept(v, w) by { hide Roles, DirOk; }
  }

  ghost function WithTable(v: Vm, i: nat, f: nat): Vm
    requires Sized(v.mem) && v.dir < FRAMES && i < ENTRIES && f < FRAMES
  {
    v.(mem := Store(v.mem, v.dir, i, Entry(f, 7)),
       tables := v.tables[i := f], role := v.role[f := Table(i)])
  }

  /** A zeroed held frame becomes a page table: the page map does not change. */
  lemma WithTableInv(v: Vm, i: nat, f: nat)
    requires Inv(v) && Is(v.role, f, Held) && i < ENTRIES && i !in v.tables
    requires f < FRAMES && v.mem[f] == Filled(0)
    ensures Inv(WithTable(v, i, f))
  {
    var w := WithTable(v, i, f);
    WithTableRoles(v, i, f) by { hide DirOk, FlatOk, Listed; }
    FreeKept(v, w.mem, v.dir) by { hide DirOk, FlatOk; }
    TablesKept(v, w.mem, v.dir) by { hide DirOk, FlatOk; }
    WithTableDir(v, i, f) by { hide FlatOk, Roles; }
    WithTableFlat(v, i, f) by { hide DirOk; }
  }

  lemma WithTableRoles(v: Vm, i: nat, f: nat)
    requires Sized(v.mem) && v.dir < FRAMES && Roles(v)
    requires Is(v.role, f, Held) && i < ENTRIES && i !in v.tables && f < FRAMES
    ensures Roles(WithTable(v, i, f))
  {
    assert TableRoles(v.role[f := Table(i)], v.tables[i := f], v.dir) by { hide FreeRoles, UserRoles; }
    Retagged(v, f, Table(i)) by { hide TableRoles, UserRoles, FreeRoles; }
    hide TableRoles, UserRoles, FreeRoles;
  }

  lemma WithTableDir(v: Vm, i: nat, f: nat)
    requires Sized(v.mem) && v.dir < FRAMES && DirOk(v) && i < ENTRIES && f < FRAMES
    ensures DirOk(WithTable(v, i, f))
  {
    forall j | 0 <= j < ENTRIES
      ensures DirEntry(WithTable(v, i, f), j)
    {
      assert DirEntry(v, j);
    }
  }

  lemma WithTableFlat(v: Vm, i: nat, f: nat)
    requires Sized(v.mem) && v.dir < FRAMES && FlatOk(v) && i < ENTRIES && f < FRAMES
    requires f != v.dir && i !in v.tables && v.mem[f] == Filled(0)
    requires TableFramesKept(v, WithTable(v, i, f).mem)
    ensures FlatOk(WithTable(v, i, f))
  {
    forall p | 0 <= p < PAGES
      ensures PageEntry(WithTable(v, i, f), p)
    {
      assert PageEntry(v, p);
    }
  }

  ghost function WithPage(v: Vm, p: nat, word: uint): Vm
    requires Sized(v.mem) && p < PAGES && Pdx(p) in v.tables && v.tables[Pdx(p)] < FRAMES
  {
    var t := v.tables[Pdx(p)];
    v.(mem := Store(v.mem, t, Ptx(p), word), flat := v.flat[p := word],
       role := if p < USER_PAGES then v.role[Target(word) := User(p)] else v.role)
  }

  lemma WithPageInv(v: Vm, p: nat, word: uint)
    requires Inv(v) && p < PAGES && p !in v.flat && Present(word)
    requires Pdx(p) in v.tables
    requires p < USER_PAGES ==> Is(v.role, Target(word), Held)
    ensures v.tables[Pdx(p)] < FRAMES && Inv(WithPage(v, p, word))
  {
    TableBounds(v);
    var w := WithPage(v, p, word);
    var t := v.tables[Pdx(p)];
    assert Is(v.role, t, Table(Pdx(p))) && Is(v.role, v.dir, Directory);
    WithPageRoles(v, p, word) by { hide DirOk, FlatOk, Listed; }
    FreeKept(v, w.mem, t) by { hide DirOk, FlatOk; }
    DirKept(v, w) by { hide FlatOk, Roles; }
    assert FlatOk(w) by {
      WithPageFlat(v, p, t, w) by { hide DirOk; }
    }
  }

  lemma WithPageRoles(v: Vm, p: nat, word: uint)
    requires Sized(v.mem) && p < PAGES && Pdx(p) in v.tables && v.tables[Pdx(p)] < FRAMES
    requires Roles(v) && p !in v.flat && (p < USER_PAGES ==> Is(v.role, Target(word), Held))
    ensures Roles(WithPage(v, p, word))
  {
    if p < USER_PAGES {
      assert UserRoles(v.role[Target(word) := User(p)], v.flat[p := word]) by { hide FreeRoles, TableRoles; }
      Retagged(v, Target(word), User(p)) by { hide TableRoles, UserRoles, FreeRoles; }
    } else {
      assert UserRoles(v.role, v.flat[p := word]) by { hide FreeRoles, TableRoles; }
    }
    hide TableRoles, UserRoles, FreeRoles;
  }

  /** Changing the entry of one page, present or not, changes the page map there alone. */
  lemma WithPageFlat(v: Vm, p: nat, t: nat, w: Vm)
    requires Sized(v.mem) && Sized(w.mem) && FlatOk(v) && TableRoles(v.role, v.tables, v.dir) && InRange(v.role)
    requires p < PAGES && Pdx(p) in v.tables && v.tables[Pdx(p)] == t < FRAMES
    requires w.tables == v.tables
    requires forall i :: i in v.tables && i != Pdx(p) && v.tables[i] < FRAMES ==>
                           w.mem[v.tables[i]] == v.mem[v.tables[i]]
    requires forall j :: 0 <= j < ENTRIES && j != Ptx(p) ==> w.mem[t][j] == v.mem[t][j]
    requires p in w.flat <==> Present(w.mem[t][Ptx(p)])
    requires p in w.flat ==> w.flat[p] == w.mem[t][Ptx(p)]
    requires forall q :: q != p ==> (q in w.flat <==> q in v.flat) && (q in v.flat ==> w.flat[q] == v.flat[q])
    ensures FlatOk(w)
  {
    hide TableRoles, InRange;
    forall q | 0 <= q < PAGES
      ensures PageEntry(w, q)
    {
      assert PageEntry(v, q);
      SamePage(p, q);
    }
  }

  /** A page number is its two indices. */
  lemma SamePage(p: nat, q: nat)
    ensures Pdx(p) == Pdx(q) && Ptx(p) == Ptx(q) ==> p == q
  {
  }

  /** kfree fills the frame with ones and threads it onto the list. */
  function Freed(next: uint): (f: Frame)
    ensures |f| == ENTRIES && f[0] == next
  {
    Filled(0x0101_0101)[0 := next]
  }

  ghost function Pushed(v: Vm, f: nat): Vm
    requires f < |v.mem| && v.head < FRAMES
  {
    v.(mem := v.mem[f := Freed(v.head)], head := f, free := [f] + v.free,
       role := v.role[f := Free(|v.free|)])
  }

  lemma ConsListed(mem: Memory, f: nat, head: nat, free: seq<nat>)
    requires Sized(mem) && Listed(mem, head, free) && 0 < f < FRAMES && mem[f][0] == head
    ensures Listed(mem, f, [f] + free)
  {
    var list := [f] + free;
    forall i | 0 <= i < |list|
      ensures 0 < list[i] < FRAMES && mem[list[i]][0] == Link(list, i + 1)
    {
      if i > 0 {
        assert list[i] == free[i - 1] && Link(list, i + 1) == Link(free, i);
      }
    }
  }

  lemma PushedListed(v: Vm, f: nat)
    requires Sized(v.mem) && Listed(v.mem, v.head, v.free) && FreeRoles(v.role, v.free)
    requires (f in v.role ==> !v.role[f].Free?) && 0 < f < FRAMES
    ensures v.head < FRAMES && Listed(Pushed(v, f).mem, f, [f] + v.free) && Sized(Pushed(v, f).mem)
  {
    assert v.head < FRAMES;
    var w := Pushed(v, f);
    FreeKept(v, w.mem, f) by { hide Listed, FreeRoles; }
    ConsListed(w.mem, f, v.head, v.free) by { hide Listed, FreeRoles; }
    hide Listed, FreeRoles;
  }

  lemma PushedFreeRoles(v: Vm, f: nat)
    requires FreeRoles(v.role, v.free) && (f in v.role ==> !v.role[f].Free?)
    ensures FreeRoles(v.role[f := Free(|v.free|)], [f] + v.free)
  {
    var free := [f] + v.free;
    forall i | 0 <= i < |free|
      ensures Is(v.role[f := Free(|v.free|)], free[i], Free(|free| - 1 - i))
    {
      if i > 0 {
        assert Is(v.role, v.free[i - 1], Free(|v.free| - 1 - (i - 1)));
      }
    }
  }

  /** kfree of a user page, then clearing its entry. */
  ghost function WithoutPage(v: Vm, p: nat): Vm
    requires Inv(v) && p in v.flat && p < USER_PAGES
  {
    assert PageEntry(v, p) && Is(v.role, Target(v.flat[p]), User(p));
    assert Is(v.role, v.tables[Pdx(p)], Table(Pdx(p)));
    var w := Pushed(v, Target(v.flat[p]));
    w.(mem := Store(w.mem, v.tables[Pdx(p)], Ptx(p), 0), flat := v.flat - {p})
  }

  lemma WithoutPageInv(v: Vm, p: nat)
    requires Inv(v) && p in v.flat && p < USER_PAGES
    ensures Inv(WithoutPage(v, p))
  {
    var w := WithoutPage(v, p);
    var f, i := Target(v.flat[p]), Pdx(p);
    assert PageEntry(v, p) && Is(v.role, f, User(p));
    var t := v.tables[i];
    assert Is(v.role, t, Table(i)) && Is(v.role, v.dir, Directory);
    PushedListed(v, f) by { hide DirOk, FlatOk; }
    PushedFreeRoles(v, f) by { hide DirOk, FlatOk; }
    var u := Pushed(v, f);
    FreeKept(u, w.mem, t) by { hide DirOk, FlatOk; }
    WithoutPageRoles(v, p, f) by { hide DirOk, FlatOk, Listed; }
    DirKept(v, w) by { hide FlatOk, Roles; }
    TablesKept(v, u.mem, f) by { hide DirOk, FlatOk; }
    WithoutPageFlat(v, p, w) by { hide DirOk; }
  }

  lemma WithoutPageRoles(v: Vm, p: nat, f: nat)
    requires Roles(v) && p in v.flat && p < USER_PAGES && f == Target(v.flat[p])
    ensures Roles(v.(free := [f] + v.free, role := v.role[f := Free(|v.free|)], flat := v.flat - {p}))
  {
    assert Is(v.role, f, User(p));
    PushedFreeRoles(v, f) by { hide TableRoles, UserRoles; }
    Retagged(v, f, Free(|v.free|)) by { hide TableRoles, UserRoles, FreeRoles; }
    assert UserRoles(v.role[f := Free(|v.free|)], v.flat - {p}) by { hide TableRoles, FreeRoles; }
    hide TableRoles, UserRoles, FreeRoles;
  }

  lemma WithoutPageFlat(v: Vm, p: nat, w: Vm)
    requires Inv(v) && p in v.flat && p < USER_PAGES && w == WithoutPage(v, p)
    ensures FlatOk(w)
  {
    assert PageEntry(v, p) && Is(v.role, Target(v.flat[p]), User(p));
    var t := v.tables[Pdx(p)];
    TableBounds(v);
    forall i | i in v.tables
      ensures v.tables[i] != Target(v.flat[p]) && (i != Pdx(p) ==> v.tables[i] != t)
    {
      assert Is(v.role, v.tables[i], Table(i));
    }
    WithPageFlat(v, p, t, w);
  }
}
