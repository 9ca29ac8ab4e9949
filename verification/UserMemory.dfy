/** vm.c:45-292 and kalloc.c:46-95 as code that changes physical memory in place:
    the frame allocator, walkpgdir, mappages, allocuvm, deallocuvm and freevm. */
module UserMemory {
  import opened Blocks
  import opened Finite
  import opened PageTable
  import opened PageSteps
  import opened Mmu

  class AddressSpace {
    var mem: Memory
    var freelist: nat
    const dir: nat
    ghost var free: seq<nat>
    ghost var tables: map<nat, nat>
    ghost var flat: map<nat, uint>
    ghost var role: map<nat, Role>

    ghost function V(): Vm
      reads this
    {
      Vm(mem, freelist, free, dir, tables, flat, role)
    }

    /** freerange (kalloc.c:46-52) over the frames first .. last-1, then the zeroed directory
        that setupkvm starts an address space with. */
    constructor (m: Memory, first: nat, last: nat)
      requires Sized(m) && 0 < first < last <= FRAMES
      ensures Inv(V()) && tables == map[] && flat == map[]
      ensures role.Keys == Range(first, last) && |free| == last - first - 1 && HeldFrames(role) == {}
    {
      hide AllFreed, Sized, Pool, Inv, Range, HeldFrames;
      mem, freelist, dir := m, 0, last - 1;
      free, tables, flat, role := [], map[], map[], map[];
      new;
      PoolOfNone(V(), first);
      var p := first;
      while p < last
        invariant first <= p <= last && AllFreed(V(), first, p)
        invariant tables == map[] && flat == map[]
      {
        ghost var u := V();
        NextFreed(u, first, p);
        Kfree(p);
        p := p + 1;
      }
      MakeDirectory(first, last);
    }

    method MakeDirectory(ghost first: nat, ghost last: nat)
      requires AllFreed(V(), first, last) && 0 < first < last <= FRAMES
      requires tables == map[] && flat == map[] && dir == last - 1
      modifies `mem, `freelist, `free, `role
      ensures Inv(V()) && role.Keys == Range(first, last) && |free| == last - first - 1 && HeldFrames(role) == {}
    {
      hide AllFreed, Pool, Inv, Range, HeldFrames;
      ghost var u := V();
      LastFreed(u, first, last);
      var f := Kalloc();
      mem := mem[f := Filled(0)];
      role := role[f := Directory];
      assert V() == WithDirectory(u);
    }

    /** kalloc.c:83-95 */
    method Kalloc() returns (f: nat)
      requires Pool(V())
      modifies `freelist, `free, `role
      ensures Pool(V())
      ensures old(free) == [] ==> f == 0 && V() == old(V())
      ensures old(free) != [] ==> f == old(free[0]) && 0 < f < FRAMES && V() == Popped(old(V()))
    {
      if freelist == 0 {
        f := 0;
      } else {
        PoppedPool(V());
        hide FreeRoles;
        f := freelist;
        freelist := mem[f][0];
        role := role[f := Held];
        free := free[1..];
      }
    }

    /** kalloc.c:60-77 */
    method Kfree(f: nat)
      requires Pool(V()) && 0 < f < FRAMES && (f in role ==> !role[f].Free?)
      modifies `mem, `freelist, `free, `role
      ensures Pool(V()) && old(freelist) < FRAMES && V() == Pushed(old(V()), f)
      ensures freelist == f && mem[f][0] == old(freelist) && forall j :: 1 <= j < ENTRIES ==> mem[f][j] == 0x0101_0101
    {
      PushedPool(V(), f);
      hide FreeRoles, Listed;
      role := role[f := Free(|free|)];
      free := [f] + free;
      mem := mem[f := Freed(freelist)];
      freelist := f;
    }

    /** vm.c:46-65. A missing table is made only when asked for. */
    method Walkpgdir(p: nat, alloc: bool) returns (t: nat)
      requires Inv(V()) && p < PAGES
      modifies `mem, `freelist, `free, `role, `tables
      ensures Inv(V())
      ensures t == 0 <==> Pdx(p) !in old(tables) && (!alloc || old(free) == [])
      ensures t != 0 ==> Pdx(p) in tables && tables[Pdx(p)] == t < FRAMES
      ensures t != 0 ==> TableAt(mem, dir, p, t)
      ensures t != 0 && Pdx(p) !in old(tables) ==> NewTable(mem, dir, p, t)
      ensures Pdx(p) in old(tables) || t == 0 ==> V() == old(V())
      ensures Pdx(p) !in old(tables) && t != 0 ==>
                && Sized(old(mem)) && dir < FRAMES && old(free) != [] && old(free)[0] < FRAMES
                && V() == Walked(old(V()), p)
    {
      InvShape(V());
      assert DirEntry(V(), Pdx(p));
      hide DirOk, FlatOk, Roles, Listed, Pool;
      if Present(mem[dir][Pdx(p)]) {
        FoundTable(V(), p);
        t := Target(mem[dir][Pdx(p)]);
      } else if !alloc {
        t := 0;
      } else {
        ghost var v := V();
        t := Kalloc();
        if t != 0 {
          WalkedInv(v, p);
          MadeTable(v, p);
          hide Inv, TableAt, NewTable;
          mem := mem[t := Filled(0)];
          mem := Store(mem, dir, Pdx(p), Entry(t, 7));
          tables := tables[Pdx(p) := t];
          role := role[t := Table(Pdx(p))];
        }
      }
    }

    method SetEntry(p: nat, t: nat, word: uint)
      requires Sized(mem) && p < PAGES && Pdx(p) in tables && tables[Pdx(p)] == t < FRAMES
      modifies `mem, `flat, `role
      ensures V() == WithPage(old(V()), p, word)
    {
      mem := Store(mem, t, Ptx(p), word);
      flat := flat[p := word];
      if p < USER_PAGES {
        role := role[Target(word) := User(p)];
      }
    }

    /** The body of mappages' loop: one page. */
    method MapPage(p: nat, f: nat, perm: nat) returns (ok: bool)
      requires Inv(V()) && p < PAGES && p !in flat && f < PAGES && perm < PGSIZE
      requires p < USER_PAGES ==> Is(role, f, Held)
      modifies `mem, `freelist, `free, `role, `tables, `flat
      ensures Inv(V()) && Sized(mem) && Sized(old(mem))
      ensures ok <==> Pdx(p) in old(tables) || old(free) != []
      ensures !ok ==> V() == old(V())
      ensures ok ==> flat == old(flat)[p := Entry(f, perm)] && Preserves(old(V()), V()) && HeldKept(old(V()), V())
      ensures ok ==> tables.Keys == old(tables).Keys + {Pdx(p)} && |free| + |tables| == |old(free)| + |old(tables)|
      ensures ok ==> HeldFrames(role) == HeldFrames(old(role)) - (if p < USER_PAGES then {f} else {})
    {
      ghost var v := V();
      InvShape(v);
      hide Pool, InRange, Preserves, HeldKept, HeldFrames, Walked;
      var t := Walkpgdir(p, true);
      hide Inv;
      ok := t != 0;
      if ok {
        ghost var u := V();
        WalkExtends(v, u, p);
        MapPageFacts(v, u, p, f, perm);
        SetEntry(p, t, Entry(f, perm));
      }
    }

    /** vm.c:71-90. Pages are mapped to consecutive frames until all are, or no frame is
        left for a page table; done says how many were. */
    method Mappages(va: uint, size: uint, pa: uint, perm: nat) returns (ok: bool, ghost done: nat)
      requires Inv(V()) && size > 0 && va + size <= 0x1_0000_0000 && pa % PGSIZE == 0 && perm < PGSIZE
      requires pa / PGSIZE + PageCount(va, size) <= PAGES
      requires forall p :: va / PGSIZE <= p < va / PGSIZE + PageCount(va, size) ==> p !in flat
      requires AllHeld(role, va / PGSIZE, PageCount(va, size), pa / PGSIZE)
      modifies `mem, `freelist, `free, `role, `tables, `flat
      ensures Inv(V()) && done <= PageCount(va, size) && (ok <==> done == PageCount(va, size))
      ensures MappedTo(old(V()), V(), va / PGSIZE, done, pa / PGSIZE, perm)
      ensures !ok ==> free == [] && Pdx(va / PGSIZE + done) !in tables
      ensures ok ==> forall a :: va <= a < va + size ==> Page(va) <= Page(a) < Page(va) + done
      ensures LeadsTo(mem, dir, Page(va), done, Page(pa), perm) && Coded(flat, Page(va), done, Page(pa), perm)
    {
      hide MappedTo, Inv, AllHeld, LeadsTo, Coded;
      ghost var v := V();
      ok, done := MapFrames(va / PGSIZE, (va + size - 1) / PGSIZE, pa / PGSIZE, perm);
      MappedLeads(v, V(), va / PGSIZE, done, pa / PGSIZE, perm);
      MappedCodes(v, V(), va / PGSIZE, done, pa / PGSIZE, perm);
      InPages(va, size);
    }

    /** mappages' loop, in pages and frames. */
    method MapFrames(first: nat, last: nat, f: nat, perm: nat) returns (ok: bool, ghost done: nat)
      requires Inv(V()) && first <= last < PAGES && f + (last - first) < PAGES && perm < PGSIZE
      requires forall p :: first <= p <= last ==> p !in flat
      requires AllHeld(role, first, last - first + 1, f)
      modifies `mem, `freelist, `free, `role, `tables, `flat
      ensures Inv(V()) && done <= last - first + 1 && (ok <==> done == last - first + 1)
      ensures MappedTo(old(V()), V(), first, done, f, perm)
      ensures !ok ==> free == [] && Pdx(first + done) !in tables
    {
      hide Preserves, HeldKept, HeldFrames, Inv, MappedTo, AllHeld, Pdx, Entry, Sized;
      ghost var v := V();
      InvShape(v);
      MappedNone(v, first, f, perm);
      done := 0;
      var a, b := first, f;
      while true
        invariant first <= a <= last && done == a - first && b == f + done
        invariant Inv(V()) && MappedTo(v, V(), first, done, f, perm)
        decreases last - a
      {
        ghost var u := V();
        ReadyToMap(v, u, first, last - first + 1, f, perm, done);
        ok := MapPage(a, b, perm);
        if !ok {
          return;
        }
        MapStep(v, u, V(), first, done, f, perm);
        done := done + 1;
        if a == last {
          break;
        }
        a, b := a + 1, b + 1;
      }
    }

    /** The body of deallocuvm's loop for a page with a table. */
    method DropPage(p: nat, t: nat, ghost v: Vm, ghost lo: nat)
      requires Inv(V()) && p < USER_PAGES && Pdx(p) in tables && tables[Pdx(p)] == t < FRAMES
      requires lo <= p && Shrunk(v, V(), lo, p)
      modifies `mem, `freelist, `free, `role, `flat
      ensures Inv(V()) && Shrunk(v, V(), lo, p + 1)
    {
      ghost var u := V();
      InvShape(u);
      UserFrames(u);
      assert PageEntry(u, p);
      if Present(mem[t][Ptx(p)]) {
        ShrunkStep(v, u, lo, p) by { hide Inv, Shrunk; }
        hide Shrunk;
        Unmap(p, t);
      } else {
        hide Inv;
        ShrunkSkip(v, u, lo, p);
      }
    }

    method Unmap(p: nat, t: nat)
      requires Inv(V()) && p in flat && p < USER_PAGES && Pdx(p) in tables && tables[Pdx(p)] == t < FRAMES
      modifies `mem, `freelist, `free, `role, `flat
      ensures Inv(V()) && V() == WithoutPage(old(V()), p)
    {
      ghost var v := V();
      InvShape(v);
      UserFrames(v);
      assert PageEntry(v, p);
      WithoutPageInv(v, p);
      hide Inv, FreeRoles, Listed;
      Kfree(Target(mem[t][Ptx(p)]));
      mem := Store(mem, t, Ptx(p), 0);
      flat := flat - {p};
    }

    /** vm.c:250-273. The mapped user pages must be contiguous: then stepping 4 MB past a
        missing table, from wherever in the table's range a is, skips no mapped page. */
    method Deallocuvm(oldsz: uint, newsz: uint, ghost top: nat) returns (r: uint)
      requires Inv(V()) && oldsz <= KERNBASE && Contiguous(flat, top)
      modifies `mem, `freelist, `free, `role, `flat, `tables
      ensures Inv(V())
      ensures newsz >= oldsz ==> r == oldsz && V() == old(V())
      ensures newsz < oldsz ==> r == newsz && Shrunk(old(V()), V(), RoundUp(newsz), RoundUp(oldsz))
      ensures newsz < oldsz ==> AllFault(mem, dir, RoundUp(newsz), RoundUp(oldsz))
    {
      hide Inv, Shrunk, Contiguous, RoundUp, AllFault;
      if newsz >= oldsz {
        return oldsz;
      }
      ghost var v, lo, hi := V(), RoundUp(newsz), RoundUp(oldsz);
      ShrunkFirst(v, lo);
      RoundUps(newsz, oldsz);
      var p := RoundUp(newsz);   // the address a, in pages
      while p * PGSIZE < oldsz
        invariant lo <= p < hi + ENTRIES
        invariant Inv(V()) && Shrunk(v, V(), lo, if p < hi then p else hi)
      {
        PageBelow(p, oldsz);
        p := DropNext(p, v, lo, hi, top);
      }
      PageBelow(p, oldsz);
      r := newsz;
      ShrunkFaults(v, V(), lo, hi);
    }

    /** One round of deallocuvm's loop. */
    method DropNext(p: nat, ghost v: Vm, ghost lo: nat, ghost hi: nat, ghost top: nat) returns (next: nat)
      requires Inv(V()) && lo <= p < hi <= USER_PAGES && Shrunk(v, V(), lo, p) && Contiguous(v.flat, top)
      modifies `mem, `freelist, `free, `role, `flat, `tables
      ensures Inv(V()) && p < next <= p + ENTRIES && Shrunk(v, V(), lo, if next < hi then next else hi)
    {
      hide Inv, Shrunk, Contiguous, Pdx, Walked, Sized;
      ghost var u := V();
      var t := Walkpgdir(p, false);
      if t == 0 {
        SkipIsSafe(v, u, lo, hi, p, top);
        next := p + ENTRIES;
      } else {
        DropPage(p, t, v, lo);
        next := p + 1;
      }
    }

    /** memset of a frame that was just allocated. */
    method ZeroFrame(ghost u: Vm, ghost p: nat, f: nat)
      requires Inv(u) && u.free != [] && f == u.free[0] && V() == Popped(u)
      modifies `mem
      ensures Inv(V()) && Handing(u, V(), f) && AllHeld(role, p, 1, f)
      ensures V() == old(V()).(mem := mem)
    {
      PoppedInv(u);
      HeldInv(V(), f, Filled(0));
      InvShape(u);
      hide Inv, Pool;
      mem := mem[f := Filled(0)];
      Handed(u, V(), f) by { hide Sized; }
      hide Handing;
    }

    /** mappages as allocuvm calls it: one page, PTE_W|PTE_U. */
    method MapUserPage(p: nat, f: nat) returns (ok: bool)
      requires Inv(V()) && p < USER_PAGES && p !in flat && f < FRAMES && AllHeld(role, p, 1, f)
      modifies `mem, `freelist, `free, `role, `tables, `flat
      ensures Inv(V()) && MappedTo(old(V()), V(), p, if ok then 1 else 0, f, 6)
      ensures !ok ==> free == [] && Pdx(p) !in tables
    {
      hide Inv, MappedTo, AllHeld, Pdx;
      assert PageCount(p * PGSIZE, PGSIZE) == 1 && p * PGSIZE / PGSIZE == p && f * PGSIZE / PGSIZE == f;
      ghost var done;
      ok, done := Mappages(p * PGSIZE, PGSIZE, f * PGSIZE, 6);
    }

    /** The body of allocuvm's loop: a zeroed frame for page p. The frame is lost, still
        held, when mapping it needs a page table and there is no frame for that. */
    method GrowPage(p: nat, ghost v: Vm, ghost lo: nat) returns (f: nat, ghost ok: bool)
      requires Inv(V()) && lo <= p < USER_PAGES
      requires free != [] ==> p !in flat && Grown(v, V(), lo, p, {})
      modifies `mem, `freelist, `free, `role, `tables, `flat
      ensures Inv(V())
      ensures f == 0 <==> old(free) == []
      ensures f == 0 ==> V() == old(V())
      ensures f != 0 ==> (ok <==> Pdx(p) in old(tables) || |old(free)| > 1)
      ensures f != 0 && ok ==> Grown(v, V(), lo, p + 1, {})
      ensures f != 0 && !ok ==> free == [] && f !in HeldFrames(v.role) && Grown(v, V(), lo, p, {f})
    {
      ghost var u := V();
      hide Grown, HeldFrames, MappedTo, Inv;
      ok := true;
      assert Pool(V()) by { InvShape(V()); }
      hide Pool;
      f := Kalloc();
      if f != 0 {
        ZeroFrame(u, p, f);
        ghost var x := V();
        hide AllHeld, Handing, OnePage, Sized, Pdx;
        ok := MapUserPage(p, f);
        if ok {
          MappedOne(u, x, V(), p, f);
          WhyMapped(u, V(), p, f);
          GrownStep(v, u, V(), lo, p, f);
        } else {
          WhyLost(u, x, V(), p, f);
          GrownLost(v, u, x, V(), lo, p, f);
        }
      }
    }

    /** vm.c:221-243. Success, with every page mapped, is having Needs frames. Short of
        them every user frame is given back, except that a frame is lost when the list
        runs out exactly where a page table is needed: the failure of mappages is ignored. */
    method Allocuvm(oldsz: uint, newsz: uint) returns (r: uint)
      requires Inv(V()) && oldsz <= KERNBASE && Contiguous(flat, RoundUp(oldsz))
      modifies `mem, `freelist, `free, `role, `tables, `flat
      ensures Inv(V())
      ensures newsz >= KERNBASE ==> r == 0 && V() == old(V())
      ensures newsz < oldsz && newsz < KERNBASE ==> r == oldsz && V() == old(V())
      ensures oldsz <= newsz < KERNBASE ==>
                && (r == newsz || r == 0)
                && Outcome(old(V()), V(), RoundUp(oldsz), RoundUp(newsz), r == newsz)
      ensures oldsz <= newsz < KERNBASE && r == newsz ==>
                var lo, hi := RoundUp(oldsz), RoundUp(newsz);
                if lo < hi && StuckAt(old(V()), lo, hi - 1 - lo)
                then AllZeros(mem, dir, lo, hi - 1) && AllFault(mem, dir, hi - 1, hi)
                else AllZeros(mem, dir, lo, hi)
    {
      hide Inv, Grown, Contiguous, HeldFrames, Progress, Outcome, Shrunk, Pdx, AllZeros, AllFault, StuckAt;
      if newsz >= KERNBASE {
        return 0;
      }
      if newsz < oldsz {
        return oldsz;
      }
      ghost var v, lo, hi := V(), RoundUp(oldsz), RoundUp(newsz);
      ProgressStart(v, lo);
      var p := RoundUp(oldsz);
      assert lo <= hi <= USER_PAGES;
      ghost var lost: set<nat> := {};
      while p * PGSIZE < newsz
        invariant lo <= p <= hi && Inv(V()) && Progress(v, V(), lo, p, lost)
      {
        ghost var u := V();
        ProgressNext(v, u, lo, p, lost);
        var f; ghost var ok;
        f, ok := GrowPage(p, v, lo);
        if f == 0 {
          r := Deallocuvm(newsz, oldsz, Top(p, lost));
          ProgressStopped(v, u, V(), lo, hi, p, lost);
          return 0;
        }
        if ok {
          ProgressGrew(v, u, V(), lo, p);
        } else {
          ProgressLost(v, u, V(), lo, p, f);
          lost := {f};
        }
        p := p + 1;
      }
      r := newsz;
      ProgressDone(v, V(), lo, hi, lost);
      NotYetMapped(v, lo, hi);
      OutcomeZeros(v, V(), lo, hi);
    }

    /** vm.c:278-292. Every frame of the address space goes back, once, and the free list
        then holds all the frames there are but those in other hands. */
    method Freevm(ghost top: nat)
      requires Inv(V()) && Contiguous(flat, top)
      modifies `mem, `freelist, `free, `role, `tables, `flat
      ensures Pool(V()) && role.Keys == old(role.Keys) && HeldFrames(role) == HeldFrames(old(role))
      ensures forall f :: f in role ==> f in free || f in HeldFrames(role)
      ensures forall i, j :: 0 <= i < j < |free| ==> free[i] != free[j]
      ensures forall f :: 0 <= f < FRAMES && f !in old(role) && Sized(old(mem)) ==> mem[f] == old(mem[f])
    {
      hide Inv, Contiguous, Shrunk, Dismantled, Pool, HeldFrames;
      ghost var v := V();
      var sz := Deallocuvm(KERNBASE, 0, top);
      EmptiedDismantles(v, V(), RoundUp(0), RoundUp(KERNBASE));
      var i := 0;
      while i < ENTRIES
        invariant 0 <= i <= ENTRIES && Dismantled(v, V(), i)
      {
        ghost var u := V();
        NextTable(v, u, i);
        if Present(mem[dir][i]) {
          TableFreed(v, u, i);
          Kfree(Target(mem[dir][i]));
          tables := tables - {i};
        }
        i := i + 1;
      }
      DirectoryFreed(v, V());
      Kfree(dir);
    }
  }

  /** Comparing addresses is comparing pages. */
  lemma PageBelow(p: nat, sz: nat)
    ensures p * PGSIZE < sz <==> p < RoundUp(sz)
  {
  }

  /** An address belongs to one of the pages its range touches. */
  lemma InPages(va: nat, size: nat)
    requires size > 0
    ensures forall a :: va <= a < va + size ==> Page(va) <= Page(a) < Page(va) + PageCount(va, size)
  {
  }

  lemma EntryLow(frame: nat, perm: nat)
    requires frame < PAGES && perm < PGSIZE
    ensures Entry(frame, perm) / 4096 == frame && Entry(frame, perm) % 4096 == perm / 2 * 2 + 1
  {
  }

  /** The entries as words: the frame above, the rights and the present bit below. */
  ghost predicate Coded(flat: map<nat, uint>, p: nat, k: nat, f: nat, perm: nat) {
    forall q: nat :: p <= q < p + k ==>
      q in flat && flat[q] / 4096 == f + (q - p) && flat[q] % 4096 == perm / 2 * 2 + 1
  }

  lemma MappedCodes(v: Vm, w: Vm, p: nat, k: nat, f: nat, perm: nat)
    requires perm < PGSIZE && f + k <= PAGES && MappedTo(v, w, p, k, f, perm)
    ensures Coded(w.flat, p, k, f, perm)
  {
    hide MappedTo, Entry;
    forall q: nat | p <= q < p + k
      ensures q in w.flat && w.flat[q] / 4096 == f + (q - p) && w.flat[q] % 4096 == perm / 2 * 2 + 1
    {
      MappedEntry(v, w, p, k, f, perm, q);
      EntryLow(f + (q - p), perm);
    }
  }

  lemma NotYetMapped(v: Vm, lo: nat, hi: nat)
    requires Contiguous(v.flat, lo) && hi <= USER_PAGES
    ensures forall q :: lo <= q < hi ==> q !in v.flat
  {
  }

  /** The directory's entry for page p leads to frame t, for writing and for the user. */
  ghost predicate TableAt(mem: Memory, dir: nat, p: nat, t: nat)
    requires Sized(mem) && dir < FRAMES && p < PAGES
  {
    var w := mem[dir][p / 1024]; w / 4096 == t && w % 2 == 1 && Writable(w) && ForUser(w)
  }

  ghost predicate NewTable(mem: Memory, dir: nat, p: nat, t: nat)
    requires Sized(mem) && dir < FRAMES && p < PAGES && t < FRAMES
  {
    mem[dir][p / 1024] == t * 4096 + 7 && forall j :: 0 <= j < 1024 ==> mem[t][j] == 0
  }

  lemma FoundTable(v: Vm, p: nat)
    requires Inv(v) && p < PAGES && Pdx(p) in v.tables
    ensures Sized(v.mem) && v.dir < FRAMES && TableAt(v.mem, v.dir, p, v.tables[Pdx(p)])
  {
    InvShape(v);
    assert DirEntry(v, Pdx(p));
    hide Inv;
  }

  lemma MadeTable(v: Vm, p: nat)
    requires Inv(v) && p < PAGES && |v.free| > 0 && Pdx(p) !in v.tables
    ensures Sized(v.mem) && 0 < v.dir < FRAMES && 0 < v.free[0] < FRAMES && Sized(Walked(v, p).mem)
    ensures TableAt(Walked(v, p).mem, v.dir, p, v.free[0]) && NewTable(Walked(v, p).mem, v.dir, p, v.free[0])
  {
    WalkedInv(v, p);
    FoundTable(Walked(v, p), p);
    InvShape(v);
    MadeTableWords(v, p) by { hide Inv; }
    hide Inv, TableAt, NewTable;
  }

  lemma MadeTableWords(v: Vm, p: nat)
    requires Sized(v.mem) && v.dir < FRAMES && p < PAGES && |v.free| > 0 && v.free[0] < FRAMES && v.free[0] != v.dir
    ensures Sized(Walked(v, p).mem) && NewTable(Walked(v, p).mem, v.dir, p, v.free[0])
  {
    hide Entry;
    assert Entry(v.free[0], 7) == v.free[0] * 4096 + 7 by { EntryLow(v.free[0], 7); }
  }

  lemma RoundUps(a: nat, b: nat)
    requires a <= b <= KERNBASE
    ensures RoundUp(a) <= RoundUp(b) <= USER_PAGES
  {
  }

  lemma ShrunkFirst(v: Vm, lo: nat)
    requires Inv(v)
    ensures Shrunk(v, v, lo, lo)
  {
    InvShape(v);
    ShrunkNone(v, lo);
  }

  /** One free frame and no page table: allocuvm of one page reports success, maps nothing and
      loses the frame. */
  method LostFrame(m: Memory) returns (r: uint, ghost v: Vm, ghost w: Vm)
    requires Sized(m)
    ensures |v.free| == 1 && StuckAt(v, 0, 0) && HeldFrames(v.role) == {}
    ensures r == PGSIZE && 0 !in w.flat && |w.free| == 0 && |HeldFrames(w.role)| == 1
  {
    hide Inv, HeldFrames, Outcome, Contiguous, StuckAt, Range;
    var a := new AddressSpace(m, 1, 3);
    v := a.V();
    OneFrame(v);
    NoPages(v);
    assert RoundUp(0) == 0 && RoundUp(PGSIZE) == 1;
    r := a.Allocuvm(0, PGSIZE);
    w := a.V();
    StuckOnFirst(v, w, r == PGSIZE);
  }

  lemma StuckOnFirst(v: Vm, w: Vm, success: bool)
    requires v.tables == map[] && v.flat == map[] && |v.free| == 1 && HeldFrames(v.role) == {}
    requires Outcome(v, w, 0, 1, success) && StuckAt(v, 0, 0)
    ensures success && 0 !in w.flat && |w.free| == 0 && |HeldFrames(w.role)| == 1
  {
    hide Grown, GaveBack, HeldFrames, StuckAt;
    var lost :| FreshFrame(v, lost) && success && Grown(v, w, 0, 0, lost);
    OnlyFrameLost(v, w, lost);
  }

  lemma OneFrame(v: Vm)
    requires v.tables == map[] && |v.free| == 1
    ensures StuckAt(v, 0, 0)
  {
    assert v.tables.Keys + Span(0, 0) == {};
  }

  lemma NoPages(v: Vm)
    requires v.flat == map[]
    ensures Contiguous(v.flat, 0)
  {
  }

  lemma OnlyFrameLost(v: Vm, w: Vm, lost: set<nat>)
    requires v.tables == map[] && v.flat == map[] && |v.free| == 1 && HeldFrames(v.role) == {}
    requires FreshFrame(v, lost) && Grown(v, w, 0, 0, lost)
    ensures 0 !in w.flat && |w.free| == 0 && |HeldFrames(w.role)| == 1
  {
    assert v.tables.Keys + Span(0, 0) == {};
    assert HeldFrames(w.role) == lost;
  }
}
