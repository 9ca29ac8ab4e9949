/** What the processor makes of the page tables: two-level paging with 4 KB pages, as in
    section 4.3 of volume 3 of the Intel manual. Present, writable and user are the three
    lowest bits of an entry, and an access needs the last two in both levels. */
module Mmu {
  import opened Blocks
  import opened Finite
  import opened PageTable
  import opened PageSteps

  /** The page an address is in. */
  function Page(a: nat): nat {
    a / 0x1000
  }

  datatype Access = Fault | Access(frame: nat, write: bool, user: bool)

  /** Where address a leads, and what a process may do there. */
  ghost function Translate(mem: Memory, dir: nat, a: uint): Access
    requires Sized(mem) && dir < FRAMES
  {
    var pde := mem[dir][a / 0x40_0000];
    if pde % 2 == 0 || pde / 0x1000 >= FRAMES then Fault
    else
      var pte := mem[pde / 0x1000][a / 0x1000 % 1024];
      if pte % 2 == 0 then Fault
      else Access(pte / 0x1000, Writable(pde) && Writable(pte), ForUser(pde) && ForUser(pte))
  }

  /** A process may read and write at a, and finds zeros there. */
  ghost predicate UserZeros(mem: Memory, dir: nat, a: uint)
    requires Sized(mem) && dir < FRAMES
  {
    var t := Translate(mem, dir, a);
    && t.Access? && t.write && t.user && t.frame < FRAMES
    && forall j :: 0 <= j < ENTRIES ==> mem[t.frame][j] == 0
  }

  /** The addresses in pages p .. p+k-1 lead to the frames from f on, in turn, with these rights. */
  ghost predicate LeadsTo(mem: Memory, dir: nat, p: nat, k: nat, f: nat, perm: nat) {
    && Sized(mem) && dir < FRAMES
    && forall a: uint :: p <= Page(a) < p + k ==>
         Translate(mem, dir, a) == Access(f + (Page(a) - p), Writable(perm), ForUser(perm))
  }

  /** A process may use every address in pages lo .. hi-1, and finds zeros there. */
  ghost predicate AllZeros(mem: Memory, dir: nat, lo: nat, hi: nat) {
    Sized(mem) && dir < FRAMES && forall a: uint :: lo <= Page(a) < hi ==> UserZeros(mem, dir, a)
  }

  /** No address in pages lo .. hi-1 is mapped. */
  ghost predicate AllFault(mem: Memory, dir: nat, lo: nat, hi: nat) {
    Sized(mem) && dir < FRAMES && forall a: uint :: lo <= Page(a) < hi ==> Translate(mem, dir, a).Fault?
  }

  lemma SplitAddress(a: uint)
    ensures a / 0x40_0000 == Pdx(Page(a)) && Page(a) < PAGES && a / 0x1000 % 1024 == Ptx(Page(a))
    ensures a < KERNBASE ==> Page(a) < USER_PAGES
  {
  }

  /** The processor sees exactly the page map. */
  lemma TranslateIs(v: Vm, a: uint)
    requires Inv(v)
    ensures Translate(v.mem, v.dir, a) ==
            if Page(a) in v.flat then
              var w := v.flat[Page(a)];
              Access(w / 0x1000, Writable(w), ForUser(w))
            else Fault
  {
    SplitAddress(a);
    var p := Page(a);
    TableBounds(v);
    assert DirEntry(v, Pdx(p)) && PageEntry(v, p);
  }

  /** No two user pages share a frame, and none is in a directory, a page table or the free list. */
  lemma NoAliasing(v: Vm, a: uint, b: uint)
    requires Inv(v) && a < KERNBASE && b < KERNBASE
    requires Translate(v.mem, v.dir, a).Access? && Translate(v.mem, v.dir, b).Access?
    ensures var f := Translate(v.mem, v.dir, a).frame;
      && (f == Translate(v.mem, v.dir, b).frame <==> Page(a) == Page(b))
      && f != v.dir && f !in v.tables.Values && f !in v.free
  {
    TranslateIs(v, a);
    TranslateIs(v, b);
    SplitAddress(a);
    SplitAddress(b);
    InvShape(v);
    UserFrames(v);
    hide DirOk, FlatOk, Translate, Listed, Page;
    assert Is(v.role, Target(v.flat[Page(a)]), User(Page(a)));
    assert Is(v.role, Target(v.flat[Page(b)]), User(Page(b)));
    forall i | 0 <= i < |v.free| ensures v.free[i] != Target(v.flat[Page(a)]) {
      assert Is(v.role, v.free[i], Free(|v.free| - 1 - i));
    }
  }

  /** What mappages made: the pages lead to the frames in turn, with the rights asked for. */
  lemma MappedAddress(v: Vm, w: Vm, p: nat, k: nat, f: nat, perm: nat, a: uint)
    requires f + k <= PAGES && perm < PGSIZE && MappedTo(v, w, p, k, f, perm) && Inv(w)
    requires p <= Page(a) < p + k
    ensures Translate(w.mem, w.dir, a) == Access(f + (Page(a) - p), Writable(perm), ForUser(perm))
  {
    hide Inv, MappedTo, Translate, Entry, Writable, ForUser, Sized, Page;
    TranslateIs(w, a);
    MappedEntry(v, w, p, k, f, perm, Page(a));
    EntryRights(f + (Page(a) - p), perm);
  }

  lemma MappedEntry(v: Vm, w: Vm, p: nat, k: nat, f: nat, perm: nat, q: nat)
    requires f + k <= PAGES && perm < PGSIZE && MappedTo(v, w, p, k, f, perm) && p <= q < p + k
    ensures q in w.flat && w.flat[q] == Entry(f + (q - p), perm)
  {
    hide Preserves, HeldKept, HeldFrames, Entry, Sized;
  }

  lemma EntryRights(frame: nat, perm: nat)
    requires frame < PAGES && perm < PGSIZE
    ensures var w := Entry(frame, perm);
      && w / 0x1000 == frame && (Writable(w) <==> Writable(perm)) && (ForUser(w) <==> ForUser(perm))
  {
    hide Entry, Writable, ForUser;
    var w := Entry(frame, perm);
    LowBits(frame, perm / 2 * 2 + 1);
    OddBits(perm);
  }

  /** The frame number does not reach into the low bits. */
  lemma LowBits(frame: nat, low: nat)
    requires low < PGSIZE
    ensures var w := frame * PGSIZE + low; (Writable(w) <==> Writable(low)) && (ForUser(w) <==> ForUser(low))
  {
    var w := frame * PGSIZE + low;
    assert w / 2 == frame * 0x800 + low / 2;
    assert w / 4 == frame * 0x400 + low / 4;
  }

  lemma OddBits(perm: nat)
    ensures Writable(perm / 2 * 2 + 1) <==> Writable(perm)
    ensures ForUser(perm / 2 * 2 + 1) <==> ForUser(perm)
  {
    assert (perm / 2 * 2 + 1) / 2 == perm / 2 && (perm / 2 * 2 + 1) / 4 == perm / 4;
  }

  lemma SixIsBoth()
    ensures Writable(6) && ForUser(6)
  {
  }

  lemma MappedLeads(v: Vm, w: Vm, p: nat, k: nat, f: nat, perm: nat)
    requires f + k <= PAGES && perm < PGSIZE && MappedTo(v, w, p, k, f, perm) && Inv(w)
    ensures LeadsTo(w.mem, w.dir, p, k, f, perm)
  {
    InvShape(w);
    hide Inv, MappedTo, Translate, Writable, ForUser, Sized, Page;
    forall a: uint | p <= Page(a) < p + k
      ensures Translate(w.mem, w.dir, a) == Access(f + (Page(a) - p), Writable(perm), ForUser(perm))
    {
      MappedAddress(v, w, p, k, f, perm, a);
    }
  }

  /** Pages that were added and zeroed. */
  lemma GrownZeros(v: Vm, w: Vm, lo: nat, hi: nat, lost: set<nat>)
    requires lo <= hi && Grown(v, w, lo, hi, lost) && Inv(w)
    ensures AllZeros(w.mem, w.dir, lo, hi)
  {
    InvShape(w);
    hide Inv, Grown, UserZeros, Sized, Page;
    forall a: uint | lo <= Page(a) < hi ensures UserZeros(w.mem, w.dir, a) {
      GrownAddress(v, w, lo, hi, lost, a);
    }
  }

  lemma GrownAddress(v: Vm, w: Vm, lo: nat, hi: nat, lost: set<nat>, a: uint)
    requires lo <= hi && Grown(v, w, lo, hi, lost) && Inv(w) && Sized(w.mem) && w.dir < FRAMES && lo <= Page(a) < hi
    ensures UserZeros(w.mem, w.dir, a)
  {
    hide Inv, Grown, Translate, Entry, Writable, ForUser, Page, Sized;
    TranslateIs(w, a);
    GrownEntry(v, w, lo, hi, lost, Page(a));
    EntryRights(Target(w.flat[Page(a)]), 6);
    SixIsBoth();
  }

  lemma GrownEntry(v: Vm, w: Vm, lo: nat, hi: nat, lost: set<nat>, q: nat)
    requires lo <= hi && Grown(v, w, lo, hi, lost) && Sized(w.mem) && lo <= q < hi
    ensures q in w.flat && var f := Target(w.flat[q]);
      f < FRAMES && w.flat[q] == Entry(f, 6) && forall j :: 0 <= j < ENTRIES ==> w.mem[f][j] == 0
  {
    hide Preserves, HeldFrames, Accounted, Entry, Target, Sized;
  }

  /** A mapped user address that stays mapped leads where it did, to the same bytes. */
  lemma KeptAddress(v: Vm, w: Vm, a: uint)
    requires Inv(v) && Inv(w) && Preserves(v, w) && a < KERNBASE
    requires Translate(v.mem, v.dir, a).Access? && Translate(w.mem, w.dir, a).Access?
    ensures Translate(w.mem, w.dir, a) == Translate(v.mem, v.dir, a)
    ensures var f := Translate(v.mem, v.dir, a).frame; f < FRAMES && w.mem[f] == v.mem[f]
  {
    TranslateIs(v, a);
    TranslateIs(w, a);
    SplitAddress(a);
    UserFrames(v);
    hide Inv, Translate, Page;
  }

  /** allocuvm that reports success: a process may use every new page, and finds zeros in it,
      except for the last one if the frame for its page table was missing. */
  lemma OutcomeZeros(v: Vm, w: Vm, lo: nat, hi: nat)
    requires lo <= hi && Outcome(v, w, lo, hi, true) && Inv(w)
    requires forall q :: lo <= q < hi ==> q !in v.flat
    ensures lo < hi && StuckAt(v, lo, hi - 1 - lo) ==>
              AllZeros(w.mem, w.dir, lo, hi - 1) && AllFault(w.mem, w.dir, hi - 1, hi)
    ensures !(lo < hi && StuckAt(v, lo, hi - 1 - lo)) ==> AllZeros(w.mem, w.dir, lo, hi)
  {
    hide Inv, Grown, GaveBack, StuckAt, FreshFrame, AllZeros, AllFault;
    if NoneStuck(v, lo, hi - lo) {
      GrownZeros(v, w, lo, hi, {});
    } else {
      var k: nat :| k < hi - lo && StuckAt(v, lo, k);
      assert k == hi - lo - 1;
      var lost :| FreshFrame(v, lost) && Grown(v, w, lo, hi - 1, lost);
      GrownZeros(v, w, lo, hi - 1, lost);
      LastFaults(v, w, lo, hi - 1, lost);
    }
  }

  lemma LastFaults(v: Vm, w: Vm, lo: nat, hi: nat, lost: set<nat>)
    requires lo <= hi && Grown(v, w, lo, hi, lost) && Inv(w) && hi !in v.flat
    ensures AllFault(w.mem, w.dir, hi, hi + 1)
  {
    hide Inv, Grown, AllFault;
    NotAdded(v, w, lo, hi, lost);
    UnmappedFault(w, hi, hi + 1);
  }

  lemma NotAdded(v: Vm, w: Vm, lo: nat, hi: nat, lost: set<nat>)
    requires lo <= hi && Grown(v, w, lo, hi, lost) && hi !in v.flat
    ensures hi !in w.flat
  {
    hide Preserves, HeldFrames, Accounted, Zeroed, Sized;
  }

  lemma UnmappedFault(w: Vm, lo: nat, hi: nat)
    requires Inv(w) && forall q :: lo <= q < hi ==> q !in w.flat
    ensures AllFault(w.mem, w.dir, lo, hi)
  {
    InvShape(w);
    hide Inv, Translate, Page, Sized;
    forall a: uint | lo <= Page(a) < hi ensures Translate(w.mem, w.dir, a).Fault? {
      TranslateIs(w, a);
    }
  }

  /** deallocuvm: the pages that were dropped fault. */
  lemma ShrunkFaults(v: Vm, w: Vm, lo: nat, hi: nat)
    requires Shrunk(v, w, lo, hi) && Inv(w)
    ensures AllFault(w.mem, w.dir, lo, hi)
  {
    hide Inv, Shrunk, AllFault;
    Dropped(v, w, lo, hi);
    UnmappedFault(w, lo, hi);
  }

  lemma Dropped(v: Vm, w: Vm, lo: nat, hi: nat)
    requires Shrunk(v, w, lo, hi)
    ensures forall q :: lo <= q < hi ==> q !in w.flat
  {
    hide Preserves, HeldFrames, Sized;
  }
}
