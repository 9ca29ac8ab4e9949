/** bio.c and log.c as code over the kernel's own state: the device, the buffer
    cache with its LRU ring, and struct log. Every sector write is recorded in
    `trace`, so a contract can speak about a power cut after any of them. */
module Storage {
  import opened Blocks
  import opened LogDisk
  import opened LogMachine
  import opened LruList
  import opened Finite

  /** What a pass through bget ends with: a buffer now held by the caller, a
      buffer to sleep on, or the panic "bget: no buffers". */
  datatype Got = Locked(b: nat) | WouldSleep(b: nat) | NoBuffers

  ghost predicate IsCached(bufs: seq<Buf>, s: nat) {
    exists i :: 0 <= i < |bufs| && bufs[i].cached && bufs[i].sector == s
  }

  predicate Evictable(b: Buf) {
    b.who == Nobody && !b.dirty
  }

  /** bget finds a buffer to recycle. */
  ghost predicate HasRoom(bufs: seq<Buf>) {
    exists i :: 0 <= i < |bufs| && Evictable(bufs[i])
  }

  /** bget's net effect on the buffers when it returns b. */
  ghost predicate BgetEffect(before: seq<Buf>, after: seq<Buf>, b: nat, s: nat, who: Holder) {
    && b < |before| && before[b].who == Nobody
    && (if IsCached(before, s)
        then before[b].cached && before[b].sector == s && after == before[b := before[b].(who := who)]
        else !before[b].dirty && after == before[b := Buf(true, s, who, false, false, false, before[b].data)])
  }

  /** bread's net effect: as bget, and the buffer is read in if it was not valid. */
  ghost predicate BreadEffect(before: seq<Buf>, after: seq<Buf>, d: Disk, b: nat, s: nat, who: Holder)
    requires s < |d|
  {
    && b < |before| && before[b].who == Nobody
    && (if IsCached(before, s)
        then before[b].cached && before[b].sector == s
             && after == before[b := before[b].(who := who, valid := true,
                                                data := if before[b].valid then before[b].data else d[s])]
        else !before[b].dirty && after == before[b := Buf(true, s, who, true, false, false, d[s])])
  }

  /** bread is a hit or a recycle, followed by a read if needed. */
  lemma BreadInv(g: Geometry, sys: Sys, bufs': seq<Buf>, b: nat, s: nat, who: Holder)
    requires Inv(g, sys) && s < |sys.disk| && MayTouch(g, sys, s, who)
    requires BreadEffect(sys.bufs, bufs', sys.disk, b, s, who)
    ensures Inv(g, sys.(bufs := bufs')) && StoreOf(g, sys.(bufs := bufs')) == StoreOf(g, sys)
    ensures Has(sys.(bufs := bufs'), b, who, s)
    ensures bufs'[b].dirty == (sys.bufs[b].dirty && IsCached(sys.bufs, s)) && !bufs'[b].unlogged
  {
    hide Image, DirtyIsPinned, Word;
    assert BufOk(g, sys.disk, sys.lh, sys.phase, sys.bufs[b]);
    var step := if IsCached(sys.bufs, s) then Hit(b, who) else Recycle(b, s, who);
    BufferStep(g, sys, step);
    var sys1 := Apply(g, sys, step);
    if !sys1.bufs[b].valid {
      BufferStep(g, sys1, ReadIn(b));
      assert Apply(g, sys1, ReadIn(b)) == sys.(bufs := bufs');
    } else {
      assert sys1 == sys.(bufs := bufs');
    }
  }

  /** log_write after its bread: the log block written, its buffer given back, the
      caller's buffer pinned. */
  lemma LogWriteNet(g: Geometry, sys: Sys, b: nat, l: nat, sys': Sys)
    requires Inv(g, sys) && Enabled(g, sys, LogWrite(b, l)) && b != l
    requires sys'.disk == sys.disk[sys.bufs[l].sector := sys.bufs[b].data]
    requires sys'.bufs == sys.bufs[l := sys.bufs[l].(data := sys.bufs[b].data, valid := true, dirty := false, who := Nobody)]
                                  [b := sys.bufs[b].(dirty := true, unlogged := false)]
    requires sys'.lh == Logged(sys.lh, sys.bufs[b].sector) && sys'.phase == sys.phase
    ensures Inv(g, sys')
    ensures StoreOf(g, sys') == Play(StoreOf(g, sys), Wrote(sys.bufs[b].sector, sys.bufs[b].data))
  {
    LogWriteStep(g, sys, b, l);
    var sys2 := Apply(g, sys, LogWrite(b, l));
    assert BufOk(g, sys.disk, sys.lh, sys.phase, sys.bufs[l]);
    BufferStep(g, sys2, Release(l));
    assert sys' == Apply(g, sys2, Release(l));
  }

  /** write_head with a non-empty log.lh, after its bread. */
  lemma CommitNet(g: Geometry, sys: Sys, h: nat, sys': Sys)
    requires Inv(g, sys) && Enabled(g, sys, WriteHead(h))
    requires var data := HeaderOf(sys.bufs[h].data, sys.lh);
      sys' == Sys(sys.disk[g.start := data], sys.bufs[h := sys.bufs[h].(data := data, who := Nobody)],
                  sys.lh, Installing(0, false))
    ensures Inv(g, sys') && StoreOf(g, sys') == Play(StoreOf(g, sys), Committed)
  {
    hide Image, DirtyIsPinned, Unique, StoreOf;
    WriteHeadStep(g, sys, h);
    HeaderClean(g, sys, h);
    var sys2 := Apply(g, sys, WriteHead(h));
    BufferStep(g, sys2, Release(h));
    assert sys' == Apply(g, sys2, Release(h));
  }

  /** write_head with log.lh.n = 0 after everything is installed. */
  lemma ClearNet(g: Geometry, sys: Sys, h: nat, sys': Sys)
    requires Inv(g, sys) && Enabled(g, sys, ClearHead(h))
    requires var data := HeaderOf(sys.bufs[h].data, []);
      sys' == Sys(sys.disk[g.start := data], sys.bufs[h := sys.bufs[h].(data := data, who := Nobody)],
                  [], Closing)
    ensures Inv(g, sys') && StoreOf(g, sys') == StoreOf(g, sys)
  {
    hide Image, DirtyIsPinned, Unique, StoreOf;
    ClearHeadStep(g, sys, h);
    HeaderClean(g, sys, h);
    var sys2 := Apply(g, sys, ClearHead(h));
    BufferStep(g, sys2, Release(h));
    assert sys' == Apply(g, sys2, Release(h));
  }

  /** One round of install_trans, after its two breads. */
  lemma InstallNet(g: Geometry, sys: Sys, l: nat, b: nat, sys': Sys)
    requires Inv(g, sys) && Enabled(g, sys, InstallOne(l, b)) && l != b
    requires var data := sys.bufs[l].data;
      sys' == Sys(sys.disk[sys.bufs[b].sector := data],
                  sys.bufs[b := sys.bufs[b].(data := data, valid := true, dirty := false, who := Nobody)]
                          [l := sys.bufs[l].(who := Nobody)],
                  sys.lh, Installing(sys.phase.k + 1, sys.phase.recovering))
    ensures Inv(g, sys') && StoreOf(g, sys') == StoreOf(g, sys)
  {
    hide Image, DirtyIsPinned, Unique, StoreOf;
    assert BufOk(g, sys.disk, sys.lh, sys.phase, sys.bufs[l]);
    assert BufOk(g, sys.disk, sys.lh, sys.phase, sys.bufs[b]);
    InstallStep(g, sys, l, b);
    var sys2 := Apply(g, sys, InstallOne(l, b));
    BufferStep(g, sys2, Release(l));
    var sys3 := Apply(g, sys2, Release(l));
    BufferStep(g, sys3, Release(b));
    assert sys' == Apply(g, sys3, Release(b));
  }

  /** The next sector to install is in the cache, except in recovery. */
  lemma PinnedIsCached(g: Geometry, sys: Sys)
    requires Inv(g, sys) && sys.phase.Installing? && sys.phase.k < |sys.lh|
    ensures !sys.phase.recovering ==> IsCached(sys.bufs, sys.lh[sys.phase.k])
    ensures sys.phase.recovering ==> Pinned(sys) == []
  {
    if !sys.phase.recovering {
      var s := sys.lh[sys.phase.k..][0];
      assert DirtyIs(sys, s);
      var b :| 0 <= b < |sys.bufs| && sys.bufs[b].dirty && sys.bufs[b].sector == s;
      assert BufOk(g, sys.disk, sys.lh, sys.phase, sys.bufs[b]);
    }
  }

  /** read_head after its bread. */
  lemma ReadHeadNet(g: Geometry, sys: Sys, h: nat, sys': Sys)
    requires Inv(g, sys) && Enabled(g, sys, ReadHead(h))
    requires Word(sys.bufs[h].data, 0) <= LOGSIZE
    requires sys' == Sys(sys.disk, sys.bufs[h := sys.bufs[h].(who := Nobody)],
                         Sectors(sys.bufs[h].data), Installing(0, true))
    ensures Inv(g, sys') && StoreOf(g, sys') == StoreOf(g, sys)
  {
    hide Image, DirtyIsPinned, Unique, StoreOf;
    assert BufOk(g, sys.disk, sys.lh, sys.phase, sys.bufs[h]);
    ReadHeadStep(g, sys, h);
    var sys2 := Apply(g, sys, ReadHead(h));
    BufferStep(g, sys2, Release(h));
    assert sys' == Apply(g, sys2, Release(h));
  }

  lemma InvParts(g: Geometry, sys: Sys)
    requires Inv(g, sys)
    ensures LogOk(g, sys)
  {
  }

  /** log_write's absorption loop. */
  method SlotFor(lh: seq<nat>, s: nat) returns (i: nat)
    requires forall j, k :: 0 <= j < k < |lh| ==> lh[j] != lh[k]
    ensures i == Absorb(lh, s)
  {
    i := 0;
    while i < |lh| && lh[i] != s
      invariant 0 <= i <= |lh| && forall j :: 0 <= j < i ==> lh[j] != s
    {
      i := i + 1;
    }
  }

  /** A disk image that recovers to the given home area. */
  ghost predicate RecoversTo(g: Geometry, d: Disk, home: Disk) {
    WellFormed(g, d) && Home(g, Recover(g, d)) == home
  }

  lemma {:induction false} DirtyCount(sys: Sys, d: set<nat>, secs: set<nat>)
    requires Unique(sys)
    requires forall i :: i in d ==> i < |sys.bufs| && sys.bufs[i].cached && sys.bufs[i].sector in secs
    ensures |d| <= |secs|
  {
    if d != {} {
      var x :| x in d;
      DirtyCount(sys, d - {x}, secs - {sys.bufs[x].sector});
    }
  }

  ghost function Held(bufs: seq<Buf>): set<nat> {
    set i: nat | i < |bufs| && bufs[i].who != Nobody
  }

  /** A buffer taken and given back, another one kept by its holder. */
  lemma SameHolders(a: seq<Buf>, mid: seq<Buf>, a': seq<Buf>, l: nat, b: nat)
    requires l < |a| && b < |a| && l != b && a[l].who == Nobody && |mid| == |a| && mid == a[l := mid[l]]
    requires |a'| == |a| && a' == mid[l := a'[l]][b := a'[b]] && a'[l].who == Nobody && a'[b].who == mid[b].who
    ensures Held(a') == Held(a)
  {
  }

  lemma HomeKept(g: Geometry, d: Disk, s: nat, data: Block)
    requires g.start <= s < |d|
    ensures Home(g, d[s := data]) == Home(g, d)
  {
  }

  /** Buffers nobody holds carry no unlogged edits. */
  lemma NoneHeld(g: Geometry, sys: Sys)
    requires Inv(g, sys) && forall i :: 0 <= i < |sys.bufs| ==> sys.bufs[i].who == Nobody
    ensures Held(sys.bufs) == {} && |Pinned(sys)| <= |sys.lh|
    ensures forall i :: 0 <= i < |sys.bufs| ==> !sys.bufs[i].unlogged
  {
    assert forall i :: 0 <= i < |sys.bufs| ==> BufOk(g, sys.disk, sys.lh, sys.phase, sys.bufs[i]);
  }

  /** "bget: no buffers" cannot happen while the held buffers and the pinned
      sectors together are fewer than the buffers there are. */
  lemma RoomInCache(g: Geometry, sys: Sys)
    requires Inv(g, sys) && |Held(sys.bufs)| + |Pinned(sys)| < |sys.bufs|
    ensures HasRoom(sys.bufs)
  {
    var dirty := set i: nat | i < |sys.bufs| && sys.bufs[i].dirty;
    assert forall i :: 0 <= i < |sys.bufs| ==> BufOk(g, sys.disk, sys.lh, sys.phase, sys.bufs[i]);
    DirtyCount(sys, dirty, Elements(Pinned(sys)));
    if forall i :: 0 <= i < |sys.bufs| ==> !Evictable(sys.bufs[i]) {
      SubsetSize(Below(|sys.bufs|), Held(sys.bufs) + dirty);
    }
  }

  ghost function HeldBy(bufs: seq<Buf>, who: Holder): set<nat> {
    set i: nat | i < |bufs| && bufs[i].who == who
  }

  /** A transaction that works on at most the sectors t finds a buffer whenever it asks for
      one, as long as the other processes leave it one more than that. */
  lemma TransactionHasRoom(g: Geometry, sys: Sys, t: set<nat>)
    requires Inv(g, sys) && sys.phase.Active?
    requires forall i :: 0 <= i < |sys.bufs| && sys.bufs[i].who == Txn ==> sys.bufs[i].sector in t
    requires forall s :: s in sys.lh ==> s in t
    requires |t| + |HeldBy(sys.bufs, Reader)| < |sys.bufs|
    ensures HasRoom(sys.bufs)
  {
    var mine := set i: nat | i < |sys.bufs| && (sys.bufs[i].dirty || sys.bufs[i].who == Txn);
    assert forall i :: 0 <= i < |sys.bufs| ==> BufOk(g, sys.disk, sys.lh, sys.phase, sys.bufs[i]);
    DirtyCount(sys, mine, t);
    if !HasRoom(sys.bufs) {
      SubsetSize(Below(|sys.bufs|), HeldBy(sys.bufs, Reader) + mine);
    }
  }

  class BlockLayer {
    const g: Geometry
    var disk: Disk
    const buf: array<Buf>
    const lru: Lru
    var lh: seq<nat>
    var busy: bool
    /** The log the machine sees: log.lh, until the header on disk is cleared. */
    ghost var logged: seq<nat>
    ghost var phase: Phase
    ghost var trace: seq<Disk>

    ghost function Abs(): Sys
      reads this, buf
    {
      Sys(disk, buf[..], logged, phase)
    }

    /** Power-on: a device with some log on it and an empty cache (binit). */
    constructor (g: Geometry, disk: Disk)
      requires WellFormed(g, disk)
      ensures CacheValid() && fresh(buf) && fresh(lru) && fresh(lru.next) && fresh(lru.prev)
      ensures this.g == g && this.disk == disk && trace == [] && lh == logged == [] && !busy
      ensures PowerOn(g, Abs())
    {
      this.g, this.disk := g, disk;
      buf := new Buf[NBUF](_ => Buf(false, 0, Nobody, false, false, false, ZeroBlock()));
      lru := new Lru();
      lh, busy, logged, phase, trace := [], false, [], Boot, [];
    }

    ghost predicate CacheValid()
      reads this, buf, lru, lru.next, lru.prev
    {
      buf.Length == NBUF && lru.Valid()
    }

    /** One pass through bget. Hits are found anywhere in the ring; on a miss the
        least recently used buffer that is neither held nor dirty is recycled. */
    method Bget(s: nat, who: Holder) returns (r: Got)
      requires CacheValid() && who != Nobody
      modifies buf
      ensures match r
        case Locked(b) =>
          && BgetEffect(old(buf[..]), buf[..], b, s, who)
          && (!IsCached(old(buf[..]), s) ==>
                exists j :: 0 <= j < NBUF && lru.order[j] == b &&
                  forall k :: j < k < NBUF ==> !Evictable(old(buf[lru.order[k]])))
        case WouldSleep(b) =>
          && buf[..] == old(buf[..])
          && b < NBUF && buf[b].cached && buf[b].sector == s && buf[b].who != Nobody
        case NoBuffers =>
          && buf[..] == old(buf[..])
          && !IsCached(buf[..], s) && forall i :: 0 <= i < NBUF ==> !Evictable(buf[i])
    {
      ghost var before := buf[..];
      assert lru.next[At(lru.order, 0)] == At(lru.order, 1);
      var b := lru.next[HEAD];
      ghost var i := 0;
      while b != HEAD
        invariant 0 <= i <= NBUF && b == At(lru.order, i + 1)
        invariant forall k :: 0 <= k < i ==> !(buf[lru.order[k]].cached && buf[lru.order[k]].sector == s)
        decreases NBUF - i
      {
        if buf[b].cached && buf[b].sector == s {
          assert before[b].cached && before[b].sector == s;
          if buf[b].who == Nobody {
            buf[b] := buf[b].(who := who);
            return Locked(b);
          }
          return WouldSleep(b);
        }
        b := lru.next[b];
        i := i + 1;
      }
      forall c | 0 <= c < NBUF ensures !(before[c].cached && before[c].sector == s) {
        AllListed(lru.order, c);
      }
      assert lru.prev[At(lru.order, NBUF + 1)] == At(lru.order, NBUF);
      b := lru.prev[HEAD];
      i := NBUF;
      while b != HEAD
        invariant 0 <= i <= NBUF && b == At(lru.order, i)
        invariant forall k :: i <= k < NBUF ==> !Evictable(buf[lru.order[k]])
        decreases i
      {
        if buf[b].who == Nobody && !buf[b].dirty {
          assert lru.order[i - 1] == b;
          buf[b] := Buf(true, s, who, false, false, false, buf[b].data);
          return Locked(b);
        }
        assert lru.prev[At(lru.order, (i - 1) + 1)] == At(lru.order, i - 1);
        b := lru.prev[b];
        i := i - 1;
      }
      forall c | 0 <= c < NBUF ensures !Evictable(before[c]) {
        AllListed(lru.order, c);
      }
      return NoBuffers;
    }

    /** bread: bget, then a transfer from the device if the buffer is not valid. */
    method Bread(s: nat, who: Holder) returns (r: Got)
      requires CacheValid() && who != Nobody && s < |disk|
      modifies buf
      ensures match r
        case Locked(b) => BreadEffect(old(buf[..]), buf[..], disk, b, s, who)
        case WouldSleep(b) =>
          && buf[..] == old(buf[..])
          && b < NBUF && buf[b].cached && buf[b].sector == s && buf[b].who != Nobody
        case NoBuffers =>
          && buf[..] == old(buf[..])
          && !IsCached(buf[..], s) && forall i :: 0 <= i < NBUF ==> !Evictable(buf[i])
    {
      r := Bget(s, who);
      if r.Locked? && !buf[r.b].valid {
        buf[r.b] := buf[r.b].(data := disk[s], valid := true);
      }
    }

    /** bwrite: the one way a sector reaches the device. */
    method Bwrite(b: nat)
      requires CacheValid() && b < NBUF && buf[b].who != Nobody && buf[b].sector < |disk|
      modifies this`disk, this`trace, buf
      ensures disk == old(disk)[old(buf[b]).sector := old(buf[b]).data]
      ensures trace == old(trace) + [disk]
      ensures buf[..] == old(buf[..])[b := old(buf[b]).(valid := true, dirty := false)]
    {
      buf[b] := buf[b].(dirty := true);
      disk := disk[buf[b].sector := buf[b].data];
      buf[b] := buf[b].(valid := true, dirty := false);
      trace := trace + [disk];
    }

    /** brelse: give the buffer back and make it the most recently used. */
    method Brelse(b: nat)
      requires CacheValid() && b < NBUF && buf[b].who != Nobody
      modifies buf, lru, lru.next, lru.prev
      ensures CacheValid() && lru.order[0] == b
      ensures exists j :: 0 <= j < NBUF && old(lru.order)[j] == b && lru.order == [b] + Without(old(lru.order), j)
      ensures buf[..] == old(buf[..])[b := old(buf[b]).(who := Nobody)]
    {
      AllListed(lru.order, b);
      ghost var j :| 0 <= j < NBUF && lru.order[j] == b;
      lru.MoveToFront(b, j);
      buf[b] := buf[b].(who := Nobody);
    }

    // ---------- log.c ----------

    ghost predicate Valid()
      reads this, buf, lru, lru.next, lru.prev
    {
      CacheValid() && Inv(g, Abs()) && lh == logged
    }

    ghost predicate NotHeld(s: nat)
      requires buf.Length == NBUF
      reads this, buf
    {
      forall i :: 0 <= i < NBUF && buf[i].cached && buf[i].sector == s ==> buf[i].who == Nobody
    }

    /** bread as the log uses it: nobody holds the sector, so bget does not sleep,
        and there is room, so it does not panic. */
    method BreadFree(s: nat) returns (b: nat)
      requires CacheValid() && Inv(g, Abs()) && s < |disk| && MayTouch(g, Abs(), s, Txn) && NotHeld(s)
      requires IsCached(buf[..], s) || HasRoom(buf[..])
      modifies buf
      ensures CacheValid() && Inv(g, Abs()) && StoreOf(g, Abs()) == old(StoreOf(g, Abs()))
      ensures Has(Abs(), b, Txn, s) && old(buf[b]).who == Nobody && !buf[b].unlogged
      ensures buf[..] == old(buf[..])[b := buf[b]]
    {
      ghost var sys := Abs();
      var r := Bread(s, Txn);
      b := r.b;
      BreadInv(g, sys, buf[..], b, s, Txn);
    }

    /** Copy one buffer's data into another, write that one out and give it back. */
    method CopyOut(src: nat, dst: nat)
      requires CacheValid() && src < NBUF && dst < NBUF && src != dst
      requires buf[dst].who != Nobody && buf[dst].sector < |disk|
      modifies this`disk, this`trace, buf, lru, lru.next, lru.prev
      ensures CacheValid()
      ensures disk == old(disk)[old(buf[dst]).sector := old(buf[src]).data] && trace == old(trace) + [disk]
      ensures buf[..] == old(buf[..])[dst := old(buf[dst]).(data := old(buf[src]).data, valid := true,
                                                            dirty := false, who := Nobody)]
    {
      buf[dst] := buf[dst].(data := buf[src].data);
      Bwrite(dst);
      Brelse(dst);
    }

    /** log_write: copy the block to the log, absorbing repeated writes, and pin
        the buffer. The header is not touched, so a power cut forgets the write. */
    method LogWrite(b: nat)
      requires Valid() && phase.Active? && |lh| < 10 && |lh| < g.size - 1
      requires b < NBUF && 2 <= buf[b].sector < g.start && Has(Abs(), b, Txn, buf[b].sector)
      requires var s := g.start + 1 + Absorb(lh, buf[b].sector); NotHeld(s) && (IsCached(buf[..], s) || HasRoom(buf[..]))
      modifies this`disk, this`trace, this`lh, this`logged, buf, lru, lru.next, lru.prev
      ensures Valid()
      ensures StoreOf(g, Abs()) == Play(old(StoreOf(g, Abs())), Wrote(old(buf[b]).sector, old(buf[b]).data))
      ensures trace == old(trace) + [disk] && Home(g, disk) == Home(g, old(disk))
      ensures lh == Logged(old(lh), old(buf[b]).sector)
      ensures Held(buf[..]) == Held(old(buf[..]))
    {
      hide StoreOf, BufOk, DirtyIsPinned, Unique, Linked, WithWord, Word, Sectors, Image, Home, Held, Logged;
      ghost var before := buf[..];
      var i := SlotFor(lh, buf[b].sector);
      var l := BreadFree(g.start + 1 + i);
      ghost var sys1 := Abs();
      CopyToLog(b, l, i);
      LogWriteNet(g, sys1, b, l, Abs());
      HomeKept(g, sys1.disk, sys1.bufs[l].sector, sys1.bufs[b].data);
      SameHolders(before, sys1.bufs, buf[..], l, b);
    }

    /** The rest of log_write: buffer b is written to the log through buffer l, given the
        slot i in log.lh and pinned. */
    method CopyToLog(b: nat, l: nat, i: nat)
      requires CacheValid() && b < NBUF && l < NBUF && l != b && buf[l].who != Nobody && buf[l].sector < |disk|
      requires i == Absorb(lh, buf[b].sector)
      modifies this`disk, this`trace, this`lh, this`logged, buf, lru, lru.next, lru.prev
      ensures CacheValid() && trace == old(trace) + [disk]
      ensures disk == old(disk)[old(buf[l]).sector := old(buf[b]).data]
      ensures buf[..] == old(buf[..])[l := old(buf[l]).(data := old(buf[b]).data, valid := true, dirty := false, who := Nobody)]
                                     [b := old(buf[b]).(dirty := true, unlogged := false)]
      ensures lh == logged == Logged(old(lh), old(buf[b]).sector)
    {
      hide Linked, Word, WithWord;
      var s := buf[b].sector;
      CopyOut(b, l);
      if i == |lh| {
        lh := lh + [s];
      }
      buf[b] := buf[b].(dirty := true, unlogged := false);
      logged := lh;
    }

    ghost predicate Alone()
      requires buf.Length == NBUF
      reads buf
    {
      forall i :: 0 <= i < NBUF ==> buf[i].who == Nobody
    }

    /** The body of write_head: fill the header buffer, bwrite, brelse. */
    method PutHeader(h: nat)
      requires CacheValid() && h < NBUF && buf[h].who != Nobody && buf[h].sector < |disk|
      requires |lh| <= LOGSIZE && forall i :: 0 <= i < |lh| ==> lh[i] < 0x8000_0000
      modifies this`disk, this`trace, buf, lru, lru.next, lru.prev
      ensures CacheValid() && trace == old(trace) + [disk]
      ensures disk == old(disk)[old(buf[h]).sector := HeaderOf(old(buf[h]).data, lh)]
      ensures buf[..] == old(buf[..])[h := old(buf[h]).(data := HeaderOf(old(buf[h]).data, lh), valid := true,
                                                        dirty := false, who := Nobody)]
    {
      hide WithWord, Word, Linked;
      var hb := WithWord(buf[h].data, 0, |lh|);
      for i := 0 to |lh|
        invariant hb == FillHeader(buf[h].data, lh, i)
      {
        hb := WithWord(hb, i + 1, lh[i]);
      }
      buf[h] := buf[h].(data := hb);
      Bwrite(h);
      Brelse(h);
    }

    /** write_head: one sector write. With the transaction's sectors in log.lh it
        commits; with log.lh empty after the installs it erases the log. */
    method WriteHead()
      requires CacheValid() && Inv(g, Abs()) && Alone() && |Pinned(Abs())| < NBUF
      requires || (phase.Active? && lh == logged && lh != [])
               || (phase.Installing? && phase.k == |logged| && lh == [])
      modifies this`disk, this`trace, this`logged, this`phase, buf, lru, lru.next, lru.prev
      ensures CacheValid() && Inv(g, Abs()) && Alone() && lh == logged
      ensures trace == old(trace) + [disk]
      ensures old(phase).Active? ==>
                phase == Installing(0, false) && StoreOf(g, Abs()) == Play(old(StoreOf(g, Abs())), Committed)
      ensures old(phase).Installing? ==> phase == Closing && StoreOf(g, Abs()) == old(StoreOf(g, Abs()))
    {
      hide StoreOf, BufOk, DirtyIsPinned, Unique, Linked, WithWord, Word, Image, Sectors, HeaderOf, Pinned, Held, HasRoom;
      NoneHeld(g, Abs());
      RoomInCache(g, Abs());
      var h := BreadFree(g.start);
      ghost var sys := Abs();
      HeaderClean(g, sys, h);
      PutHeader(h);
      logged := lh;
      phase := if phase.Active? then Installing(0, false) else Closing;
      if sys.phase.Active? {
        CommitNet(g, sys, h, Abs());
      } else {
        ClearNet(g, sys, h, Abs());
      }
    }

    /** Copy a log block's data into its home buffer, write that one out and give both back. */
    method CopyHome(src: nat, dst: nat)
      requires CacheValid() && src < NBUF && dst < NBUF && src != dst
      requires buf[src].who != Nobody && buf[dst].who != Nobody && buf[dst].sector < |disk|
      modifies this`disk, this`trace, buf, lru, lru.next, lru.prev
      ensures CacheValid()
      ensures disk == old(disk)[old(buf[dst]).sector := old(buf[src]).data] && trace == old(trace) + [disk]
      ensures buf[..] == old(buf[..])[dst := old(buf[dst]).(data := old(buf[src]).data, valid := true,
                                                            dirty := false, who := Nobody)]
                                     [src := old(buf[src]).(who := Nobody)]
    {
      hide Linked;
      buf[dst] := buf[dst].(data := buf[src].data);
      Bwrite(dst);
      Brelse(src);
      Brelse(dst);
    }

    /** The two breads of a round of install_trans: the log block and its home. */
    method FetchPair(tail: nat) returns (l: nat, d: nat)
      requires CacheValid() && Inv(g, Abs()) && Alone() && |Pinned(Abs())| < NBUF
      requires phase.Installing? && phase.k == tail < |lh| && lh == logged
      modifies buf
      ensures CacheValid() && Inv(g, Abs()) && StoreOf(g, Abs()) == old(StoreOf(g, Abs()))
      ensures l != d && Has(Abs(), l, Txn, g.start + tail + 1) && Has(Abs(), d, Txn, lh[tail])
      ensures forall i :: 0 <= i < NBUF && i != l && i != d ==> buf[i].who == Nobody
    {
      hide StoreOf, BufOk, Unique, DirtyIsPinned, Linked, WithWord, Word, Sectors;
      NoneHeld(g, Abs());
      RoomInCache(g, Abs());
      l := BreadFree(g.start + tail + 1);
      assert Held(buf[..]) == {l};
      PinnedIsCached(g, Abs());
      if phase.recovering {
        RoomInCache(g, Abs());
      }
      d := BreadFree(lh[tail]);
    }

    /** One round of install_trans. */
    method InstallNext(tail: nat)
      requires CacheValid() && Inv(g, Abs()) && Alone() && lh == logged && |Pinned(Abs())| < NBUF
      requires phase.Installing? && phase.k == tail < |lh|
      modifies this`disk, this`trace, this`phase, buf, lru, lru.next, lru.prev
      ensures CacheValid() && Inv(g, Abs()) && Alone()
      ensures phase == Installing(old(phase).k + 1, old(phase).recovering)
      ensures trace == old(trace) + [disk] && StoreOf(g, Abs()) == old(StoreOf(g, Abs()))
    {
      hide StoreOf, BufOk, Unique, DirtyIsPinned, Linked, WithWord, Word, Sectors, Pinned;
      var l, d := FetchPair(tail);
      ghost var sys := Abs();
      CopyHome(l, d);
      phase := Installing(tail + 1, phase.recovering);
      InstallNet(g, sys, l, d, Abs());
    }

    /** Every sector write since trace position `from` left an image that recovers
        to the given home area. */
    ghost predicate AllRecoverTo(from: nat, home: Disk)
      reads this
    {
      forall j :: from <= j < |trace| ==> RecoversTo(g, trace[j], home)
    }

    /** install_trans: copy every logged block home, one sector write each. */
    method InstallTrans()
      requires CacheValid() && Inv(g, Abs()) && Alone() && lh == logged && |Pinned(Abs())| < NBUF
      requires phase.Installing? && phase.k == 0
      modifies this`disk, this`trace, this`phase, buf, lru, lru.next, lru.prev
      ensures CacheValid() && Inv(g, Abs()) && Alone()
      ensures phase == Installing(|lh|, old(phase).recovering)
      ensures StoreOf(g, Abs()) == old(StoreOf(g, Abs()))
      ensures |trace| == |old(trace)| + |lh| && old(trace) <= trace
      ensures AllRecoverTo(|old(trace)|, old(Durable(g, Abs())))
    {
      hide Inv, Image, Linked, Word, WithWord, Sectors, Recover;
      InvParts(g, Abs());
      for tail := 0 to |lh|
        invariant CacheValid() && Inv(g, Abs()) && LogOk(g, Abs()) && Alone()
        invariant phase == Installing(tail, old(phase).recovering)
        invariant StoreOf(g, Abs()) == old(StoreOf(g, Abs()))
        invariant |trace| == |old(trace)| + tail && old(trace) <= trace
        invariant AllRecoverTo(|old(trace)|, old(Durable(g, Abs())))
      {
        InstallNext(tail);
        InvParts(g, Abs());
      }
    }

    /** begin_trans: true if it has to sleep because a transaction is running. */
    method BeginTrans() returns (wait: bool)
      requires Valid() && (busy <==> !phase.Idle?)
      modifies this`busy, this`phase
      ensures Valid() && busy
      ensures wait == old(busy) && (wait ==> phase == old(phase)) && (!wait ==> phase == Active)
      ensures StoreOf(g, Abs()) == old(StoreOf(g, Abs()))
    {
      wait := busy;
      if !busy {
        PhaseStep(g, Abs(), Begin);
        busy := true;
        phase := Active;
      }
    }

    /** The sector writes of commit_trans: header, installs, cleared header. */
    method CommitWrites()
      requires CacheValid() && Inv(g, Abs()) && Alone() && lh == logged && 0 < |lh| < NBUF && phase.Active?
      modifies this`disk, this`trace, this`phase, this`lh, this`logged, buf, lru, lru.next, lru.prev
      ensures CacheValid() && Inv(g, Abs()) && Alone() && phase == Closing && lh == logged == []
      ensures |trace| == |old(trace)| + |old(lh)| + 2 && old(trace) <= trace
      ensures AllRecoverTo(|old(trace)|, old(StoreOf(g, Abs()).pending))
      ensures StoreOf(g, Abs()) == Play(old(StoreOf(g, Abs())), Committed)
    {
      hide Inv, Image, Linked, Word, WithWord, Sectors, Recover;
      assert LogOk(g, Abs()) by { InvParts(g, Abs()); }
      WriteHead();
      assert LogOk(g, Abs()) by { InvParts(g, Abs()); }
      InstallTrans();
      lh := [];
      WriteHead();
      assert LogOk(g, Abs()) by { InvParts(g, Abs()); }
    }

    /** commit_trans. Until it starts, a power cut leaves the image from before the
        transaction; after any one of its sector writes, the image with all the
        transaction's writes. An empty transaction writes nothing. */
    method CommitTrans()
      requires Valid() && Alone() && phase.Active? && busy && |lh| < NBUF
      modifies this, buf, lru, lru.next, lru.prev
      ensures Valid() && Alone() && phase == Idle && !busy && lh == []
      ensures old(trace) <= trace
      ensures |trace| == |old(trace)| + (if old(lh) == [] then 0 else |old(lh)| + 2)
      ensures AllRecoverTo(|old(trace)|, old(View(g, Abs())))
      ensures Home(g, disk) == Durable(g, Abs()) == View(g, Abs()) == old(View(g, Abs()))
      ensures forall i :: 0 <= i < NBUF ==> !buf[i].dirty
    {
      hide BufOk, Unique, DirtyIsPinned, Image, Linked, Word, WithWord, Recover;
      NoneHeld(g, Abs());
      if |lh| > 0 {
        CommitWrites();
      } else {
        BetweenTransactions(g, Abs());
        PhaseStep(g, Abs(), CommitNothing);
        phase := Closing;
      }
      busy := false;
      PhaseStep(g, Abs(), End);
      phase := Idle;
      BetweenTransactions(g, Abs());
    }

    /** read_head: the in-memory header becomes the one on disk. */
    method ReadHead()
      requires CacheValid() && Inv(g, Abs()) && Alone() && phase.Boot?
      modifies this`lh, this`logged, this`phase, buf, lru, lru.next, lru.prev
      ensures CacheValid() && Inv(g, Abs()) && Alone()
      ensures lh == logged == Sectors(disk[g.start]) && phase == Installing(0, true)
      ensures StoreOf(g, Abs()) == old(StoreOf(g, Abs()))
    {
      hide StoreOf, BufOk, DirtyIsPinned, Unique, Linked, WithWord, Word;
      NoneHeld(g, Abs());
      RoomInCache(g, Abs());
      var h := BreadFree(g.start);
      ghost var sys := Abs();
      HeaderClean(g, sys, h);
      var n := Word(buf[h].data, 0);
      lh := [];
      for i := 0 to n
        modifies this`lh
        invariant |lh| == i && forall j :: 0 <= j < i ==> lh[j] == Word(buf[h].data, j + 1)
      {
        lh := lh + [Word(buf[h].data, i + 1)];
      }
      assert lh == Sectors(buf[h].data);
      Brelse(h);
      logged := lh;
      phase := Installing(0, true);
      ReadHeadNet(g, sys, h, Abs());
    }

    /** recover_from_log, from any well-formed disk: the home area becomes the
        recovered image, the log becomes empty, and a power cut after any of its
        sector writes loses nothing. */
    method RecoverFromLog()
      requires CacheValid() && Inv(g, Abs()) && Alone() && phase.Boot? && !busy
      modifies this, buf, lru, lru.next, lru.prev
      ensures Valid() && Alone() && phase == Idle && !busy && lh == []
      ensures |trace| == |old(trace)| + |Sectors(old(disk)[g.start])| + 1 && old(trace) <= trace
      ensures AllRecoverTo(|old(trace)|, old(Durable(g, Abs())))
      ensures Home(g, disk) == Durable(g, Abs()) == View(g, Abs()) == old(Durable(g, Abs()))
      ensures Sectors(disk[g.start]) == []
    {
      hide BufOk, Unique, DirtyIsPinned, Image, Linked, Word, WithWord, Recover;
      ReadHead();
      InstallTrans();
      lh := [];
      WriteHead();
      PhaseStep(g, Abs(), End);
      phase := Idle;
      BetweenTransactions(g, Abs());
    }
  }
}
