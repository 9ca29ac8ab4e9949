/** The buffer cache and the log as one transition system. A step is what one
    process does between two points where others (or a power cut) can come in:
    a pass through bget, one sector transfer, brelse, one phase change of the log.
    Any number of readers run beside the one process that is in a transaction. */
module LogMachine {
  import opened Blocks
  import opened LogDisk

  /** Who holds B_BUSY: nobody, the process in the transaction (or running
      recovery), or some other process. */
  datatype Holder = Nobody | Txn | Reader

  /** A buffer; `unlogged` says that its holder has changed `data` and not yet
      passed the buffer to log_write. */
  datatype Buf = Buf(cached: bool, sector: nat, who: Holder, valid: bool, dirty: bool,
                     unlogged: bool, data: Block)

  /** Boot: power is on, recover_from_log has not read the header yet.
      Installing(k): install_trans has copied k blocks home.
      Closing: the header is cleared, commit_trans has not returned yet. */
  datatype Phase = Boot | Idle | Active | Installing(k: nat, recovering: bool) | Closing

  datatype Sys = Sys(disk: Disk, bufs: seq<Buf>, lh: seq<nat>, phase: Phase)

  datatype Step =
    | Hit(b: nat, who: Holder)
    | Recycle(b: nat, s: nat, who: Holder)
    | ReadIn(b: nat)
    | Release(b: nat)
    | Begin
    | Modify(b: nat, data: Block)
    | LogWrite(b: nat, l: nat)
    | WriteHead(h: nat)
    | InstallOne(l: nat, b: nat)
    | ClearHead(h: nat)
    | CommitNothing
    | End
    | Crash
    | ReadHead(h: nat)

  // ---------- the images a caller can speak about ----------

  ghost function SlotOf(secs: seq<nat>, s: nat): (i: nat)
    requires s in secs
    ensures i < |secs| && secs[i] == s
  {
    var i: nat :| i < |secs| && secs[i] == s;
    i
  }

  /** Sector s as the log shows it: its logged copy if it has one. */
  ghost function Overlay(g: Geometry, d: Disk, secs: seq<nat>, s: nat): Block
    requires g.Fits(d) && g.Loggable(secs) && s < g.start
  {
    if s in secs then d[g.start + 1 + SlotOf(secs, s)] else d[s]
  }

  /** The home area with the given logged sectors laid over it. */
  ghost function Image(g: Geometry, d: Disk, secs: seq<nat>): (r: Disk)
    requires g.Fits(d) && g.Loggable(secs)
    ensures |r| == g.start
    ensures forall s :: 0 <= s < g.start ==> r[s] == Overlay(g, d, secs, s)
  {
    seq(g.start, s requires 0 <= s < g.start => Overlay(g, d, secs, s))
  }

  lemma OverlaySlot(g: Geometry, d: Disk, secs: seq<nat>, i: nat)
    requires g.Fits(d) && g.Loggable(secs) && i < |secs|
    ensures Overlay(g, d, secs, secs[i]) == d[g.start + 1 + i]
  {
    assert SlotOf(secs, secs[i]) == i;
  }

  lemma OverlayIsInstall(g: Geometry, d: Disk, secs: seq<nat>, s: nat)
    requires g.Fits(d) && g.Loggable(secs) && s < g.start
    ensures |Install(g, d, secs, |secs|)| == |d| && Overlay(g, d, secs, s) == Install(g, d, secs, |secs|)[s]
  {
    InstallAt(g, d, secs, |secs|, s);
    assert secs[..|secs|] == secs;
    if s in secs {
      OverlaySlot(g, d, secs, SlotOf(secs, s));
    }
  }

  lemma ImageIsInstall(g: Geometry, d: Disk, secs: seq<nat>)
    requires g.Fits(d) && g.Loggable(secs)
    ensures Image(g, d, secs) == Home(g, Install(g, d, secs, |secs|))
  {
    hide Overlay;
    forall s | 0 <= s < g.start ensures Image(g, d, secs)[s] == Install(g, d, secs, |secs|)[s] {
      OverlayIsInstall(g, d, secs, s);
    }
  }

  /** What the home area becomes if power fails now and recovery completes. */
  ghost function Durable(g: Geometry, sys: Sys): Disk
    requires WellFormed(g, sys.disk)
  {
    Home(g, Recover(g, sys.disk))
  }

  lemma DurableIsImage(g: Geometry, sys: Sys)
    requires WellFormed(g, sys.disk)
    ensures Durable(g, sys) == Image(g, sys.disk, Sectors(sys.disk[g.start]))
  {
    ImageIsInstall(g, sys.disk, Sectors(sys.disk[g.start]));
  }

  /** What the running transaction (and every reader) is meant to see. */
  ghost function View(g: Geometry, sys: Sys): Disk
    requires WellFormed(g, sys.disk) && g.Loggable(sys.lh)
  {
    if sys.phase.Boot? then Durable(g, sys) else Image(g, sys.disk, sys.lh)
  }

  // ---------- steps ----------

  predicate Has(sys: Sys, b: nat, who: Holder, s: nat) {
    && b < |sys.bufs| && sys.bufs[b].cached && sys.bufs[b].sector == s
    && sys.bufs[b].who == who && sys.bufs[b].valid
  }

  /** Recovery runs before any other process uses the file system; until the
      header is read it looks only at the superblock and the header. */
  predicate MayTouch(g: Geometry, sys: Sys, s: nat, who: Holder) {
    && who != Nobody
    && (sys.phase.Boot? ==> who == Txn && (s == 1 || s == g.start))
    && (sys.phase.Installing? && sys.phase.recovering ==> who == Txn)
  }

  /** The slot log_write uses: the one the sector already has, or a new one. */
  ghost function Absorb(lh: seq<nat>, s: nat): (i: nat)
    ensures i <= |lh| && (i < |lh| <==> s in lh) && (i < |lh| ==> lh[i] == s)
  {
    if s in lh then SlotOf(lh, s) else |lh|
  }

  ghost predicate Enabled(g: Geometry, sys: Sys, step: Step) {
    match step
    case Hit(b, who) =>
      && b < |sys.bufs| && sys.bufs[b].cached && sys.bufs[b].who == Nobody
      && MayTouch(g, sys, sys.bufs[b].sector, who)
    case Recycle(b, s, who) =>
      && b < |sys.bufs| && sys.bufs[b].who == Nobody && !sys.bufs[b].dirty
      && s < |sys.disk| && MayTouch(g, sys, s, who)
      && (forall i :: 0 <= i < |sys.bufs| ==> !(sys.bufs[i].cached && sys.bufs[i].sector == s))
    case ReadIn(b) =>
      && b < |sys.bufs| && sys.bufs[b].cached && sys.bufs[b].who != Nobody && !sys.bufs[b].valid
      && sys.bufs[b].sector < |sys.disk|
    case Release(b) =>
      b < |sys.bufs| && sys.bufs[b].who != Nobody && sys.bufs[b].valid && !sys.bufs[b].unlogged
    case Begin => sys.phase.Idle?
    case Modify(b, data) =>
      && sys.phase.Active? && b < |sys.bufs| && 2 <= sys.bufs[b].sector < g.start
      && Has(sys, b, Txn, sys.bufs[b].sector)
    case LogWrite(b, l) =>
      && sys.phase.Active? && |sys.lh| < g.Capacity()
      && b < |sys.bufs| && 2 <= sys.bufs[b].sector < g.start
      && Has(sys, b, Txn, sys.bufs[b].sector)
      && Has(sys, l, Txn, g.start + 1 + Absorb(sys.lh, sys.bufs[b].sector))
    case WriteHead(h) =>
      && sys.phase.Active? && sys.lh != [] && Has(sys, h, Txn, g.start)
      && (forall i :: 0 <= i < |sys.bufs| ==> !sys.bufs[i].unlogged)
    case InstallOne(l, b) =>
      && sys.phase.Installing? && sys.phase.k < |sys.lh|
      && Has(sys, l, Txn, g.start + 1 + sys.phase.k) && Has(sys, b, Txn, sys.lh[sys.phase.k])
    case ClearHead(h) =>
      sys.phase.Installing? && sys.phase.k == |sys.lh| && Has(sys, h, Txn, g.start)
    case CommitNothing =>
      && sys.phase.Active? && sys.lh == []
      && (forall i :: 0 <= i < |sys.bufs| ==> !sys.bufs[i].unlogged)
    case End => sys.phase.Closing?
    case Crash => true
    case ReadHead(h) => sys.phase.Boot? && Has(sys, h, Txn, g.start)
  }

  /** bwrite of buffer b with new contents: one sector reaches the disk. */
  function Bwrite(sys: Sys, b: nat, data: Block): Sys
    requires b < |sys.bufs| && sys.bufs[b].sector < |sys.disk|
  {
    sys.(disk := sys.disk[sys.bufs[b].sector := data],
         bufs := sys.bufs[b := sys.bufs[b].(data := data, valid := true, dirty := false)])
  }

  ghost function Apply(g: Geometry, sys: Sys, step: Step): Sys
    requires g.Fits(sys.disk) && g.Loggable(sys.lh) && Enabled(g, sys, step)
    requires step.ReadHead? ==> Word(sys.bufs[step.h].data, 0) <= LOGSIZE
  {
    match step
    case Hit(b, who) => sys.(bufs := sys.bufs[b := sys.bufs[b].(who := who)])
    case Recycle(b, s, who) =>
      sys.(bufs := sys.bufs[b := Buf(true, s, who, false, false, false, sys.bufs[b].data)])
    case ReadIn(b) =>
      sys.(bufs := sys.bufs[b := sys.bufs[b].(data := sys.disk[sys.bufs[b].sector], valid := true)])
    case Release(b) => sys.(bufs := sys.bufs[b := sys.bufs[b].(who := Nobody)])
    case Begin => sys.(phase := Active)
    case Modify(b, data) =>
      sys.(bufs := sys.bufs[b := sys.bufs[b].(data := data, unlogged := true)])
    case LogWrite(b, l) =>
      var s := sys.bufs[b].sector;
      var sys' := Bwrite(sys, l, sys.bufs[b].data);
      sys'.(bufs := sys'.bufs[b := sys'.bufs[b].(dirty := true, unlogged := false)],
            lh := Logged(sys.lh, s))
    case WriteHead(h) =>
      Bwrite(sys, h, HeaderOf(sys.bufs[h].data, sys.lh)).(phase := Installing(0, false))
    case InstallOne(l, b) =>
      Bwrite(sys, b, sys.bufs[l].data).(phase := Installing(sys.phase.k + 1, sys.phase.recovering))
    case ClearHead(h) =>
      Bwrite(sys, h, HeaderOf(sys.bufs[h].data, [])).(lh := [], phase := Closing)
    case CommitNothing => sys.(phase := Closing)
    case End => sys.(phase := Idle)
    case Crash =>
      sys.(bufs := seq(|sys.bufs|, i => Buf(false, 0, Nobody, false, false, false, ZeroBlock())),
           lh := [], phase := Boot)
    case ReadHead(h) =>
      sys.(lh := Sectors(sys.bufs[h].data), phase := Installing(0, true))
  }

  // ---------- invariant ----------

  ghost predicate Unique(sys: Sys) {
    forall i, j :: 0 <= i < j < |sys.bufs| && sys.bufs[i].cached && sys.bufs[j].cached ==>
      sys.bufs[i].sector != sys.bufs[j].sector
  }

  /** Sectors whose newest contents exist only in memory and in the log. */
  function Pinned(sys: Sys): seq<nat> {
    match sys.phase
    case Active => sys.lh
    case Installing(k, recovering) => if recovering || k > |sys.lh| then [] else sys.lh[k..]
    case _ => []
  }

  ghost predicate DirtyIs(sys: Sys, s: nat) {
    exists b :: 0 <= b < |sys.bufs| && sys.bufs[b].dirty && sys.bufs[b].sector == s
  }

  /** The dirty buffers are exactly the pinned sectors. */
  ghost predicate DirtyIsPinned(sys: Sys) {
    && (forall b :: 0 <= b < |sys.bufs| && sys.bufs[b].dirty ==> sys.bufs[b].sector in Pinned(sys))
    && (forall s :: s in Pinned(sys) ==> DirtyIs(sys, s))
  }

  /** A buffer on its own: a valid one shows the transaction's view of its sector
      (the holder's uncommitted edits and, in recovery, sectors still waiting to be
      installed excepted); outside the home area it shows the disk. */
  ghost predicate BufOk(g: Geometry, d: Disk, lh: seq<nat>, phase: Phase, b: Buf)
    requires WellFormed(g, d) && g.Loggable(lh)
  {
    && (b.cached ==> b.sector < |d|)
    && (b.dirty ==> b.valid)
    && (b.valid ==> b.cached)
    && (!b.cached ==> b.who == Nobody)
    && (b.unlogged ==> b.valid && b.who == Txn && phase.Active? && 2 <= b.sector < g.start)
    && (b.cached && phase.Boot? ==> b.sector == 1 || b.sector == g.start)
    && (b.valid && !b.unlogged ==> ContentsOk(g, d, lh, phase, b.sector, b.data))
  }

  ghost predicate ContentsOk(g: Geometry, d: Disk, lh: seq<nat>, phase: Phase, s: nat, data: Block)
    requires WellFormed(g, d) && g.Loggable(lh) && s < |d|
  {
    if s >= g.start || phase.Boot? || (phase.Installing? && phase.recovering && phase.k <= |lh| && s in lh[phase.k..])
    then data == d[s]
    else data == Image(g, d, lh)[s]
  }

  ghost predicate LogOk(g: Geometry, sys: Sys) {
    && WellFormed(g, sys.disk)
    && g.Loggable(sys.lh)
    && (sys.phase.Boot? || sys.phase.Idle? || sys.phase.Closing? ==> sys.lh == [])
    && (sys.phase.Idle? || sys.phase.Active? || sys.phase.Closing? ==> Word(sys.disk[g.start], 0) == 0)
    && (sys.phase.Installing? ==>
          && sys.phase.k <= |sys.lh|
          && Sectors(sys.disk[g.start]) == sys.lh
          && forall i :: 0 <= i < sys.phase.k ==> sys.disk[sys.lh[i]] == sys.disk[g.start + 1 + i])
  }

  ghost predicate Inv(g: Geometry, sys: Sys) {
    && LogOk(g, sys)
    && Unique(sys)
    && DirtyIsPinned(sys)
    && (forall i :: 0 <= i < |sys.bufs| ==> BufOk(g, sys.disk, sys.lh, sys.phase, sys.bufs[i]))
  }

  // ---------- every step keeps the invariant and refines the atomic store ----------

  /** What a step means to the atomic store. */
  datatype Event = Wrote(s: nat, data: Block) | Committed | PowerLost | Quiet

  function EventOf(sys: Sys, step: Step): Event {
    match step
    case LogWrite(b, l) => if b < |sys.bufs| then Wrote(sys.bufs[b].sector, sys.bufs[b].data) else Quiet
    case WriteHead(h) => Committed
    case Crash => PowerLost
    case _ => Quiet
  }

  /** The atomic store: an image that survives power cuts and one that does not. */
  datatype Store = Store(durable: Disk, pending: Disk)

  function Play(st: Store, e: Event): Store {
    match e
    case Wrote(s, data) => if s < |st.pending| then st.(pending := st.pending[s := data]) else st
    case Committed => st.(durable := st.pending)
    case PowerLost => st.(pending := st.durable)
    case Quiet => st
  }

  ghost function StoreOf(g: Geometry, sys: Sys): Store
    requires LogOk(g, sys)
  {
    Store(Durable(g, sys), View(g, sys))
  }

  /** The specification of a step: only the header write moves the durable image,
      and it moves it to everything the transaction has logged. */
  ghost predicate Refines(g: Geometry, sys: Sys, step: Step, sys': Sys)
    requires LogOk(g, sys) && LogOk(g, sys')
  {
    StoreOf(g, sys') == Play(StoreOf(g, sys), EventOf(sys, step))
  }

  predicate IsBufferStep(step: Step) {
    step.Hit? || step.Recycle? || step.ReadIn? || step.Release? || step.Modify?
  }

  lemma ReplaceDirty(sys: Sys, b: nat, x: Buf)
    requires DirtyIsPinned(sys) && b < |sys.bufs|
    requires x.dirty == sys.bufs[b].dirty && (x.dirty ==> x.sector == sys.bufs[b].sector)
    ensures DirtyIsPinned(sys.(bufs := sys.bufs[b := x]))
  {
    var sys' := sys.(bufs := sys.bufs[b := x]);
    forall s | s in Pinned(sys') ensures DirtyIs(sys', s) {
      assert DirtyIs(sys, s);
      var i :| 0 <= i < |sys.bufs| && sys.bufs[i].dirty && sys.bufs[i].sector == s;
      assert sys'.bufs[i].dirty && sys'.bufs[i].sector == s;
    }
  }

  lemma ReplaceUnique(sys: Sys, b: nat, x: Buf)
    requires Unique(sys) && b < |sys.bufs|
    requires forall i :: 0 <= i < |sys.bufs| && i != b && x.cached && sys.bufs[i].cached ==>
               sys.bufs[i].sector != x.sector
    ensures Unique(sys.(bufs := sys.bufs[b := x]))
  {
  }

  lemma ReplaceBuf(g: Geometry, sys: Sys, b: nat, x: Buf)
    requires Inv(g, sys) && b < |sys.bufs|
    requires BufOk(g, sys.disk, sys.lh, sys.phase, x)
    requires x.dirty == sys.bufs[b].dirty && (x.dirty ==> x.sector == sys.bufs[b].sector)
    requires forall i :: 0 <= i < |sys.bufs| && i != b && x.cached && sys.bufs[i].cached ==>
               sys.bufs[i].sector != x.sector
    ensures Inv(g, sys.(bufs := sys.bufs[b := x]))
  {
    ReplaceDirty(sys, b, x);
    ReplaceUnique(sys, b, x);
    var sys' := sys.(bufs := sys.bufs[b := x]);
    assert LogOk(g, sys');
    forall i | 0 <= i < |sys'.bufs| ensures BufOk(g, sys'.disk, sys'.lh, sys'.phase, sys'.bufs[i]) {
      assert i == b || sys'.bufs[i] == sys.bufs[i];
    }
  }

  /** Reading a sector that is not pinned shows the transaction's view. */
  lemma ReadInOk(g: Geometry, sys: Sys, b: nat)
    requires Inv(g, sys) && Enabled(g, sys, ReadIn(b))
    ensures ContentsOk(g, sys.disk, sys.lh, sys.phase, sys.bufs[b].sector, sys.disk[sys.bufs[b].sector])
  {
    var s := sys.bufs[b].sector;
    if s < g.start && s in sys.lh && !sys.phase.Boot? {
      var i := SlotOf(sys.lh, s);
      assert s !in Pinned(sys);
      if i >= sys.phase.k {
        assert sys.lh[sys.phase.k..][i - sys.phase.k] == s;
      }
    }
  }

  lemma SameStore(g: Geometry, sys: Sys, sys': Sys)
    requires LogOk(g, sys) && LogOk(g, sys')
    requires sys'.disk == sys.disk && sys'.lh == sys.lh && sys'.phase == sys.phase
    ensures StoreOf(g, sys') == StoreOf(g, sys)
  {
  }

  lemma BufferStep(g: Geometry, sys: Sys, step: Step)
    requires Inv(g, sys) && Enabled(g, sys, step) && IsBufferStep(step)
    ensures Inv(g, Apply(g, sys, step)) && Refines(g, sys, step, Apply(g, sys, step))
  {
    hide Image, DirtyIsPinned;
    assert BufOk(g, sys.disk, sys.lh, sys.phase, sys.bufs[step.b]);
    if step.ReadIn? {
      ReadInOk(g, sys, step.b);
    }
    var sys' := Apply(g, sys, step);
    ReplaceBuf(g, sys, step.b, sys'.bufs[step.b]);
    SameStore(g, sys, sys');
  }

  lemma PhaseBufs(g: Geometry, sys: Sys, sys': Sys)
    requires Inv(g, sys) && (sys.phase.Active? || sys.phase.Idle? || sys.phase.Closing?)
    requires sys' == sys.(phase := sys'.phase) && sys.lh == []
    requires sys'.phase.Active? || sys'.phase.Idle? || sys'.phase.Closing?
    requires forall i :: 0 <= i < |sys.bufs| ==> !sys.bufs[i].unlogged
    ensures Inv(g, sys')
  {
    forall i | 0 <= i < |sys.bufs| ensures BufOk(g, sys'.disk, sys'.lh, sys'.phase, sys'.bufs[i]) {
      assert BufOk(g, sys.disk, sys.lh, sys.phase, sys.bufs[i]);
    }
  }

  lemma CrashStep(g: Geometry, sys: Sys)
    requires Inv(g, sys)
    ensures Inv(g, Apply(g, sys, Crash)) && Refines(g, sys, Crash, Apply(g, sys, Crash))
  {
    hide Image, Install, Sectors;
  }

  lemma PhaseStep(g: Geometry, sys: Sys, step: Step)
    requires Inv(g, sys) && Enabled(g, sys, step)
    requires step.Begin? || step.CommitNothing? || step.End? || step.Crash?
    ensures Inv(g, Apply(g, sys, step)) && Refines(g, sys, step, Apply(g, sys, step))
  {
    hide Image, Install, Sectors;
    if step.Crash? {
      CrashStep(g, sys);
    } else {
      forall i | 0 <= i < |sys.bufs| ensures !sys.bufs[i].unlogged {
        assert BufOk(g, sys.disk, sys.lh, sys.phase, sys.bufs[i]);
      }
      PhaseBufs(g, sys, Apply(g, sys, step));
    }
  }

  /** log.lh after log_write: unchanged if absorbed, one longer otherwise. */
  ghost function Logged(lh: seq<nat>, s: nat): (r: seq<nat>)
    ensures Absorb(lh, s) < |r| && r[Absorb(lh, s)] == s && lh <= r
    ensures forall t :: t in r <==> t in lh || t == s
  {
    var i := Absorb(lh, s);
    if i < |lh| then assert lh[i := s] == lh; lh[i := s] else lh + [s]
  }

  lemma LoggedLoggable(g: Geometry, lh: seq<nat>, s: nat)
    requires g.Loggable(lh) && |lh| < g.Capacity() && 2 <= s < g.start
    ensures g.Loggable(Logged(lh, s))
  {
  }

  /** Appending to (or absorbing into) the log changes the image at one sector. */
  lemma ImageAfterLog(g: Geometry, d: Disk, lh: seq<nat>, s: nat, data: Block)
    requires g.Fits(d) && g.Loggable(lh) && |lh| < g.Capacity() && 2 <= s < g.start
    ensures g.Loggable(Logged(lh, s))
    ensures Image(g, d[g.start + 1 + Absorb(lh, s) := data], Logged(lh, s)) == Image(g, d, lh)[s := data]
  {
    LoggedLoggable(g, lh, s);
    var d' := d[g.start + 1 + Absorb(lh, s) := data];
    forall t | 0 <= t < g.start
      ensures Overlay(g, d', Logged(lh, s), t) == if t == s then data else Overlay(g, d, lh, t)
    {
      OverlayAfterLog(g, d, lh, s, data, t);
    }
  }

  lemma OverlayAfterLog(g: Geometry, d: Disk, lh: seq<nat>, s: nat, data: Block, t: nat)
    requires g.Fits(d) && g.Loggable(lh) && g.Loggable(Logged(lh, s)) && s < g.start && t < g.start
    ensures Overlay(g, d[g.start + 1 + Absorb(lh, s) := data], Logged(lh, s), t)
         == if t == s then data else Overlay(g, d, lh, t)
  {
    var i, lh' := Absorb(lh, s), Logged(lh, s);
    if t == s {
      OverlaySlot(g, d[g.start + 1 + i := data], lh', i);
    } else if t in lh {
      OverlaySlot(g, d[g.start + 1 + i := data], lh', SlotOf(lh, t));
    }
  }

  /** Writes to the header sector do not show in an image. */
  lemma ImageAfterHeader(g: Geometry, d: Disk, lh: seq<nat>, h: Block)
    requires g.Fits(d) && g.Loggable(lh)
    ensures Image(g, d[g.start := h], lh) == Image(g, d, lh)
  {
  }

  /** Installing a logged block does not change the image either. */
  lemma ImageAfterInstall(g: Geometry, d: Disk, lh: seq<nat>, k: nat)
    requires g.Fits(d) && g.Loggable(lh) && k < |lh|
    ensures Image(g, d[lh[k] := d[g.start + 1 + k]], lh) == Image(g, d, lh)
  {
  }

  /** Once every logged block is home, the home area is the image. */
  lemma ImageWhenInstalled(g: Geometry, d: Disk, lh: seq<nat>)
    requires g.Fits(d) && g.Loggable(lh)
    requires forall i :: 0 <= i < |lh| ==> d[lh[i]] == d[g.start + 1 + i]
    ensures Image(g, d, lh) == Home(g, d) == Image(g, d, [])
  {
  }

  lemma LogWriteDirty(sys: Sys, sys': Sys, b: nat, l: nat)
    requires sys.phase.Active? && sys'.phase.Active? && DirtyIsPinned(sys)
    requires b < |sys.bufs| && l < |sys.bufs| && |sys'.bufs| == |sys.bufs| && b != l
    requires sys'.bufs[b].dirty && sys'.bufs[b].sector == sys.bufs[b].sector
    requires !sys'.bufs[l].dirty && !sys.bufs[l].dirty
    requires forall i :: 0 <= i < |sys.bufs| && i != b && i != l ==> sys'.bufs[i] == sys.bufs[i]
    requires forall t :: t in sys'.lh <==> t in sys.lh || t == sys.bufs[b].sector
    ensures DirtyIsPinned(sys')
  {
    forall t | t in sys'.lh ensures DirtyIs(sys', t) {
      if t == sys.bufs[b].sector {
        assert sys'.bufs[b].dirty;
      } else {
        assert DirtyIs(sys, t);
        var c :| 0 <= c < |sys.bufs| && sys.bufs[c].dirty && sys.bufs[c].sector == t;
        assert sys'.bufs[c].dirty && sys'.bufs[c].sector == t;
      }
    }
  }

  /** A buffer of another sector is as right after a log write as before. */
  lemma LogWriteOther(g: Geometry, d: Disk, lh: seq<nat>, s: nat, data: Block, x: Buf)
    requires WellFormed(g, d) && g.Loggable(lh) && 2 <= s < g.start && |lh| < g.Capacity()
    requires var l := g.start + 1 + Absorb(lh, s);
      l < |d| && WellFormed(g, d[l := data]) && g.Loggable(Logged(lh, s)) && (x.cached ==> x.sector != s && x.sector != l)
    requires BufOk(g, d, lh, Active, x)
    ensures BufOk(g, d[g.start + 1 + Absorb(lh, s) := data], Logged(lh, s), Active, x)
  {
    hide Image, Overlay, Sectors;
    ImageAfterLog(g, d, lh, s, data);
  }

  lemma LogWriteBufs(g: Geometry, sys: Sys, b: nat, l: nat)
    requires Inv(g, sys) && Enabled(g, sys, LogWrite(b, l)) && b != l
    requires LogOk(g, Apply(g, sys, LogWrite(b, l)))
    ensures var sys' := Apply(g, sys, LogWrite(b, l));
      forall i :: 0 <= i < |sys'.bufs| ==> BufOk(g, sys'.disk, sys'.lh, sys'.phase, sys'.bufs[i])
  {
    hide Image;
    var sys' := Apply(g, sys, LogWrite(b, l));
    ImageAfterLog(g, sys.disk, sys.lh, sys.bufs[b].sector, sys.bufs[b].data);
    forall i | 0 <= i < |sys'.bufs| ensures BufOk(g, sys'.disk, sys'.lh, sys'.phase, sys'.bufs[i]) {
      assert BufOk(g, sys.disk, sys.lh, sys.phase, sys.bufs[i]);
      if i == b {
        assert ContentsOk(g, sys'.disk, sys'.lh, sys'.phase, sys.bufs[b].sector, sys.bufs[b].data);
      } else if i == l {
        assert sys'.bufs[i].data == sys'.disk[sys'.bufs[i].sector];
      } else {
        assert sys'.bufs[i] == sys.bufs[i];
        LogWriteOther(g, sys.disk, sys.lh, sys.bufs[b].sector, sys.bufs[b].data, sys.bufs[i]);
      }
    }
  }

  lemma LogWriteInv(g: Geometry, sys: Sys, b: nat, l: nat)
    requires Inv(g, sys) && Enabled(g, sys, LogWrite(b, l))
    ensures Inv(g, Apply(g, sys, LogWrite(b, l)))
  {
    hide Image, Install, Sectors;
    var sys' := Apply(g, sys, LogWrite(b, l));
    LoggedLoggable(g, sys.lh, sys.bufs[b].sector);
    assert LogOk(g, sys');
    LogWriteBufs(g, sys, b, l);
    assert DirtyIsPinned(sys') by { LogWriteDirty(sys, sys', b, l); }
    assert Unique(sys');
  }

  lemma LogWriteRefines(g: Geometry, sys: Sys, s: nat, data: Block, sys': Sys)
    requires LogOk(g, sys) && LogOk(g, sys') && sys.phase.Active? && sys'.phase.Active?
    requires 2 <= s < g.start && |sys.lh| < g.Capacity()
    requires sys'.disk == sys.disk[g.start + 1 + Absorb(sys.lh, s) := data] && sys'.lh == Logged(sys.lh, s)
    ensures StoreOf(g, sys') == Play(StoreOf(g, sys), Wrote(s, data))
  {
    ImageAfterLog(g, sys.disk, sys.lh, s, data);
    DurableIsImage(g, sys);
    DurableIsImage(g, sys');
  }

  lemma LogWriteStep(g: Geometry, sys: Sys, b: nat, l: nat)
    requires Inv(g, sys) && Enabled(g, sys, LogWrite(b, l))
    ensures Inv(g, Apply(g, sys, LogWrite(b, l)))
    ensures Refines(g, sys, LogWrite(b, l), Apply(g, sys, LogWrite(b, l)))
  {
    LogWriteInv(g, sys, b, l);
    LogWriteRefines(g, sys, sys.bufs[b].sector, sys.bufs[b].data, Apply(g, sys, LogWrite(b, l)));
  }

  /** Buffers after a header write: only the header's own buffer changes. */
  lemma HeaderBufs(g: Geometry, sys: Sys, sys': Sys, h: nat, data: Block)
    requires Inv(g, sys) && Has(sys, h, Txn, g.start) && LogOk(g, sys')
    requires sys'.disk == sys.disk[g.start := data] && !sys.phase.Boot? && !sys'.phase.Boot?
    requires sys'.bufs == sys.bufs[h := sys.bufs[h].(data := data, valid := true, dirty := false)]
    requires Image(g, sys'.disk, sys'.lh) == Image(g, sys.disk, sys.lh)
    requires sys.phase.Installing? ==> sys.phase.k == |sys.lh|
    requires sys'.phase.Installing? ==> !sys'.phase.recovering
    requires forall i :: 0 <= i < |sys.bufs| ==> !sys.bufs[i].unlogged
    ensures Unique(sys')
    ensures forall i :: 0 <= i < |sys'.bufs| ==> BufOk(g, sys'.disk, sys'.lh, sys'.phase, sys'.bufs[i])
  {
    forall i | 0 <= i < |sys'.bufs| ensures BufOk(g, sys'.disk, sys'.lh, sys'.phase, sys'.bufs[i]) {
      assert BufOk(g, sys.disk, sys.lh, sys.phase, sys.bufs[i]);
      assert i == h || (sys.bufs[i].cached ==> sys.bufs[i].sector != g.start);
    }
  }

  /** Dirtiness after a step that keeps every buffer's flag and the pinned set. */
  lemma SameDirty(sys: Sys, sys': Sys)
    requires DirtyIsPinned(sys) && |sys'.bufs| == |sys.bufs| && Pinned(sys') == Pinned(sys)
    requires forall i :: 0 <= i < |sys.bufs| ==>
               sys'.bufs[i].dirty == sys.bufs[i].dirty && sys'.bufs[i].sector == sys.bufs[i].sector
    ensures DirtyIsPinned(sys')
  {
    forall s | s in Pinned(sys') ensures DirtyIs(sys', s) {
      assert DirtyIs(sys, s);
      var c :| 0 <= c < |sys.bufs| && sys.bufs[c].dirty && sys.bufs[c].sector == s;
      assert sys'.bufs[c].dirty && sys'.bufs[c].sector == s;
    }
  }

  lemma HeaderClean(g: Geometry, sys: Sys, h: nat)
    requires Inv(g, sys) && Has(sys, h, Txn, g.start)
    ensures !sys.bufs[h].dirty && sys.bufs[h].data == sys.disk[g.start]
  {
    assert BufOk(g, sys.disk, sys.lh, sys.phase, sys.bufs[h]);
  }

  lemma WriteHeadStep(g: Geometry, sys: Sys, h: nat)
    requires Inv(g, sys) && Enabled(g, sys, WriteHead(h))
    ensures Inv(g, Apply(g, sys, WriteHead(h)))
    ensures Refines(g, sys, WriteHead(h), Apply(g, sys, WriteHead(h)))
  {
    var sys' := Apply(g, sys, WriteHead(h));
    HeaderClean(g, sys, h);
    HeaderRoundTrip(sys.bufs[h].data, sys.lh);
    assert LogOk(g, sys');
    var data := HeaderOf(sys.bufs[h].data, sys.lh);
    ImageAfterHeader(g, sys.disk, sys.lh, data);
    HeaderBufs(g, sys, sys', h, data);
    assert sys.lh[0..] == sys.lh;
    SameDirty(sys, sys');
    DurableIsImage(g, sys');
  }

  lemma ClearHeadStep(g: Geometry, sys: Sys, h: nat)
    requires Inv(g, sys) && Enabled(g, sys, ClearHead(h))
    ensures Inv(g, Apply(g, sys, ClearHead(h)))
    ensures Refines(g, sys, ClearHead(h), Apply(g, sys, ClearHead(h)))
  {
    hide Install, Word, Overlay;
    var sys' := Apply(g, sys, ClearHead(h));
    HeaderClean(g, sys, h);
    var data := HeaderOf(sys.bufs[h].data, []);
    HeaderRoundTrip(sys.bufs[h].data, []);
    assert LogOk(g, sys');
    ImageAfterHeader(g, sys.disk, [], data);
    ImageWhenInstalled(g, sys.disk, sys.lh);
    assert forall i :: 0 <= i < |sys.bufs| ==> BufOk(g, sys.disk, sys.lh, sys.phase, sys.bufs[i]);
    HeaderBufs(g, sys, sys', h, data);
    SameDirty(sys, sys');
    DurableIsImage(g, sys);
    DurableIsImage(g, sys');
  }

  lemma ReadHeadStep(g: Geometry, sys: Sys, h: nat)
    requires Inv(g, sys) && Enabled(g, sys, ReadHead(h))
    ensures Word(sys.bufs[h].data, 0) <= LOGSIZE
    ensures Inv(g, Apply(g, sys, ReadHead(h)))
    ensures Refines(g, sys, ReadHead(h), Apply(g, sys, ReadHead(h)))
  {
    HeaderClean(g, sys, h);
    var sys' := Apply(g, sys, ReadHead(h));
    assert LogOk(g, sys');
    SameDirty(sys, sys');
    forall i | 0 <= i < |sys'.bufs| ensures BufOk(g, sys'.disk, sys'.lh, sys'.phase, sys'.bufs[i]) {
      assert BufOk(g, sys.disk, sys.lh, sys.phase, sys.bufs[i]);
    }
    DurableIsImage(g, sys);
    DurableIsImage(g, sys');
  }

  lemma InstallDirty(sys: Sys, sys': Sys, b: nat)
    requires DirtyIsPinned(sys) && Unique(sys) && sys.phase.Installing? && sys.phase.k < |sys.lh|
    requires sys'.lh == sys.lh && sys'.phase == Installing(sys.phase.k + 1, sys.phase.recovering)
    requires forall i, j :: 0 <= i < j < |sys.lh| ==> sys.lh[i] != sys.lh[j]
    requires b < |sys.bufs| && sys.bufs[b].sector == sys.lh[sys.phase.k] && sys.bufs[b].cached
    requires forall i :: 0 <= i < |sys.bufs| && sys.bufs[i].dirty ==> sys.bufs[i].cached
    requires |sys'.bufs| == |sys.bufs| && !sys'.bufs[b].dirty
    requires forall i :: 0 <= i < |sys.bufs| && i != b ==> sys'.bufs[i] == sys.bufs[i]
    ensures DirtyIsPinned(sys')
  {
    var k := sys.phase.k;
    if !sys.phase.recovering {
      assert sys.lh[k..] == [sys.lh[k]] + sys.lh[k + 1..];
      assert sys.lh[k] !in sys.lh[k + 1..];
    }
    forall s | s in Pinned(sys') ensures DirtyIs(sys', s) {
      assert DirtyIs(sys, s);
      var c :| 0 <= c < |sys.bufs| && sys.bufs[c].dirty && sys.bufs[c].sector == s;
      assert sys'.bufs[c].dirty && sys'.bufs[c].sector == s;
    }
  }

  /** InstallOne written out. */
  ghost predicate Installed(g: Geometry, sys: Sys, b: nat, sys': Sys)
    requires sys.phase.Installing? && sys.phase.k < |sys.lh| && g.Fits(sys.disk) && g.Loggable(sys.lh)
  {
    var data := sys.disk[g.start + 1 + sys.phase.k];
    && Has(sys, b, Txn, sys.lh[sys.phase.k])
    && sys'.disk == sys.disk[sys.lh[sys.phase.k] := data]
    && sys'.bufs == sys.bufs[b := sys.bufs[b].(data := data, valid := true, dirty := false)]
    && sys'.lh == sys.lh && sys'.phase == Installing(sys.phase.k + 1, sys.phase.recovering)
  }

  lemma InstallOtherBuf(g: Geometry, d: Disk, lh: seq<nat>, k: nat, recovering: bool, x: Buf)
    requires WellFormed(g, d) && g.Loggable(lh) && k < |lh|
    requires BufOk(g, d, lh, Installing(k, recovering), x) && (x.cached ==> x.sector != lh[k])
    requires WellFormed(g, d[lh[k] := d[g.start + 1 + k]])
    ensures BufOk(g, d[lh[k] := d[g.start + 1 + k]], lh, Installing(k + 1, recovering), x)
  {
    ImageAfterInstall(g, d, lh, k);
    assert lh[k..] == [lh[k]] + lh[k + 1..];
  }

  lemma InstalledBuf(g: Geometry, d: Disk, lh: seq<nat>, k: nat, recovering: bool, x: Buf)
    requires WellFormed(g, d) && g.Loggable(lh) && k < |lh|
    requires x.cached && x.valid && !x.unlogged && x.sector == lh[k] && x.data == d[g.start + 1 + k]
    ensures BufOk(g, d, lh, Installing(k + 1, recovering), x)
  {
    OverlaySlot(g, d, lh, k);
    assert lh[k] !in lh[k + 1..];
  }

  lemma InstallBufs(g: Geometry, sys: Sys, sys': Sys, b: nat)
    requires LogOk(g, sys) && Unique(sys) && sys.phase.Installing? && sys.phase.k < |sys.lh|
    requires forall i :: 0 <= i < |sys.bufs| ==> BufOk(g, sys.disk, sys.lh, sys.phase, sys.bufs[i])
    requires Installed(g, sys, b, sys') && LogOk(g, sys')
    ensures forall i :: 0 <= i < |sys'.bufs| ==> BufOk(g, sys'.disk, sys'.lh, sys'.phase, sys'.bufs[i])
  {
    hide Image, ContentsOk, WellFormed;
    var k := sys.phase.k;
    forall i | 0 <= i < |sys'.bufs| ensures BufOk(g, sys'.disk, sys'.lh, sys'.phase, sys'.bufs[i]) {
      assert BufOk(g, sys.disk, sys.lh, sys.phase, sys.bufs[i]);
      if i == b {
        InstalledBuf(g, sys'.disk, sys.lh, k, sys.phase.recovering, sys'.bufs[b]);
      } else {
        InstallOtherBuf(g, sys.disk, sys.lh, k, sys.phase.recovering, sys.bufs[i]);
      }
    }
  }

  lemma InstallInv(g: Geometry, sys: Sys, b: nat, sys': Sys)
    requires Inv(g, sys) && sys.phase.Installing? && sys.phase.k < |sys.lh| && Installed(g, sys, b, sys')
    ensures Inv(g, sys')
  {
    assert LogOk(g, sys');
    InstallBufs(g, sys, sys', b);
    assert Unique(sys');
    assert DirtyIsPinned(sys') by {
      assert forall i :: 0 <= i < |sys.bufs| ==> BufOk(g, sys.disk, sys.lh, sys.phase, sys.bufs[i]);
      InstallDirty(sys, sys', b);
    }
  }

  lemma InstallRefines(g: Geometry, sys: Sys, b: nat, sys': Sys)
    requires LogOk(g, sys) && sys.phase.Installing? && sys.phase.k < |sys.lh| && Installed(g, sys, b, sys')
    requires LogOk(g, sys')
    ensures Durable(g, sys') == Durable(g, sys) && View(g, sys') == View(g, sys)
  {
    ImageAfterInstall(g, sys.disk, sys.lh, sys.phase.k);
    DurableIsImage(g, sys);
    DurableIsImage(g, sys');
  }

  lemma InstallStep(g: Geometry, sys: Sys, l: nat, b: nat)
    requires Inv(g, sys) && Enabled(g, sys, InstallOne(l, b))
    ensures Inv(g, Apply(g, sys, InstallOne(l, b)))
    ensures Refines(g, sys, InstallOne(l, b), Apply(g, sys, InstallOne(l, b)))
  {
    hide Image, DirtyIsPinned, Unique, Install, Word, Sectors;
    var sys' := Apply(g, sys, InstallOne(l, b));
    assert BufOk(g, sys.disk, sys.lh, sys.phase, sys.bufs[l]);
    InstallInv(g, sys, b, sys');
    InstallRefines(g, sys, b, sys');
  }

  /** Main step theorem: every step, by any process and at any moment, keeps the
      invariant, and the recovered image moves only at the header write. */
  lemma StepRefines(g: Geometry, sys: Sys, step: Step)
    requires Inv(g, sys) && Enabled(g, sys, step)
    ensures step.ReadHead? ==> Word(sys.bufs[step.h].data, 0) <= LOGSIZE
    ensures Inv(g, Apply(g, sys, step)) && Refines(g, sys, step, Apply(g, sys, step))
  {
    match step
    case LogWrite(b, l) => LogWriteStep(g, sys, b, l);
    case WriteHead(h) => WriteHeadStep(g, sys, h);
    case InstallOne(l, b) => InstallStep(g, sys, l, b);
    case ClearHead(h) => ClearHeadStep(g, sys, h);
    case ReadHead(h) => ReadHeadStep(g, sys, h);
    case _ => if IsBufferStep(step) { BufferStep(g, sys, step); } else { PhaseStep(g, sys, step); }
  }

  // ---------- whole runs ----------

  function PlayAll(st: Store, es: seq<Event>): Store {
    if es == [] then st else Play(PlayAll(st, es[..|es| - 1]), es[|es| - 1])
  }

  ghost predicate Next(g: Geometry, sys: Sys, step: Step, sys': Sys) {
    && g.Fits(sys.disk) && g.Loggable(sys.lh) && Enabled(g, sys, step)
    && (step.ReadHead? ==> Word(sys.bufs[step.h].data, 0) <= LOGSIZE)
    && sys' == Apply(g, sys, step)
  }

  ghost predicate IsRun(g: Geometry, states: seq<Sys>, steps: seq<Step>) {
    && |states| == |steps| + 1
    && forall i :: 0 <= i < |steps| ==> Next(g, states[i], steps[i], states[i + 1])
  }

  function Events(states: seq<Sys>, steps: seq<Step>): (es: seq<Event>)
    requires |steps| <= |states|
    ensures |es| == |steps|
  {
    seq(|steps|, i requires 0 <= i < |steps| => EventOf(states[i], steps[i]))
  }

  /** Power-on: any disk with a well-formed log, committed or not, and a cold cache. */
  ghost predicate PowerOn(g: Geometry, sys: Sys) {
    && WellFormed(g, sys.disk) && sys.lh == [] && sys.phase.Boot?
    && forall i :: 0 <= i < |sys.bufs| ==>
         !sys.bufs[i].cached && !sys.bufs[i].dirty && !sys.bufs[i].valid && !sys.bufs[i].unlogged
         && sys.bufs[i].who == Nobody
  }

  lemma StepPlays(g: Geometry, sys: Sys, step: Step, sys': Sys)
    requires Inv(g, sys) && Next(g, sys, step, sys')
    ensures Inv(g, sys') && Refines(g, sys, step, sys')
  {
    StepRefines(g, sys, step);
  }

  lemma PowerOnInv(g: Geometry, sys: Sys)
    requires PowerOn(g, sys)
    ensures Inv(g, sys)
  {
  }

  lemma RunPrefix(g: Geometry, states: seq<Sys>, steps: seq<Step>)
    requires IsRun(g, states, steps) && |steps| > 0
    ensures var n := |steps|;
      && IsRun(g, states[..n], steps[..n - 1])
      && Next(g, states[n - 1], steps[n - 1], states[n])
      && Events(states, steps)[..n - 1] == Events(states[..n], steps[..n - 1])
      && Events(states, steps)[n - 1] == EventOf(states[n - 1], steps[n - 1])
  {
    var n := |steps|;
    assert Next(g, states[n - 1], steps[n - 1], states[n - 1 + 1]);
  }

  /** Every run, with any interleaving of processes and any number of power cuts
      (also during recovery), keeps the invariant and refines the atomic store. */
  lemma {:induction false} RunRefines(g: Geometry, states: seq<Sys>, steps: seq<Step>)
    requires IsRun(g, states, steps) && PowerOn(g, states[0])
    ensures Inv(g, states[|steps|])
    ensures var d0 := Durable(g, states[0]);
      StoreOf(g, states[|steps|]) == PlayAll(Store(d0, d0), Events(states, steps))
    decreases |steps|
  {
    var n := |steps|;
    if n == 0 {
      PowerOnInv(g, states[0]);
    } else {
      RunPrefix(g, states, steps);
      RunRefines(g, states[..n], steps[..n - 1]);
      StepPlays(g, states[n - 1], steps[n - 1], states[n]);
    }
  }

  /** The writes of one transaction, in order, applied to a home image. */
  function Written(home: Disk, es: seq<Event>): (r: Disk)
    ensures |r| == |home|
  {
    if es == [] then home
    else
      var h := Written(home, es[..|es| - 1]);
      var e := es[|es| - 1];
      if e.Wrote? && e.s < |h| then h[e.s := e.data] else h
  }

  // ---------- what the invariant says about the cache ----------

  /** With nothing logged, disk, view and recovered image agree; unless a
      transaction runs, no buffer is dirty. */
  lemma BetweenTransactions(g: Geometry, sys: Sys)
    requires Inv(g, sys) && !sys.phase.Boot? && sys.lh == []
    ensures Home(g, sys.disk) == Durable(g, sys) == View(g, sys)
    ensures forall i :: 0 <= i < |sys.bufs| ==> !sys.bufs[i].dirty
  {
    DurableIsImage(g, sys);
    ImageWhenInstalled(g, sys.disk, []);
  }

  /** In every reachable state: at most one buffer per sector; outside a
      transaction's own edits a clean buffer nobody holds shows the disk; between
      transactions no buffer is dirty; while one runs the dirty buffers are exactly
      the sectors in log.lh. */
  lemma CacheAndLogAgree(g: Geometry, sys: Sys)
    requires Inv(g, sys)
    ensures forall i, j :: 0 <= i < j < |sys.bufs| && sys.bufs[i].cached && sys.bufs[j].cached ==>
              sys.bufs[i].sector != sys.bufs[j].sector
    ensures forall i :: 0 <= i < |sys.bufs| ==>
              (var b := sys.bufs[i];
               b.valid && !b.dirty && b.who == Nobody ==> b.data == sys.disk[b.sector])
    ensures sys.phase.Idle? || sys.phase.Closing? ==>
              forall i :: 0 <= i < |sys.bufs| ==> !sys.bufs[i].dirty
    ensures sys.phase.Active? ==> forall s :: s in sys.lh <==> DirtyIs(sys, s)
    ensures forall i :: 0 <= i < |sys.bufs| && sys.bufs[i].dirty && !sys.bufs[i].unlogged ==>
              sys.bufs[i].sector < g.start && sys.bufs[i].data == Image(g, sys.disk, sys.lh)[sys.bufs[i].sector]
  {
    forall i | 0 <= i < |sys.bufs|
      ensures var b := sys.bufs[i];
        b.valid && !b.dirty && b.who == Nobody ==> b.data == sys.disk[b.sector]
    {
      CleanShowsDisk(g, sys, i);
    }
    forall i | 0 <= i < |sys.bufs| && sys.bufs[i].dirty ensures sys.bufs[i].sector < g.start {
      assert sys.bufs[i].sector in sys.lh;
    }
  }

  lemma CleanShowsDisk(g: Geometry, sys: Sys, i: nat)
    requires Inv(g, sys) && i < |sys.bufs|
    ensures BufOk(g, sys.disk, sys.lh, sys.phase, sys.bufs[i])
    ensures var b := sys.bufs[i]; b.valid && !b.dirty && b.who == Nobody ==> b.data == sys.disk[b.sector]
  {
    var b := sys.bufs[i];
    if b.valid && !b.dirty && b.who == Nobody && b.sector in sys.lh {
      var k := SlotOf(sys.lh, b.sector);
      assert b.sector !in Pinned(sys);
      if sys.phase.Installing? && k >= sys.phase.k {
        assert sys.lh[sys.phase.k..][k - sys.phase.k] == b.sector;
      }
    }
  }

  /** No home sector reaches the disk before its transaction has committed:
      outside an install, whose log is committed, the home area does not change. */
  lemma NoEarlyWrite(g: Geometry, sys: Sys, step: Step, sys': Sys)
    requires Inv(g, sys) && Next(g, sys, step, sys')
    ensures !step.InstallOne? ==> Home(g, sys'.disk) == Home(g, sys.disk)
    ensures step.InstallOne? ==> Sectors(sys.disk[g.start]) == sys.lh != []
  {
  }

  ghost predicate StaysDirty(sys: Sys, sys': Sys, i: nat)
    requires i < |sys.bufs|
  {
    && i < |sys'.bufs| && sys'.bufs[i].dirty && sys'.bufs[i].cached
    && sys'.bufs[i].sector == sys.bufs[i].sector
  }

  /** A dirty buffer stays cached and dirty until its sector is installed. */
  lemma DirtyIsKept(g: Geometry, sys: Sys, step: Step, sys': Sys, i: nat)
    requires Inv(g, sys) && Next(g, sys, step, sys') && !step.Crash?
    requires i < |sys.bufs| && sys.bufs[i].dirty
    requires step.InstallOne? ==> step.b != i
    ensures StaysDirty(sys, sys', i)
  {
    hide Image, Install, Sectors, WellFormed, ContentsOk, HeaderOf, Word;
    assert BufOk(g, sys.disk, sys.lh, sys.phase, sys.bufs[i]);
    assert sys.bufs[i].sector in sys.lh;
  }
}
