/** The inode layer on top of the log: a power cut at any moment of a transaction leaves,
    after recovery, a disk whose inodes own each block at most once and whose bitmap marks
    exactly the owned blocks. */
module CrashSafety {
  import opened Blocks
  import opened FsLayout
  import opened FsOwner
  import opened FsSpace
  import opened FsJournal
  import opened FileSystem
  import opened LogDisk
  import opened LogMachine
  import opened LogRuns
  import opened Directories
  import opened NameLayer
  import Paths
  import LruList
  import Storage

  /** The file system a disk holds, read from the disk alone. */
  ghost function OnDisk(l: Layout, img: seq<Block>): Fs
    requires l.ninodes + 2 <= |img|
  {
    Fs(img, seq(l.ninodes, i requires 0 <= i < l.ninodes => DecodeInode(img[l.Iblock(i)])))
  }

  ghost predicate AllSynced(l: Layout, fs: Fs)
    requires Shape(l, fs)
  {
    forall i: nat :: i < l.ninodes ==> Synced(l, fs, i)
  }

  /** Between transactions: ownership holds and every inode on disk is up to date. */
  ghost predicate Settled(l: Layout, fs: Fs, owner: Owner) {
    Owns(l, fs, owner) && AllSynced(l, fs) && InHome(l, owner)
  }

  ghost predicate SameHome(l: Layout, img: seq<Block>, img': seq<Block>) {
    |img'| == |img| && forall s :: 0 <= s < l.LogStart() && s < |img| ==> img'[s] == img[s]
  }

  lemma OnDiskIs(l: Layout, fs: Fs)
    requires Shape(l, fs) && AllSynced(l, fs)
    ensures OnDisk(l, fs.img) == fs
  {
    forall i: nat | i < l.ninodes
      ensures OnDisk(l, fs.img).inode[i] == fs.inode[i]
    {
      assert Synced(l, fs, i);
    }
  }

  /** What stands in the log area does not matter to the file system. */
  lemma LogAreaIrrelevant(l: Layout, fs: Fs, owner: Owner, img: seq<Block>)
    requires Settled(l, fs, owner) && SameHome(l, fs.img, img)
    ensures Settled(l, Fs(img, fs.inode), owner) && OnDisk(l, img) == Fs(img, fs.inode)
    ensures forall i: nat, pos: nat :: i < l.ninodes && pos < MAXBYTES ==>
              FileByte(Fs(img, fs.inode), i, pos) == FileByte(fs, i, pos)
  {
    var fs' := Fs(img, fs.inode);
    forall i: nat, k: nat | i < l.ninodes && k < SLOTS
      ensures SlotAddr(fs', i, k) == SlotAddr(fs, i, k)
    {
      SlotsKept(l, fs, owner, img, i, k);
    }
    OwnsKept(l, fs, owner, fs');
    forall i: nat | i < l.ninodes
      ensures Synced(l, fs', i)
    {
      assert Synced(l, fs, i);
    }
    OnDiskIs(l, fs');
    forall i: nat, pos: nat | i < l.ninodes && pos < MAXBYTES
      ensures FileByte(fs', i, pos) == FileByte(fs, i, pos)
    {
      var k := SlotFor(pos / BSIZE);
      if SlotAddr(fs, i, k) != 0 {
        SlotInRange(l, fs, owner, i, k);
      }
    }
  }

  lemma SlotsKept(l: Layout, fs: Fs, owner: Owner, img: seq<Block>, i: nat, k: nat)
    requires Settled(l, fs, owner) && SameHome(l, fs.img, img) && i < l.ninodes && k < SLOTS
    ensures SlotAddr(Fs(img, fs.inode), i, k) == SlotAddr(fs, i, k)
  {
    var a := fs.inode[i].addrs[NDIRECT];
    if k > NDIRECT && a != 0 {
      assert SlotAddr(fs, i, NDIRECT) == a;
      SlotInRange(l, fs, owner, i, NDIRECT);
    }
  }

  lemma OwnsKept(l: Layout, fs: Fs, owner: Owner, fs': Fs)
    requires Owns(l, fs, owner) && SameHome(l, fs.img, fs'.img) && fs'.inode == fs.inode
    requires forall i: nat, k: nat :: i < l.ninodes && k < SLOTS ==> SlotAddr(fs', i, k) == SlotAddr(fs, i, k)
    ensures Owns(l, fs', owner)
  {
    hide SlotAddr;
    forall b | 0 <= b < l.size
      ensures Marked(l, fs'.img, b) <==> Marked(l, fs.img, b)
    {
      BblockBound(l, b);
    }
    forall b | b in owner
      ensures OwnerOk(l, fs', owner, b)
    {
      assert OwnerOk(l, fs, owner, b);
    }
    forall i: nat, k: nat | i < l.ninodes && k < SLOTS
      ensures SlotOk(fs', owner, i, k)
    {
      assert SlotOk(fs, owner, i, k);
    }
  }

  // ---- Transactions and runs ----

  /** The disk holds this file system: it is consistent, and every inode and every byte of
      every file read from the disk alone is the given one. */
  ghost predicate Holds(l: Layout, disk: seq<Block>, fs: Fs, owner: Owner) {
    && |disk| == l.size && l.ninodes + 2 <= |disk| && SameHome(l, fs.img, disk)
    && Settled(l, OnDisk(l, disk), owner) && OnDisk(l, disk).inode == fs.inode
    && SameBytes(fs, OnDisk(l, disk))
  }

  /** The log writes ws lead from one consistent file system to another. */
  ghost predicate Carries(l: Layout, fs: Fs, owner: Owner, fs': Fs, owner': Owner, ws: seq<Event>) {
    Settled(l, fs, owner) && Settled(l, fs', owner') && fs'.img == Written(fs.img, ws)
  }

  lemma HomeHolds(l: Layout, fs: Fs, owner: Owner, disk: seq<Block>)
    requires Settled(l, fs, owner) && |disk| == l.size && disk[..l.LogStart()] == fs.img[..l.LogStart()]
    ensures Holds(l, disk, fs, owner)
  {
    hide FileByte;
    assert forall s :: 0 <= s < l.LogStart() ==> disk[..l.LogStart()][s] == disk[s];
    assert forall s :: 0 <= s < l.LogStart() ==> fs.img[..l.LogStart()][s] == fs.img[s];
    LogAreaIrrelevant(l, fs, owner, disk);
  }

  /** The home area does not care about writes elsewhere. */
  lemma {:induction false} WrittenHome(img: seq<Block>, ws: seq<Event>, n: nat)
    requires n <= |img|
    ensures Written(img, ws)[..n] == Written(img[..n], ws)
    decreases |ws|
  {
    if ws != [] {
      WrittenHome(img, ws[..|ws| - 1], n);
    }
  }

  ghost predicate Matches(g: Geometry, l: Layout) {
    g.start == l.LogStart() && g.size == l.nlog
  }

  lemma Bounds(l: Layout, fs: Fs, owner: Owner)
    requires Settled(l, fs, owner)
    ensures 0 <= l.LogStart() <= |fs.img| == l.size && l.ninodes + 2 <= l.size
  {
  }

  /** Crash consistency. A file-system operation runs as one transaction from a disk that
      holds fs; power may be cut at any step, any number of times, other processes read along.
      When the log is next idle the disk holds the new file system if the header of the
      transaction was written, and the old one otherwise. */
  lemma CrashConsistent(l: Layout, fs: Fs, owner: Owner, fs': Fs, owner': Owner,
                        g: Geometry, states: seq<Sys>, steps: seq<Step>, a: nat, e: nat)
    requires Transaction(g, states, steps, a, e) && Matches(g, l) && Holds(l, states[a].disk, fs, owner)
    requires HeaderWritten(steps, a, e) ==> Carries(l, fs, owner, fs', owner', Writes(states, steps, a, e))
    ensures if HeaderWritten(steps, a, e) then Holds(l, states[e].disk, fs', owner')
            else Holds(l, states[e].disk, fs, owner)
  {
    hide Settled, Holds, Writes, HeaderWritten, Next, PowerOn, NoBegin, Inv;
    TransactionIsAtomic(g, states, steps, a, e);
    IdleFits(g, states, steps, a, e);
    HoldsBounds(l, states[a].disk, fs, owner);
    if HeaderWritten(steps, a, e) {
      Bounds(l, fs', owner');
      WrittenHome(fs.img, Writes(states, steps, a, e), l.LogStart());
      HomeHolds(l, fs', owner', states[e].disk);
    } else {
      HoldsMoves(l, fs, owner, states[a].disk, states[e].disk);
    }
  }

  lemma HoldsBounds(l: Layout, disk: seq<Block>, fs: Fs, owner: Owner)
    requires Holds(l, disk, fs, owner)
    ensures 0 <= l.LogStart() <= |fs.img| == |disk| == l.size
    ensures disk[..l.LogStart()] == fs.img[..l.LogStart()]
  {
    Bounds(l, OnDisk(l, disk), owner);
  }

  lemma HoldsMoves(l: Layout, fs: Fs, owner: Owner, disk: seq<Block>, disk': seq<Block>)
    requires Holds(l, disk, fs, owner) && 0 <= l.LogStart() <= |disk|
    requires |disk'| == l.size && disk'[..l.LogStart()] == disk[..l.LogStart()]
    ensures Holds(l, disk', fs, owner)
  {
    hide Settled, FileByte;
    HomeHolds(l, OnDisk(l, disk), owner, disk');
  }

  lemma IdleFits(g: Geometry, states: seq<Sys>, steps: seq<Step>, a: nat, e: nat)
    requires Transaction(g, states, steps, a, e)
    ensures |states[e].disk| == g.start + g.size
  {
    hide Inv, Next, PowerOn;
    RunInv(g, states, steps, e);
    HomeFits(g, states[e]);
  }

  // ---- Every idle state of a run ----

  ghost function OnDiskOf(l: Layout, disk: seq<Block>): Fs {
    if l.ninodes + 2 <= |disk| then OnDisk(l, disk) else Fs([], [])
  }

  ghost predicate Consistent(l: Layout, disk: seq<Block>) {
    exists owner :: Settled(l, OnDiskOf(l, disk), owner)
  }

  /** ws are the log writes of some file-system operation on fs. */
  ghost predicate Lawful(l: Layout, fs: Fs, owner: Owner, ws: seq<Event>) {
    exists fs', owner' :: Carries(l, fs, owner, fs', owner', ws)
  }

  /** Every committed transaction of the run is a file-system operation on what the disk held
      when it began. */
  ghost predicate Disciplined(l: Layout, g: Geometry, states: seq<Sys>, steps: seq<Step>) {
    forall a: nat, e: nat, owner: Owner ::
      Transaction(g, states, steps, a, e) && HeaderWritten(steps, a, e) && Settled(l, OnDiskOf(l, states[a].disk), owner) ==>
      Lawful(l, OnDiskOf(l, states[a].disk), owner, Writes(states, steps, a, e))
  }

  lemma {:induction false} LastBegin(steps: seq<Step>, n: nat) returns (a: nat)
    requires n <= |steps| && !NoBegin(steps, 0, n)
    ensures a < n && steps[a].Begin? && NoBegin(steps, a + 1, n)
  {
    if steps[n - 1].Begin? {
      a := n - 1;
    } else {
      a := LastBegin(steps, n - 1);
    }
  }

  lemma SettledHolds(l: Layout, fs: Fs, owner: Owner, disk: seq<Block>)
    requires Holds(l, disk, fs, owner)
    ensures Settled(l, OnDiskOf(l, disk), owner)
  {
  }

  /** Consistency depends on the home area alone. */
  lemma SameHomeConsistent(l: Layout, d: seq<Block>, d': seq<Block>)
    requires Consistent(l, d) && |d'| == l.size && 0 <= l.LogStart() <= |d| && l.LogStart() <= l.size
    requires d'[..l.LogStart()] == d[..l.LogStart()]
    ensures Consistent(l, d')
  {
    hide Settled, Holds;
    var owner :| Settled(l, OnDiskOf(l, d), owner);
    Bounds(l, OnDiskOf(l, d), owner);
    HomeHolds(l, OnDiskOf(l, d), owner, d');
    SettledHolds(l, OnDiskOf(l, d), owner, d');
  }

  lemma IdleHome(g: Geometry, sys: Sys)
    requires Inv(g, sys) && sys.phase.Idle?
    ensures |sys.disk| == g.start + g.size && Home(g, sys.disk) == Durable(g, sys)
  {
    hide Inv, Durable, View;
    IdleEmpty(g, sys);
    HomeFits(g, sys);
    BetweenTransactions(g, sys);
  }

  /** In every run that starts from a disk which recovers to a consistent file system, and
      whose transactions are file-system operations, the disk is consistent whenever the log
      is idle, however often power was cut on the way. */
  lemma {:induction false} EveryIdleStateIsConsistent(l: Layout, g: Geometry, states: seq<Sys>, steps: seq<Step>, n: nat)
    requires IsRun(g, states, steps) && PowerOn(g, states[0]) && Matches(g, l) && Disciplined(l, g, states, steps)
    requires Consistent(l, Recover(g, states[0].disk))
    requires n <= |steps| && states[n].phase.Idle?
    ensures Consistent(l, states[n].disk)
    decreases n
  {
    hide Inv, Next, Settled, Holds, Consistent, HeaderWritten, Writes, Carries, Disciplined;
    RunInv(g, states, steps, n);
    IdleHome(g, states[n]);
    if NoBegin(steps, 0, n) {
      NothingBegins(g, states, steps, 0, n);
      RecoverHome(g, states[0]);
      SameHomeConsistent(l, Recover(g, states[0].disk), states[n].disk);
    } else {
      var a := LastBegin(steps, n);
      BeginIdle(g, states, steps, a);
      EveryIdleStateIsConsistent(l, g, states, steps, a);
      assert Transaction(g, states, steps, a, n) by { IsTransaction(g, states, steps, a, n); }
      ConsistentAcross(l, g, states, steps, a, n);
    }
  }

  lemma IsTransaction(g: Geometry, states: seq<Sys>, steps: seq<Step>, a: nat, e: nat)
    requires IsRun(g, states, steps) && PowerOn(g, states[0])
    requires a < e <= |steps| && steps[a].Begin? && NoBegin(steps, a + 1, e) && states[e].phase.Idle?
    ensures Transaction(g, states, steps, a, e)
  {
  }

  lemma RecoverHome(g: Geometry, sys: Sys)
    requires PowerOn(g, sys)
    ensures Durable(g, sys) == Recover(g, sys.disk)[..g.start] && |Recover(g, sys.disk)| == g.start + g.size
    ensures !sys.phase.Active?
  {
  }

  lemma BeginIdle(g: Geometry, states: seq<Sys>, steps: seq<Step>, a: nat)
    requires IsRun(g, states, steps) && a < |steps| && steps[a].Begin?
    ensures states[a].phase.Idle?
  {
    StepAt(g, states, steps, a);
    PhaseMoves(g, states[a], steps[a], states[a + 1]);
  }

  lemma ConsistentAcross(l: Layout, g: Geometry, states: seq<Sys>, steps: seq<Step>, a: nat, e: nat)
    requires Transaction(g, states, steps, a, e) && Matches(g, l) && Disciplined(l, g, states, steps)
    requires Consistent(l, states[a].disk)
    ensures Consistent(l, states[e].disk)
  {
    hide Settled, Holds, HeaderWritten, Writes, Inv, Next, PowerOn, NoBegin;
    var owner :| Settled(l, OnDiskOf(l, states[a].disk), owner);
    var fs := OnDiskOf(l, states[a].disk);
    Bounds(l, fs, owner);
    if HeaderWritten(steps, a, e) {
      assert Lawful(l, fs, owner, Writes(states, steps, a, e));
      var fs', owner' :| Carries(l, fs, owner, fs', owner', Writes(states, steps, a, e));
      HomeHolds(l, fs, owner, states[a].disk);
      CrashConsistent(l, fs, owner, fs', owner', g, states, steps, a, e);
      SettledHolds(l, fs', owner', states[e].disk);
    } else {
      HomeHolds(l, fs, owner, states[a].disk);
      CrashConsistent(l, fs, owner, fs, owner, g, states, steps, a, e);
      SettledHolds(l, fs, owner, states[e].disk);
    }
  }

  // ---- The operations are such transactions ----

  /** The operations of the inode and name layers that change the disk. */
  datatype Op =
    | Write(i: nat, off: nat, src: seq<byte>)
    | Truncate(i: nat)
    | Free(i: nat)
    | Link(i: nat, nm: seq<byte>, inum: nat)

  /** What the operation does to a consistent file system, as one transaction. */
  ghost predicate Performed(l: Layout, op: Op, fs: Fs, owner: Owner, fs': Fs, owner': Owner, ws: seq<Event>) {
    && Shape(l, fs) && Shape(l, fs') && Owns(l, fs', owner') && fs'.img == Written(fs.img, ws)
    && match op
       case Write(i, off, src) => Rewrote(l, fs, owner, fs', owner', i, off, src)
       case Truncate(i) => i < l.ninodes && Truncated(l, fs, owner, fs', owner', i) && Emptied(l, fs, fs', i)
       case Free(i) =>
         && i < l.ninodes && Truncated(l, fs, owner, fs', owner', i) && Emptied(l, fs, fs', i) && fs'.inode[i].kind == 0
       case Link(i, nm, inum) => Linked(l, fs, owner, fs', owner', i, nm, inum)
  }

  ghost predicate Rewrote(l: Layout, fs: Fs, owner: Owner, fs': Fs, owner': Owner, i: nat, off: nat, src: seq<byte>) {
    && Shape(l, fs) && Shape(l, fs') && i < l.ninodes && fs.inode[i].size <= MAXBYTES && EndBlock(off, |src|) <= MAXFILE
    && WroteFile(fs, fs', i, off, src)
    && Took(l, owner, owner', Missing(fs, i, off / BSIZE, EndBlock(off, |src|)))
    && OneInode(l, fs, fs', i) && (Synced(l, fs', i) <==> KeepsInode(fs, i, off, |src|))
  }

  /** The other inodes and their sectors are untouched. */
  ghost predicate OneInode(l: Layout, fs: Fs, fs': Fs, i: nat)
    requires Shape(l, fs) && Shape(l, fs')
  {
    && (forall j :: 0 <= j < l.ninodes && j != i ==> fs'.inode[j] == fs.inode[j])
    && (forall s :: 0 <= s < l.ninodes + 3 && s != l.Iblock(i) ==> fs'.img[s] == fs.img[s])
  }

  ghost predicate Emptied(l: Layout, fs: Fs, fs': Fs, i: nat)
    requires Shape(l, fs) && Shape(l, fs') && i < l.ninodes
  {
    Synced(l, fs', i) && OneInode(l, fs, fs', i)
  }

  /** When the operation leaves a consistent disk, as can be told before it. */
  ghost predicate Allowed(l: Layout, op: Op, fs: Fs)
    requires Shape(l, fs)
  {
    match op
    case Write(i, off, src) => i < l.ninodes && HasRoom(l, fs, i, off, |src|) && KeepsInode(fs, i, off, |src|)
    case Link(i, nm, inum) => i < l.ninodes && LinkRoom(l, fs, i) && LinkKeepsInode(fs, i)
    case _ => true
  }

  /** Exactly the allowed operations lead from a consistent disk to a consistent disk. */
  lemma PerformedCarries(l: Layout, op: Op, fs: Fs, owner: Owner, fs': Fs, owner': Owner, ws: seq<Event>)
    requires Settled(l, fs, owner) && Performed(l, op, fs, owner, fs', owner', ws)
    ensures Carries(l, fs, owner, fs', owner', ws) <==> Allowed(l, op, fs)
  {
    hide Settled, Linked, Truncated, HasRoom, LinkRoom, LinkKeepsInode, KeepsInode, Owns, WroteFile, Took, Missing, EndBlock;
    match op
    case Write(i, off, src) => WriteSettles(l, fs, owner, fs', owner', i, off, |src|);
    case Truncate(i) => TruncateSettles(l, fs, owner, fs', owner', i);
    case Free(i) => TruncateSettles(l, fs, owner, fs', owner', i);
    case Link(i, nm, inum) =>
      LinkedParts(l, fs, owner, fs', owner', i, nm, inum);
      LinkSettles(l, fs, owner, fs', owner', i, nm, inum);
  }

  /** Every committed transaction of the run is one of the operations, performed on what the
      disk held when it began, and allowed there. */
  ghost predicate Operates(l: Layout, g: Geometry, states: seq<Sys>, steps: seq<Step>) {
    forall a: nat, e: nat, owner: Owner ::
      Transaction(g, states, steps, a, e) && HeaderWritten(steps, a, e) && Settled(l, OnDiskOf(l, states[a].disk), owner) ==>
      IsOperation(l, OnDiskOf(l, states[a].disk), owner, LogRuns.Writes(states, steps, a, e))
  }

  ghost predicate IsOperation(l: Layout, fs: Fs, owner: Owner, ws: seq<Event>) {
    Shape(l, fs) && exists op, fs', owner' :: Performed(l, op, fs, owner, fs', owner', ws) && Allowed(l, op, fs)
  }

  /** Runs built from writei, itrunc, the freeing iput and dirlink keep the disk consistent. */
  lemma OperationsKeepConsistency(l: Layout, g: Geometry, states: seq<Sys>, steps: seq<Step>, n: nat)
    requires IsRun(g, states, steps) && PowerOn(g, states[0]) && Matches(g, l) && Operates(l, g, states, steps)
    requires Consistent(l, Recover(g, states[0].disk)) && n <= |steps| && states[n].phase.Idle?
    ensures Disciplined(l, g, states, steps) && Consistent(l, states[n].disk)
  {
    hide Settled, Consistent, HeaderWritten, LogRuns.Writes, Next, PowerOn, NoBegin, Performed, Allowed, Inv;
    forall a: nat, e: nat, owner: Owner |
      Transaction(g, states, steps, a, e) && HeaderWritten(steps, a, e) && Settled(l, OnDiskOf(l, states[a].disk), owner)
      ensures Lawful(l, OnDiskOf(l, states[a].disk), owner, LogRuns.Writes(states, steps, a, e))
    {
      var fs, ws := OnDiskOf(l, states[a].disk), LogRuns.Writes(states, steps, a, e);
      assert IsOperation(l, fs, owner, ws);
      OperationLawful(l, fs, owner, ws);
    }
    EveryIdleStateIsConsistent(l, g, states, steps, n);
  }

  lemma OperationLawful(l: Layout, fs: Fs, owner: Owner, ws: seq<Event>)
    requires Settled(l, fs, owner) && IsOperation(l, fs, owner, ws)
    ensures Lawful(l, fs, owner, ws)
  {
    hide Settled, Performed, Allowed;
    SettledShape(l, fs, owner);
    var op, fs', owner' :| Performed(l, op, fs, owner, fs', owner', ws) && Allowed(l, op, fs);
    PerformedCarries(l, op, fs, owner, fs', owner', ws);
  }

  lemma OthersSynced(l: Layout, fs: Fs, fs': Fs, i: nat)
    requires Shape(l, fs) && Shape(l, fs') && AllSynced(l, fs) && i < l.ninodes
    requires forall j :: 0 <= j < l.ninodes && j != i ==> fs'.inode[j] == fs.inode[j]
    requires forall s :: 0 <= s < l.ninodes + 3 && s != l.Iblock(i) ==> fs'.img[s] == fs.img[s]
    ensures AllSynced(l, fs') <==> Synced(l, fs', i)
  {
    if Synced(l, fs', i) {
      forall j: nat | j < l.ninodes
        ensures Synced(l, fs', j)
      {
        assert Synced(l, fs, j);
      }
    }
  }

  /** What the bitmap shows as free below the log. */
  ghost function FreeBelowLog(l: Layout, img: seq<Block>): set<nat>
    requires l.Ok() && |img| == l.size
  {
    set b: nat | b < l.LogStart() && !Marked(l, img, b)
  }

  lemma FreeBelowLogIs(l: Layout, fs: Fs, owner: Owner)
    requires Owns(l, fs, owner)
    ensures FreeBelowLog(l, fs.img) == HomeFree(l, owner)
  {
    hide Marked, OwnerOk, SlotOk;
    forall b: nat | b < l.size
      ensures b in FreeBelowLog(l, fs.img) <==> b in HomeFree(l, owner)
    {
      HomeFreeIs(l, fs, owner, b);
    }
  }

  /** The write has the blocks it needs without touching the log. */
  ghost predicate HasRoom(l: Layout, fs: Fs, i: nat, off: nat, n: nat)
    requires Shape(l, fs) && i < l.ninodes
  {
    |FreeBelowLog(l, fs.img)| >= |ZeroSlots(fs, i, off / BSIZE, EndBlock(off, n))|
  }

  /** The inode on disk does not fall behind: the file grows, or no address in the inode is new. */
  ghost predicate KeepsInode(fs: Fs, i: nat, off: nat, n: nat)
    requires i < |fs.inode|
  {
    off + n > fs.inode[i].size || AllReady(fs, i, off / BSIZE, EndBlock(off, n))
  }

  lemma WriteSettles(l: Layout, fs: Fs, owner: Owner, fs': Fs, owner': Owner, i: nat, off: nat, n: nat)
    requires Settled(l, fs, owner) && Owns(l, fs', owner') && i < l.ninodes && EndBlock(off, n) <= MAXFILE
    requires Took(l, owner, owner', Missing(fs, i, off / BSIZE, EndBlock(off, n)))
    requires forall j :: 0 <= j < l.ninodes && j != i ==> fs'.inode[j] == fs.inode[j]
    requires forall s :: 0 <= s < l.ninodes + 3 && s != l.Iblock(i) ==> fs'.img[s] == fs.img[s]
    requires Synced(l, fs', i) <==> KeepsInode(fs, i, off, n)
    ensures Settled(l, fs', owner') <==> HasRoom(l, fs, i, off, n) && KeepsInode(fs, i, off, n)
  {
    hide Owns, EndBlock, Missing, ZeroSlots, FreeBelowLog, HomeFree, AllReady;
    OwnsShape(l, fs, owner);
    OwnsShape(l, fs', owner');
    OthersSynced(l, fs, fs', i);
    FreeBelowLogIs(l, fs, owner);
    MissingIsZeroSlots(fs, i, off / BSIZE, EndBlock(off, n));
  }

  lemma LogsReplay(a: Journal, b: Journal)
    requires Logs(a, b) && a.writes == []
    ensures b.img == Written(a.img, b.writes)
  {
    assert b.writes[0..] == b.writes;
  }

  /** writei as one transaction. Afterwards the disk is consistent again exactly if there was
      room for the write below the log and the inode on disk did not fall behind; for a file
      without holes the latter always holds. */
  method WriteTransaction(fs: FileSystem, i: nat, off: uint, src: seq<byte>) returns (r: Io<nat>)
    requires Settled(fs.l, fs.State(), fs.owner) && fs.writes == [] && i < fs.l.ninodes
    requires fs.inode[i].size <= MAXBYTES && fs.inode[i].kind != T_DEV && |src| < 0x1_0000_0000
    modifies fs
    ensures r.Failed? ==> fs.State() == old(fs.State()) && fs.owner == old(fs.owner) && fs.writes == []
    ensures r.Done? ==> |fs.inode| == fs.l.ninodes && WroteFile(old(fs.State()), fs.State(), i, off, src)
    ensures r.Done? ==>
              (Settled(fs.l, fs.State(), fs.owner) <==>
               HasRoom(fs.l, old(fs.State()), i, off, |src|) && KeepsInode(old(fs.State()), i, off, |src|))
    ensures r.Done? ==> Performed(fs.l, Write(i, off, src), old(fs.State()), old(fs.owner), fs.State(), fs.owner, fs.writes)
    ensures r.Done? && Settled(fs.l, fs.State(), fs.owner) ==>
              Carries(fs.l, old(fs.State()), old(fs.owner), fs.State(), fs.owner, fs.writes)
    ensures r.Done? && NoHoles(old(fs.State()), i) ==>
              NoHoles(fs.State(), i) && KeepsInode(old(fs.State()), i, off, |src|)
  {
    hide Owns, NoHoles, WroteFile, Logs, TouchedBlocks, AllReady, Full, EndBlock, InHome, Took, Missing, HasRoom, Paid, Grew;
    ghost var before := fs.State();
    OwnsShape(fs.l, before, fs.owner);
    assert Synced(fs.l, before, i);
    r := fs.Writei(i, off, src);
    OwnsShape(fs.l, fs.State(), fs.owner);
    if r.Done? {
      if NoHoles(before, i) {
        NoHolesMapped(before, i, off, |src|);
      }
      PaidBounds(fs.l, before, old(fs.owner), fs.State(), fs.owner, i, off / BSIZE, EndBlock(off, |src|));
      WriteSettles(fs.l, before, old(fs.owner), fs.State(), fs.owner, i, off, |src|);
      LogsReplay(old(fs.Tape()), fs.Tape());
    }
  }

  lemma TruncateSettles(l: Layout, fs: Fs, owner: Owner, fs': Fs, owner': Owner, i: nat)
    requires Settled(l, fs, owner) && i < l.ninodes && Truncated(l, fs, owner, fs', owner', i)
    requires Shape(l, fs') && Emptied(l, fs, fs', i)
    ensures Settled(l, fs', owner')
  {
    hide Owns, Marked, SlotAddr, FileByte;
    OwnsShape(l, fs, owner);
    OthersSynced(l, fs, fs', i);
  }

  lemma TruncatedOwned(l: Layout, fs: Fs, owner: Owner, fs': Fs, owner': Owner, i: nat)
    requires i < l.ninodes && Truncated(l, fs, owner, fs', owner', i)
    ensures Owns(l, fs', owner') && Shape(l, fs) && Shape(l, fs')
    ensures forall j :: 0 <= j < l.ninodes && j != i ==> fs'.inode[j] == fs.inode[j]
  {
  }

  /** itrunc as one transaction: it always leads to a consistent disk. */
  method TruncateTransaction(fs: FileSystem, i: nat)
    requires Settled(fs.l, fs.State(), fs.owner) && fs.writes == [] && i < fs.l.ninodes
    modifies fs
    ensures Performed(fs.l, Truncate(i), old(fs.State()), old(fs.owner), fs.State(), fs.owner, fs.writes)
    ensures Carries(fs.l, old(fs.State()), old(fs.owner), fs.State(), fs.owner, fs.writes)
  {
    hide Owns, Truncated, Logs, InHome, AllSynced, Bitmap, Carries;
    fs.Itrunc(i);
    LogsReplay(old(fs.Tape()), fs.Tape());
    TruncatedOwned(fs.l, old(fs.State()), old(fs.owner), fs.State(), fs.owner, i);
    PerformedCarries(fs.l, Truncate(i), old(fs.State()), old(fs.owner), fs.State(), fs.owner, fs.writes);
  }

  /** The last iput of an unlinked file as one transaction: its blocks and its inode are free,
      and the disk is consistent. */
  method FreeTransaction(fs: FileSystem, i: nat)
    requires Settled(fs.l, fs.State(), fs.owner) && fs.writes == [] && i < fs.l.ninodes
    modifies fs
    ensures Performed(fs.l, Free(i), old(fs.State()), old(fs.owner), fs.State(), fs.owner, fs.writes)
    ensures Carries(fs.l, old(fs.State()), old(fs.owner), fs.State(), fs.owner, fs.writes)
  {
    hide Owns, Truncated, Logs, InHome, AllSynced, Bitmap, Carries;
    fs.FreeInode(i);
    LogsReplay(old(fs.Tape()), fs.Tape());
    TruncatedOwned(fs.l, old(fs.State()), old(fs.owner), fs.State(), fs.owner, i);
    PerformedCarries(fs.l, Free(i), old(fs.State()), old(fs.owner), fs.State(), fs.owner, fs.writes);
  }

  /** A link settles exactly if the blocks the directory lacks, with the new entry, are free
      below the log, and the inode on disk does not fall behind. */
  lemma LinkSettles(l: Layout, fs: Fs, owner: Owner, fs': Fs, owner': Owner, i: nat, nm: seq<byte>, inum: nat)
    requires Settled(l, fs, owner) && Owns(l, fs', owner') && Linked(l, fs, owner, fs', owner', i, nm, inum)
    ensures Settled(l, fs', owner') <==> LinkRoom(l, fs, i) && LinkKeepsInode(fs, i)
  {
    hide Owns, EndBlock, Missing, ZeroSlots, FreeBelowLog, HomeFree, AllReady, Contents, LinkedSize, SlotAddr, Linked;
    hide HasEmpty, Synced, Paid;
    LinkedParts(l, fs, owner, fs', owner', i, nm, inum);
    assert Synced(l, fs, i);
    OthersSynced(l, fs, fs', i);
    FreeBelowLogIs(l, fs, owner);
    LinkSizes(fs, fs', i);
    var e := EndBlock(0, fs'.inode[i].size);
    PaidBounds(l, fs, owner, fs', owner', i, 0, e);
    MissingIsZeroSlots(fs, i, 0, e);
  }

  lemma LinkedParts(l: Layout, fs: Fs, owner: Owner, fs': Fs, owner': Owner, i: nat, nm: seq<byte>, inum: nat)
    requires Linked(l, fs, owner, fs', owner', i, nm, inum)
    ensures Shape(l, fs) && Shape(l, fs') && i < l.ninodes && fs.inode[i].size <= MAXBYTES
    ensures fs'.inode[i].size == LinkedSize(Contents(fs, i))
    ensures Paid(l, fs, owner, fs', owner', i, 0, EndBlock(0, fs'.inode[i].size))
    ensures forall j :: 0 <= j < l.ninodes && j != i ==> fs'.inode[j] == fs.inode[j]
    ensures forall s :: 0 <= s < l.ninodes + 3 && s != l.Iblock(i) ==> fs'.img[s] == fs.img[s]
    ensures Synced(l, fs, i) ==>
              (Synced(l, fs', i) <==>
               fs'.inode[i].size > fs.inode[i].size || AllReady(fs, i, 0, EndBlock(0, fs.inode[i].size)))
  {
    hide Paid, Contents, LinkedSize, EndBlock, AllReady, Synced;
  }

  lemma LinkSizes(fs: Fs, fs': Fs, i: nat)
    requires i < |fs.inode| && i < |fs'.inode| && fs.inode[i].size <= MAXBYTES
    requires fs'.inode[i].size == LinkedSize(Contents(fs, i))
    ensures fs'.inode[i].size > fs.inode[i].size <==> !HasEmpty(Contents(fs, i))
  {
  }

  ghost predicate LinkRoom(l: Layout, fs: Fs, i: nat)
    requires Shape(l, fs) && i < l.ninodes
  {
    && fs.inode[i].size <= MAXBYTES
    && |FreeBelowLog(l, fs.img)| >= |ZeroSlots(fs, i, 0, EndBlock(0, LinkedSize(Contents(fs, i))))|
  }

  ghost predicate LinkKeepsInode(fs: Fs, i: nat)
    requires i < |fs.inode|
  {
    && fs.inode[i].size <= MAXBYTES
    && (!HasEmpty(Contents(fs, i)) || AllReady(fs, i, 0, EndBlock(0, fs.inode[i].size)))
  }

  /** dirlink as one transaction. */
  method LinkTransaction(names: Names, k: nat, name: seq<byte>, inum: nat) returns (r: Res<bool>)
    requires names.Inv() && Settled(names.fs.l, names.fs.State(), names.fs.owner) && names.fs.writes == []
    requires k < NINODE && names.cache[k].ref > 0 && names.cache[k].valid && names.cache[k].inum < names.fs.l.ninodes
    requires names.fs.inode[names.cache[k].inum].kind == T_DIR && 0 < inum < 0x1_0000
    modifies names.cache, names.fs
    ensures r == Ok(true) ==>
      var fs := names.fs; var i := old(names.cache[k]).inum; var f := old(names.fs.State());
      && Performed(fs.l, Link(i, CStr(name, Paths.DIRSIZ), inum), f, old(fs.owner), fs.State(), fs.owner, fs.writes)
      && (Settled(fs.l, fs.State(), fs.owner) <==> LinkRoom(fs.l, f, i) && LinkKeepsInode(f, i))
      && (Settled(fs.l, fs.State(), fs.owner) ==> Carries(fs.l, f, old(fs.owner), fs.State(), fs.owner, fs.writes))
  {
    hide Owns, Logs, Linked, NameInv, Settled, LinkRoom, LinkKeepsInode, CStr, Lookup, Contents, SameBytes, Full;
    var fs := names.fs;
    ghost var f, tape := fs.State(), fs.Tape();
    assert Shape(fs.l, f) by { SettledShape(fs.l, f, fs.owner); }
    r := names.Dirlink(k, name, inum);
    if r == Ok(true) {
      LinkSettles(fs.l, f, old(names.fs.owner), fs.State(), fs.owner, old(names.cache[k]).inum, CStr(name, Paths.DIRSIZ), inum);
      LogsReplay(tape, fs.Tape());
      OwnsShape(fs.l, fs.State(), fs.owner);
    }
  }

  lemma SettledShape(l: Layout, fs: Fs, owner: Owner)
    requires Settled(l, fs, owner)
    ensures Shape(l, fs)
  {
  }

  // ---- The cache is large enough for filewrite ----

  /** A chunk of filewrite works on at most four blocks of the file, the indirect block, the
      inode and the bitmap. As long as it holds and has logged no others, bget finds it a
      buffer if the other processes hold at most two, less the bitmap sectors beyond the first. */
  lemma ChunkHasBuffers(l: Layout, fs: Fs, i: nat, off: nat, n: nat, g: Geometry, sys: Sys)
    requires i < |fs.inode| && 0 < n <= 1536 && EndBlock(off, n) <= MAXFILE
    requires Inv(g, sys) && sys.phase.Active? && |sys.bufs| == LruList.NBUF
    requires var t := {l.Iblock(i)} + TouchedBlocks(l, fs, i, off / BSIZE, EndBlock(off, n));
      && (forall b :: 0 <= b < |sys.bufs| && sys.bufs[b].who == Txn ==> sys.bufs[b].sector in t)
      && (forall s :: s in sys.lh ==> s in t)
    requires |Storage.HeldBy(sys.bufs, Reader)| + l.size / BPB <= 2
    ensures Storage.HasRoom(sys.bufs)
  {
    hide Inv, TouchedBlocks, EndBlock;
    var t := {l.Iblock(i)} + TouchedBlocks(l, fs, i, off / BSIZE, EndBlock(off, n));
    ChunkLogs(l, fs, i, off, n, t, true);
    Storage.TransactionHasRoom(g, sys, t);
  }
}
