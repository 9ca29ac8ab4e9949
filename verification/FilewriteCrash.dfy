/** A power cut anywhere in a filewrite: each of its chunks is a transaction of its own, and
    what the disk holds afterwards is the old contents under a prefix of the chunks. */
module FilewriteCrash {
  import opened Blocks
  import opened FsLayout
  import opened FsOwner
  import opened FsSpace
  import opened FileSystem
  import opened LogDisk
  import opened LogMachine
  import opened LogRuns
  import opened CrashSafety
  import NameLayer

  // ---- every stage is consistent ----

  lemma HasRoomLess(l: Layout, fs: Fs, i: nat, off: nat, n: nat, m: nat)
    requires Shape(l, fs) && i < l.ninodes && n <= m && EndBlock(off, m) <= MAXFILE && HasRoom(l, fs, i, off, m)
    ensures EndBlock(off, n) <= EndBlock(off, m) && HasRoom(l, fs, i, off, n)
  {
    hide FreeBelowLog, ZeroSlots, Missing;
    var lo, e, e' := off / BSIZE, EndBlock(off, n), EndBlock(off, m);
    MissingIsZeroSlots(fs, i, lo, e);
    MissingIsZeroSlots(fs, i, lo, e');
    MissingGrows(fs, i, lo, e, e');
  }

  /** A stage is consistent exactly if what it has written so far found room below the log. */
  lemma StageSettles(l: Layout, first: Stage, st: Stage, i: nat, off: nat, addr: seq<byte>)
    requires StageOk(l, first, st, i, off, addr) && Settled(l, first.fs, first.owner) && NoHoles(first.fs, i)
    ensures Settled(l, st.fs, st.owner) <==> st.n == 0 || HasRoom(l, first.fs, i, off, st.n)
  {
    hide Owns, NoHoles, WroteFile, Paid, AllMapped, EndBlock, Missing, ZeroSlots, FreeBelowLog, HomeFree;
    assert Synced(l, first.fs, i);
    OthersSynced(l, first.fs, st.fs, i);
    if st.n > 0 {
      PaidBounds(l, first.fs, first.owner, st.fs, st.owner, i, off / BSIZE, EndBlock(off, st.n));
      FreeBelowLogIs(l, first.fs, first.owner);
      MissingIsZeroSlots(first.fs, i, off / BSIZE, EndBlock(off, st.n));
    }
  }

  lemma {:induction false} StagesGrow(l: Layout, stages: seq<Stage>, txns: seq<seq<Event>>, i: nat, off: nat,
                                      addr: seq<byte>, k: nat, m: nat)
    requires Staged(l, stages, txns, i, off, addr) && k <= m <= |txns|
    ensures stages[k].n <= stages[m].n
    decreases m
  {
    hide StageOk;
    if k < m {
      StagesGrow(l, stages, txns, i, off, addr, k, m - 1);
      assert stages[m - 1].n <= stages[m - 1 + 1].n;
    }
  }

  lemma StageEnd(l: Layout, first: Stage, st: Stage, i: nat, off: nat, addr: seq<byte>)
    requires StageOk(l, first, st, i, off, addr)
    ensures st.n > 0 ==> EndBlock(off, st.n) <= MAXFILE
    ensures Shape(l, first.fs) && i < l.ninodes && Laid(first, st, i, off, addr)
  {
    hide Owns, NoHoles, WroteFile, AllMapped, EndBlock, Took, Synced;
  }

  /** With room below the log for all that is written, all stages are consistent. */
  lemma AllSettled(l: Layout, stages: seq<Stage>, txns: seq<seq<Event>>, i: nat, off: nat, addr: seq<byte>, k: nat)
    requires Staged(l, stages, txns, i, off, addr) && k <= |txns| && i < |stages[0].fs.inode|
    requires Settled(l, stages[0].fs, stages[0].owner) && NoHoles(stages[0].fs, i)
    requires Shape(l, stages[0].fs) && HasRoom(l, stages[0].fs, i, off, stages[|txns|].n)
    ensures Settled(l, stages[k].fs, stages[k].owner)
  {
    hide Settled, NoHoles, HasRoom, StageOk;
    var first, st, last := stages[0], stages[k], stages[|txns|];
    assert StageOk(l, first, st, i, off, addr) && StageOk(l, first, last, i, off, addr);
    StageEnd(l, first, last, i, off, addr);
    StagesGrow(l, stages, txns, i, off, addr, k, |txns|);
    if st.n > 0 {
      HasRoomLess(l, first.fs, i, off, st.n, last.n);
    }
    StageSettles(l, first, st, i, off, addr);
  }

  // ---- the run ----

  /** Where the j-th of the transactions starts from. */
  function EndOf(a: nat, marks: seq<(nat, nat)>, j: nat): nat
    requires j <= |marks|
  {
    if j == 0 then a else marks[j - 1].1
  }

  /** From the idle state a on the run has these transactions, one behind the other, each up
      to the next idle state; any of them may have been cut short. */
  ghost predicate InTurn(g: Geometry, states: seq<Sys>, steps: seq<Step>, a: nat, marks: seq<(nat, nat)>) {
    && IsRun(g, states, steps) && PowerOn(g, states[0]) && a <= |steps| && states[a].phase.Idle?
    && forall j :: 0 <= j < |marks| ==> Turn(g, states, steps, a, marks, j)
  }

  ghost predicate Turn(g: Geometry, states: seq<Sys>, steps: seq<Step>, a: nat, marks: seq<(nat, nat)>, j: nat)
    requires j < |marks|
  {
    && Transaction(g, states, steps, marks[j].0, marks[j].1)
    && EndOf(a, marks, j) <= marks[j].0 && NoBegin(steps, EndOf(a, marks, j), marks[j].0)
  }

  /** How many of the first j transactions had their header written. */
  ghost function Done(steps: seq<Step>, marks: seq<(nat, nat)>, j: nat): nat
    requires j <= |marks|
  {
    if j == 0 then 0 else Done(steps, marks, j - 1) + if Wrote(steps, marks[j - 1]) then 1 else 0
  }

  ghost predicate Wrote(steps: seq<Step>, m: (nat, nat)) {
    m.1 <= |steps| && HeaderWritten(steps, m.0, m.1)
  }

  /** The transactions that commit are those of the filewrite, in order. */
  ghost predicate Follows(states: seq<Sys>, steps: seq<Step>, marks: seq<(nat, nat)>, txns: seq<seq<Event>>) {
    forall j :: 0 <= j < |marks| && Wrote(steps, marks[j]) ==> Next(states, steps, marks, txns, j)
  }

  ghost predicate Next(states: seq<Sys>, steps: seq<Step>, marks: seq<(nat, nat)>, txns: seq<seq<Event>>, j: nat)
    requires j < |marks|
  {
    && Done(steps, marks, j) < |txns| && marks[j].1 <= |steps| <= |states|
    && Writes(states, steps, marks[j].0, marks[j].1) == txns[Done(steps, marks, j)]
  }

  lemma IdleHolds(l: Layout, fs: Fs, owner: Owner, g: Geometry, states: seq<Sys>, steps: seq<Step>, a: nat, e: nat)
    requires IsRun(g, states, steps) && PowerOn(g, states[0]) && Matches(g, l) && a <= e <= |steps|
    requires states[a].phase.Idle? && states[e].phase.Idle? && NoBegin(steps, a, e)
    requires Holds(l, states[a].disk, fs, owner)
    ensures Holds(l, states[e].disk, fs, owner)
  {
    hide Inv, LogMachine.Next, PowerOn, Holds, Durable;
    NothingBegins(g, states, steps, a, e);
    IdleHome(g, states[a]);
    IdleHome(g, states[e]);
    HoldsBounds(l, states[a].disk, fs, owner);
    HoldsMoves(l, fs, owner, states[a].disk, states[e].disk);
  }

  lemma TurnBegins(g: Geometry, states: seq<Sys>, steps: seq<Step>, a: nat, marks: seq<(nat, nat)>, j: nat)
    requires InTurn(g, states, steps, a, marks) && j < |marks|
    ensures EndOf(a, marks, j) <= |steps| && states[EndOf(a, marks, j)].phase.Idle?
    ensures marks[j].0 < |steps| && states[marks[j].0].phase.Idle? && marks[j].1 <= |steps|
  {
    hide LogMachine.Next, PowerOn;
    assert Turn(g, states, steps, a, marks, j);
    if j > 0 {
      assert Turn(g, states, steps, a, marks, j - 1);
    }
    BeginIdle(g, states, steps, marks[j].0);
  }

  /** After j of the transactions the disk holds the stage that their commits have reached. */
  lemma {:induction false} PrefixHeld(l: Layout, g: Geometry, states: seq<Sys>, steps: seq<Step>, a: nat, marks: seq<(nat, nat)>,
                                      stages: seq<Stage>, txns: seq<seq<Event>>, j: nat)
    requires InTurn(g, states, steps, a, marks) && Matches(g, l) && Follows(states, steps, marks, txns) && j <= |marks|
    requires |stages| == |txns| + 1 && Holds(l, states[a].disk, stages[0].fs, stages[0].owner)
    requires forall k :: 0 <= k < |stages| ==> Settled(l, stages[k].fs, stages[k].owner)
    requires forall k :: 0 <= k < |txns| ==> stages[k + 1].fs.img == Written(stages[k].fs.img, txns[k])
    ensures EndOf(a, marks, j) <= |steps| && Done(steps, marks, j) <= |txns|
    ensures var st := stages[Done(steps, marks, j)]; Holds(l, states[EndOf(a, marks, j)].disk, st.fs, st.owner)
    decreases j
  {
    hide Holds, Settled, LogMachine.Next, PowerOn, Inv, Writes, HeaderWritten, NoBegin, Transaction;
    if j > 0 {
      PrefixHeld(l, g, states, steps, a, marks, stages, txns, j - 1);
      TurnBegins(g, states, steps, a, marks, j - 1);
      assert Turn(g, states, steps, a, marks, j - 1);
      var k, m := Done(steps, marks, j - 1), marks[j - 1];
      var st := stages[k];
      IdleHolds(l, st.fs, st.owner, g, states, steps, EndOf(a, marks, j - 1), m.0);
      if Wrote(steps, m) {
        assert Next(states, steps, marks, txns, j - 1);
        assert stages[k + 1].fs.img == Written(stages[k].fs.img, txns[k]);
        CrashConsistent(l, st.fs, st.owner, stages[k + 1].fs, stages[k + 1].owner, g, states, steps, m.0, m.1);
      } else {
        CrashConsistent(l, st.fs, st.owner, st.fs, st.owner, g, states, steps, m.0, m.1);
      }
    }
  }

  /** File i of f has the contents it has in fs, with the data laid over them at off. */
  ghost predicate Shows(f: Fs, fs: Fs, i: nat, off: nat, data: seq<byte>) {
    && i < |f.inode| && i < |fs.inode| && f.inode[i].size <= MAXBYTES && fs.inode[i].size <= MAXBYTES
    && (data == [] ==> Contents(f, i) == Contents(fs, i))
    && (data != [] ==> off <= |Contents(fs, i)| && Contents(f, i) == Overwritten(Contents(fs, i), off, data))
  }

  /** The contents the disk itself shows. */
  lemma HeldContents(l: Layout, disk: seq<Block>, first: Stage, st: Stage, i: nat, off: nat, addr: seq<byte>)
    requires Holds(l, disk, st.fs, st.owner) && Laid(first, st, i, off, addr) && i < |st.fs.inode|
    ensures l.ninodes + 2 <= |disk| && st.n <= |addr| && Shows(OnDisk(l, disk), first.fs, i, off, addr[..st.n])
  {
    hide FileByte, Settled, Contents, Overwritten;
    NameLayer.ContentsSame(st.fs, OnDisk(l, disk), i);
  }

  /** A filewrite cut short. It starts on a disk that holds a consistent file system in which
      the file has no holes, and there is room below the log for what it gets to write; its
      transactions follow one another in the run, power being cut any number of times. Then
      the disk is consistent when the log is next idle, and the file has its old contents
      under a prefix of the data that ends at a chunk, one chunk for each header written. */
  lemma FilewriteSurvives(l: Layout, g: Geometry, states: seq<Sys>, steps: seq<Step>, a: nat, marks: seq<(nat, nat)>,
                          stages: seq<Stage>, txns: seq<seq<Event>>, i: nat, off: nat, addr: seq<byte>)
    requires Staged(l, stages, txns, i, off, addr) && Settled(l, stages[0].fs, stages[0].owner)
    requires i < |stages[0].fs.inode| && NoHoles(stages[0].fs, i) && stages[0].fs.inode[i].size <= MAXBYTES
    requires Shape(l, stages[0].fs) && HasRoom(l, stages[0].fs, i, off, stages[|txns|].n)
    requires InTurn(g, states, steps, a, marks) && Matches(g, l) && Follows(states, steps, marks, txns)
    requires Holds(l, states[a].disk, stages[0].fs, stages[0].owner)
    ensures EndOf(a, marks, |marks|) <= |steps| && Done(steps, marks, |marks|) <= |txns|
    ensures var disk, st := states[EndOf(a, marks, |marks|)].disk, stages[Done(steps, marks, |marks|)];
      && Holds(l, disk, st.fs, st.owner) && st.n <= |addr| && (st.n % 1536 == 0 || st.n == |addr|)
      && l.ninodes + 2 <= |disk| && Shows(OnDisk(l, disk), stages[0].fs, i, off, addr[..st.n])
  {
    hide Settled, Holds, NoHoles, HasRoom, StageOk, Turn, Follows, Contents, Overwritten, Matches, LogMachine.Next, PowerOn;
    forall k | 0 <= k < |stages| ensures Settled(l, stages[k].fs, stages[k].owner) {
      AllSettled(l, stages, txns, i, off, addr, k);
    }
    PrefixHeld(l, g, states, steps, a, marks, stages, txns, |marks|);
    var st := stages[Done(steps, marks, |marks|)];
    assert StageOk(l, stages[0], st, i, off, addr);
    StageEnd(l, stages[0], st, i, off, addr);
    StageInode(l, stages[0], st, i, off, addr);
    HeldContents(l, states[EndOf(a, marks, |marks|)].disk, stages[0], st, i, off, addr);
  }

  lemma StageInode(l: Layout, first: Stage, st: Stage, i: nat, off: nat, addr: seq<byte>)
    requires StageOk(l, first, st, i, off, addr)
    ensures i < |st.fs.inode|
  {
  }
}
