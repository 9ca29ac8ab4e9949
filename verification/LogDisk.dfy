/** The on-disk redo log of log.c as functions of a disk image: the header
    sector, the logged blocks behind it, installation and recovery. */
module LogDisk {
  import opened Blocks

  const LOGSIZE := 10

  type Disk = seq<Block>

  /** log.start and log.size: the log is the tail of the disk, everything below
      `start` is the home area (initlog: start = sb.size - sb.nlog). */
  datatype Geometry = Geometry(start: nat, size: nat) {
    /** log_write refuses to go beyond this many logged sectors. */
    function Capacity(): int {
      if size - 1 < LOGSIZE then size - 1 else LOGSIZE
    }

    ghost predicate Fits(d: Disk) {
      2 <= start && 1 <= size && |d| == start + size && start < 0x8000_0000
    }

    /** Logged sectors: distinct, in the home area, never the superblock. */
    ghost predicate Loggable(secs: seq<nat>) {
      && |secs| <= Capacity()
      && (forall i :: 0 <= i < |secs| ==> 2 <= secs[i] < start)
      && (forall i, j :: 0 <= i < j < |secs| ==> secs[i] != secs[j])
    }
  }

  function Home(g: Geometry, d: Disk): Disk
    requires g.start <= |d|
  {
    d[..g.start]
  }

  // ---------- header ----------

  /** The sector list stored in a header block (read_head). */
  function Sectors(h: Block): (secs: seq<nat>)
    requires Word(h, 0) <= LOGSIZE
  {
    seq(Word(h, 0), i requires 0 <= i < LOGSIZE => Word(h, i + 1))
  }

  /** write_head's loop after k entries; entries beyond n keep their old value. */
  function FillHeader(h: Block, secs: seq<nat>, k: nat): (r: Block)
    requires k <= |secs| <= LOGSIZE
    requires forall i :: 0 <= i < |secs| ==> secs[i] < 0x8000_0000
    ensures Word(r, 0) == |secs|
    ensures forall i :: 0 <= i < k ==> Word(r, i + 1) == secs[i]
  {
    if k == 0 then WithWord(h, 0, |secs|)
    else WithWord(FillHeader(h, secs, k - 1), k, secs[k - 1])
  }

  /** What write_head puts into the header sector. */
  function HeaderOf(h: Block, secs: seq<nat>): Block
    requires |secs| <= LOGSIZE
    requires forall i :: 0 <= i < |secs| ==> secs[i] < 0x8000_0000
  {
    FillHeader(h, secs, |secs|)
  }

  /** Writing a header and reading it back gives the same sector list. */
  lemma HeaderRoundTrip(h: Block, secs: seq<nat>)
    requires |secs| <= LOGSIZE
    requires forall i :: 0 <= i < |secs| ==> secs[i] < 0x8000_0000
    ensures Sectors(HeaderOf(h, secs)) == secs
  {
    var r := HeaderOf(h, secs);
    forall i | 0 <= i < |secs| ensures Sectors(r)[i] == secs[i] {
      assert Word(r, i + 1) == secs[i];
    }
  }

  /** The header's bytes: the count in the first four, then four for each sector. */
  lemma HeaderBytes(h: Block, i: nat)
    requires Word(h, 0) <= LOGSIZE && i < |Sectors(h)|
    ensures |Sectors(h)| == Le32(h, 0) && Sectors(h)[i] == Le32(h, 4 * i + 4)
  {
  }

  ghost predicate WellFormed(g: Geometry, d: Disk) {
    && g.Fits(d)
    && Word(d[g.start], 0) <= LOGSIZE
    && g.Loggable(Sectors(d[g.start]))
  }

  // ---------- installation and recovery ----------

  /** Disk after install_trans has copied the first k logged blocks home. */
  function Install(g: Geometry, d: Disk, secs: seq<nat>, k: nat): (r: Disk)
    requires g.Fits(d) && g.Loggable(secs) && k <= |secs|
    ensures |r| == |d|
    ensures forall s :: g.start <= s < |d| ==> r[s] == d[s]
  {
    if k == 0 then d
    else Install(g, d, secs, k - 1)[secs[k - 1] := d[g.start + k]]
  }

  /** Disk after recover_from_log. */
  function Recover(g: Geometry, d: Disk): (r: Disk)
    requires WellFormed(g, d)
    ensures |r| == |d|
  {
    var secs := Sectors(d[g.start]);
    Install(g, d, secs, |secs|)[g.start := WithWord(d[g.start], 0, 0)]
  }

  /** Installation pointwise: logged sectors among the first k hold their logged
      block, every other sector is untouched. */
  lemma {:induction false} InstallAt(g: Geometry, d: Disk, secs: seq<nat>, k: nat, s: nat)
    requires g.Fits(d) && g.Loggable(secs) && k <= |secs| && s < |d|
    ensures forall i :: 0 <= i < k && secs[i] == s ==> Install(g, d, secs, k)[s] == d[g.start + 1 + i]
    ensures s !in secs[..k] ==> Install(g, d, secs, k)[s] == d[s]
  {
    if k > 0 {
      InstallAt(g, d, secs, k - 1, s);
      assert secs[..k] == secs[..k - 1] + [secs[k - 1]];
    }
  }

  /** Installing again from any partially installed disk gives the same disk:
      the log blocks are still there and every logged sector is rewritten. */
  lemma InstallAgain(g: Geometry, d: Disk, secs: seq<nat>, k: nat)
    requires g.Fits(d) && g.Loggable(secs) && k <= |secs|
    ensures Install(g, Install(g, d, secs, k), secs, |secs|) == Install(g, d, secs, |secs|)
  {
    var d', n := Install(g, d, secs, k), |secs|;
    forall s | 0 <= s < |d| ensures Install(g, d', secs, n)[s] == Install(g, d, secs, n)[s] {
      InstallAt(g, d', secs, n, s);
      InstallAt(g, d, secs, n, s);
      InstallAt(g, d, secs, k, s);
      if s in secs {
        var i :| 0 <= i < n && secs[i] == s;
      } else {
        assert s !in secs[..k] && s !in secs[..n];
      }
    }
  }

  /** A disk image that recover_from_log passes through, in the order of its
      sector writes: the installs one by one, then the cleared header. */
  ghost predicate RecoveryImage(g: Geometry, d: Disk, d': Disk)
    requires WellFormed(g, d)
  {
    var secs := Sectors(d[g.start]);
    d' == Recover(g, d) || exists k: nat :: k <= |secs| && d' == Install(g, d, secs, k)
  }

  /** Recovering from any point inside recovery reaches the same disk. */
  lemma RecoverFromInside(g: Geometry, d: Disk, d': Disk)
    requires WellFormed(g, d) && RecoveryImage(g, d, d')
    ensures WellFormed(g, d') && Recover(g, d') == Recover(g, d)
  {
    var secs, n := Sectors(d[g.start]), |Sectors(d[g.start])|;
    if d' == Recover(g, d) {
      assert Sectors(d'[g.start]) == [];
      var h := WithWord(d[g.start], 0, 0);
      WithWordTwice(d[g.start], 0, 0);
      assert Recover(g, d') == d'[g.start := h];
      assert d'[g.start := h] == d';
    } else {
      var k: nat :| k <= n && d' == Install(g, d, secs, k);
      InstallAgain(g, d, secs, k);
    }
  }

  lemma WithWordTwice(b: Block, i: nat, w: uint)
    requires i < WORDS
    ensures WithWord(WithWord(b, i, w), i, w) == WithWord(b, i, w)
  {
  }

  /** Recovery is restartable: let every image be one at which recovery of its
      predecessor was cut short. However many attempts there were, the next one
      that completes reaches the disk the first would have reached. */
  lemma {:induction false} RecoveryIsRestartable(g: Geometry, attempts: seq<Disk>)
    requires |attempts| > 0 && WellFormed(g, attempts[0])
    requires forall i :: 0 <= i < |attempts| - 1 ==>
               WellFormed(g, attempts[i]) ==> RecoveryImage(g, attempts[i], attempts[i + 1])
    ensures WellFormed(g, attempts[|attempts| - 1])
    ensures Recover(g, attempts[|attempts| - 1]) == Recover(g, attempts[0])
    ensures Sectors(Recover(g, attempts[0])[g.start]) == []
    decreases |attempts|
  {
    var n := |attempts|;
    if n > 1 {
      RecoveryIsRestartable(g, attempts[..n - 1]);
      assert RecoveryImage(g, attempts[n - 2], attempts[n - 2 + 1]);
      RecoverFromInside(g, attempts[n - 2], attempts[n - 1]);
    }
  }

  /** With an empty log, recovery leaves the home area alone. */
  lemma RecoverEmpty(g: Geometry, d: Disk)
    requires WellFormed(g, d) && Word(d[g.start], 0) == 0
    ensures Home(g, Recover(g, d)) == Home(g, d)
  {
  }
}
