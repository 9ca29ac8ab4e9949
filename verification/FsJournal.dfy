/** The tape of log_write calls since begin_trans, and what it means that the calls on it
    account for every change of the transaction's image. */
module FsJournal {
  import opened Blocks
  import opened FsLayout
  import opened FsOwner
  import opened LogMachine

  /** The transaction's view of the disk, the sectors logged and the log_write calls. */
  datatype Journal = Journal(img: seq<Block>, logged: set<nat>, writes: seq<Event>)

  ghost function Targets(ws: seq<Event>): set<nat> {
    if ws == [] then {}
    else Targets(ws[..|ws| - 1]) + (if ws[|ws| - 1].Wrote? then {ws[|ws| - 1].s} else {})
  }

  ghost predicate AllWrote(ws: seq<Event>, n: nat) {
    forall k :: 0 <= k < |ws| ==> ws[k].Wrote? && ws[k].s < n
  }

  /** From a to b the tape has grown, and the log_write calls on it are exactly what turned
      a's image into b's: no change escapes the transaction. */
  ghost predicate Logs(a: Journal, b: Journal) {
    && |a.writes| <= |b.writes| && b.writes[..|a.writes|] == a.writes
    && Replays(a, b, b.writes[|a.writes|..])
  }

  ghost predicate Replays(a: Journal, b: Journal, ws: seq<Event>) {
    AllWrote(ws, |a.img|) && b.img == Written(a.img, ws) && b.logged == a.logged + Targets(ws)
  }

  lemma LogsSelf(a: Journal)
    ensures Logs(a, a)
  {
    assert a.writes[|a.writes|..] == [];
  }

  lemma {:induction false} WrittenMore(img: seq<Block>, x: seq<Event>, y: seq<Event>)
    ensures Written(img, x + y) == Written(Written(img, x), y)
    ensures Targets(x + y) == Targets(x) + Targets(y)
    decreases |y|
  {
    if y == [] {
      assert x + y == x;
    } else {
      WrittenMore(img, x, y[..|y| - 1]);
      assert (x + y)[..|x + y| - 1] == x + y[..|y| - 1];
    }
  }

  lemma LogsChain(a: Journal, b: Journal, c: Journal)
    requires Logs(a, b) && Logs(b, c)
    ensures Logs(a, c)
  {
    var x, y := b.writes[|a.writes|..], c.writes[|b.writes|..];
    assert c.writes[|a.writes|..] == x + y && c.writes[..|a.writes|] == a.writes;
    WrittenMore(a.img, x, y);
  }

  /** One log_write call. */
  ghost function OneWrite(a: Journal, s: nat, blk: Block): Journal
    requires s < |a.img|
  {
    Journal(a.img[s := blk], a.logged + {s}, a.writes + [Wrote(s, blk)])
  }

  lemma LogsWrite(a: Journal, s: nat, blk: Block)
    requires s < |a.img|
    ensures Logs(a, OneWrite(a, s, blk))
  {
    var ws := [Wrote(s, blk)];
    assert OneWrite(a, s, blk).writes[|a.writes|..] == ws && ws[..0] == [];
    assert Written(a.img, ws) == Written(a.img, ws[..0])[s := blk];
    assert Targets(ws) == Targets(ws[..0]) + {s};
  }

  lemma {:induction false} NotWritten(img: seq<Block>, ws: seq<Event>, s: nat)
    requires s < |img| && s !in Targets(ws)
    ensures Written(img, ws)[s] == img[s]
    decreases |ws|
  {
    if ws != [] {
      NotWritten(img, ws[..|ws| - 1], s);
    }
  }

  /** Every sector that changed was logged. */
  lemma LogsChanged(a: Journal, b: Journal)
    requires Logs(a, b)
    ensures |b.img| == |a.img| && a.logged <= b.logged
    ensures forall s: nat :: s < |a.img| && b.img[s] != a.img[s] ==> s in b.logged
  {
    var ws := b.writes[|a.writes|..];
    forall s: nat | s < |a.img| && b.img[s] != a.img[s]
      ensures s in b.logged
    {
      if s !in Targets(ws) {
        NotWritten(a.img, ws, s);
      }
    }
  }
}
