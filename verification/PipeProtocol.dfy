/** The blocking protocol of pipe.c: any number of processes reading, writing,
    closing and being killed. A step is what one process does while it holds
    p->lock; sleep gives the lock up without losing a wakeup (module SleepWakeup). */
module PipeProtocol {
  import opened Blocks
  import opened Pipe

  /** What a process's last call came to: ok is false for the result -1. A write began when
      `from` bytes had ever been put in. */
  datatype Outcome =
    | Nothing
    | Wrote(src: seq<byte>, from: nat, ok: bool)
    | Got(want: int, dst: seq<byte>, ok: bool)

  datatype Actor =
    | Idle(last: Outcome)
    | Reading(want: int, asleep: bool)
    | Writing(src: seq<byte>, from: nat, put: nat, asleep: bool)

  /** written and taken are the bytes ever put in and taken out; author says who put them in. */
  datatype State = State(
    q: seq<byte>, readopen: bool, writeopen: bool, actors: seq<Actor>, killed: seq<bool>,
    written: seq<byte>, author: seq<nat>, taken: seq<byte>)

  datatype Step =
    | StartRead(p: nat, n: int)
    | StartWrite(p: nat, src: seq<byte>)
    | RunReader(p: nat)
    | RunWriter(p: nat)
    | CloseRead
    | CloseWrite
    | Kill(p: nat)

  ghost predicate Shape(s: State) {
    && |s.killed| == |s.actors|
    && |s.q| <= PIPESIZE
    && s.written == s.taken + s.q
    && |s.author| == |s.written|
    && forall p :: 0 <= p < |s.actors| && s.actors[p].Writing? ==> s.actors[p].put <= |s.actors[p].src|
  }

  /** An end stays open while a process is inside piperead or pipewrite on it. */
  ghost predicate EndsOpen(s: State) {
    forall p :: 0 <= p < |s.actors| ==>
      && (s.actors[p].Reading? ==> s.readopen)
      && (s.actors[p].Writing? ==> s.writeopen)
  }

  ghost predicate Inv(s: State) {
    Shape(s) && EndsOpen(s)
  }

  /** Who may sleep: readers only on an empty pipe with its write end open,
      writers only on a full pipe with its read end open. */
  ghost predicate SleepOk(s: State) {
    forall p :: 0 <= p < |s.actors| ==>
      && (s.actors[p].Reading? && s.actors[p].asleep ==> s.q == [] && s.writeopen)
      && (s.actors[p].Writing? && s.actors[p].asleep ==> |s.q| == PIPESIZE && s.readopen)
  }

  function Awake(a: Actor): Actor {
    match a
    case Idle(_) => a
    case Reading(want, _) => Reading(want, false)
    case Writing(src, from, put, _) => Writing(src, from, put, false)
  }

  function WakeReaders(actors: seq<Actor>): seq<Actor> {
    seq(|actors|, i requires 0 <= i < |actors| =>
      if actors[i].Reading? then Awake(actors[i]) else actors[i])
  }

  function WakeWriters(actors: seq<Actor>): seq<Actor> {
    seq(|actors|, i requires 0 <= i < |actors| =>
      if actors[i].Writing? then Awake(actors[i]) else actors[i])
  }

  ghost predicate Enabled(s: State, step: Step) {
    match step
    case StartRead(p, _) => p < |s.actors| && s.actors[p].Idle? && s.readopen
    case StartWrite(p, _) => p < |s.actors| && s.actors[p].Idle? && s.writeopen
    case RunReader(p) => p < |s.actors| && s.actors[p].Reading? && !s.actors[p].asleep
    case RunWriter(p) => p < |s.actors| && s.actors[p].Writing? && !s.actors[p].asleep
    case CloseRead => s.readopen && forall p :: 0 <= p < |s.actors| ==> !s.actors[p].Reading?
    case CloseWrite => s.writeopen && forall p :: 0 <= p < |s.actors| ==> !s.actors[p].Writing?
    case Kill(p) => p < |s.actors|
  }

  /** pipewrite from taking the lock to giving it up. */
  ghost function Write(s: State, p: nat): State
    requires Shape(s) && Enabled(s, RunWriter(p))
  {
    var a := s.actors[p];
    var rest := a.src[a.put..];
    var turn := WriterTurn(s.q, s.readopen, s.killed[p], rest);
    var k := turn.moved;
    var others := if turn.wakes then WakeReaders(s.actors) else s.actors;
    s.(q := s.q + rest[..k], written := s.written + rest[..k], author := s.author + seq(k, _ => p),
       actors := others[p := if turn.verdict.Sleeps? then Writing(a.src, a.from, a.put + k, true)
                             else Idle(Wrote(a.src, a.from, turn.verdict.Done?))])
  }

  /** piperead from taking the lock to giving it up. */
  ghost function Read(s: State, p: nat): State
    requires Shape(s) && Enabled(s, RunReader(p))
  {
    var want := s.actors[p].want;
    var turn := ReaderTurn(s.q, s.writeopen, s.killed[p], want);
    var k := turn.moved;
    var others := if turn.wakes then WakeWriters(s.actors) else s.actors;
    s.(q := s.q[k..], taken := s.taken + s.q[..k],
       actors := others[p := if turn.verdict.Sleeps? then Reading(want, true)
                             else Idle(Got(want, s.q[..k], turn.verdict.Done?))])
  }

  ghost function Next(s: State, step: Step): State
    requires Shape(s) && Enabled(s, step)
  {
    match step
    case StartRead(p, n) => s.(actors := s.actors[p := Reading(n, false)])
    case StartWrite(p, src) => s.(actors := s.actors[p := Writing(src, |s.written|, 0, false)])
    case RunReader(p) => Read(s, p)
    case RunWriter(p) => Write(s, p)
    case CloseRead => s.(readopen := false, actors := WakeWriters(s.actors))
    case CloseWrite => s.(writeopen := false, actors := WakeReaders(s.actors))
    case Kill(p) =>
      s.(killed := s.killed[p := true],
         actors := s.actors[p := Awake(s.actors[p])])
  }

  ghost predicate ReaderAsleep(s: State) {
    exists p :: 0 <= p < |s.actors| && s.actors[p].Reading? && s.actors[p].asleep
  }

  /** A killed writer with more than a ring of bytes left gives up without a wakeup. */
  ghost predicate Abandons(s: State, step: Step) {
    && step.RunWriter? && step.p < |s.actors| && s.actors[step.p].Writing?
    && step.p < |s.killed| && s.killed[step.p]
    && |s.actors[step.p].src| - s.actors[step.p].put > PIPESIZE
    && ReaderAsleep(s)
  }

  lemma WriteKeepsInv(s: State, p: nat)
    requires Inv(s) && Enabled(s, RunWriter(p))
    ensures Inv(Write(s, p))
  {
    var rest := s.actors[p].src[s.actors[p].put..];
    var k := WriterTurn(s.q, s.readopen, s.killed[p], rest).moved;
    assert s.written + rest[..k] == s.taken + (s.q + rest[..k]);
  }

  lemma ReadKeepsInv(s: State, p: nat)
    requires Inv(s) && Enabled(s, RunReader(p))
    ensures Inv(Read(s, p))
  {
    var k := ReaderTurn(s.q, s.writeopen, s.killed[p], s.actors[p].want).moved;
    assert s.taken + s.q == s.taken + s.q[..k] + s.q[k..];
  }

  lemma StepKeepsInv(s: State, step: Step)
    requires Inv(s) && Enabled(s, step)
    ensures Inv(Next(s, step))
  {
    hide Write, Read;
    match step
    case RunWriter(p) => WriteKeepsInv(s, p);
    case RunReader(p) => ReadKeepsInv(s, p);
    case _ =>
  }

  /** The exact case in which a step breaks the sleeping rule. */
  lemma StepKeepsSleepOk(s: State, step: Step)
    requires Inv(s) && SleepOk(s) && Enabled(s, step)
    ensures SleepOk(Next(s, step)) <==> !Abandons(s, step)
  {
    match step
    case RunWriter(p) =>
      if Abandons(s, step) {
        var r :| 0 <= r < |s.actors| && s.actors[r].Reading? && s.actors[r].asleep;
        assert s.q == [];
        assert Next(s, step).actors[r] == s.actors[r];
      } else {
        WriteKeepsSleepOk(s, p);
      }
    case RunReader(p) => ReadKeepsSleepOk(s, p);
    case _ =>
  }

  lemma WriteKeepsSleepOk(s: State, p: nat)
    requires Inv(s) && SleepOk(s) && Enabled(s, RunWriter(p)) && !Abandons(s, RunWriter(p))
    ensures SleepOk(Write(s, p))
  {
    var t := Write(s, p);
    forall r | 0 <= r < |t.actors|
      ensures t.actors[r].Reading? && t.actors[r].asleep ==> t.q == [] && t.writeopen
      ensures t.actors[r].Writing? && t.actors[r].asleep ==> |t.q| == PIPESIZE && t.readopen
    {
    }
  }

  lemma ReadKeepsSleepOk(s: State, p: nat)
    requires Inv(s) && SleepOk(s) && Enabled(s, RunReader(p))
    ensures SleepOk(Read(s, p))
  {
  }

  ghost predicate IsRun(run: seq<State>, steps: seq<Step>) {
    && |run| == |steps| + 1
    && forall i :: 0 <= i < |steps| ==> Taken(run, steps, i)
  }

  ghost predicate Taken(run: seq<State>, steps: seq<Step>, i: nat)
    requires i < |steps| && |run| == |steps| + 1
  {
    Shape(run[i]) && Enabled(run[i], steps[i]) && run[i + 1] == Next(run[i], steps[i])
  }

  /** A new pipe with processes outside it. */
  ghost predicate Initial(s: State) {
    && s.q == [] && s.written == [] && s.author == [] && s.taken == [] && s.readopen && s.writeopen
    && |s.killed| == |s.actors|
    && (forall p :: 0 <= p < |s.actors| ==> s.actors[p] == Idle(Nothing))
  }

  /** First in, first out over every run, kills included: what has been read is a
      prefix of what has been written, and at most 512 bytes behind it. */
  lemma {:induction false} ReadIsPrefix(run: seq<State>, steps: seq<Step>, i: nat)
    requires IsRun(run, steps) && Initial(run[0]) && i <= |steps|
    ensures Inv(run[i])
    ensures run[i].taken <= run[i].written
    ensures |run[i].written| - |run[i].taken| <= PIPESIZE
  {
    if i > 0 {
      ReadIsPrefix(run, steps, i - 1);
      assert Taken(run, steps, i - 1);
      StepKeepsInv(run[i - 1], steps[i - 1]);
    }
  }

  // ---- what the calls return ----

  /** Those of the bytes that process p put in. */
  ghost function BytesBy(written: seq<byte>, author: seq<nat>, p: nat): seq<byte>
    requires |author| == |written|
  {
    if written == [] then []
    else
      var n := |written| - 1;
      BytesBy(written[..n], author[..n], p) + (if author[n] == p then [written[n]] else [])
  }

  lemma {:induction false} BytesByMore(written: seq<byte>, author: seq<nat>, more: seq<byte>, w: nat, p: nat)
    requires |author| == |written|
    ensures BytesBy(written + more, author + seq(|more|, _ => w), p) ==
            BytesBy(written, author, p) + (if w == p then more else [])
    decreases |more|
  {
    var ws, bs := written + more, author + seq(|more|, _ => w);
    if more == [] {
      assert ws == written && bs == author;
    } else {
      var n := |more| - 1;
      BytesByMore(written, author, more[..n], w, p);
      assert ws[..|ws| - 1] == written + more[..n] && bs[..|ws| - 1] == author + seq(n, _ => w);
      assert more == more[..n] + [more[n]];
    }
  }

  /** What p has put into the pipe since `from` bytes were in. */
  ghost function Since(written: seq<byte>, author: seq<nat>, p: nat, from: nat): seq<byte>
    requires |author| == |written| && from <= |written|
  {
    BytesBy(written[from..], author[from..], p)
  }

  /** A writer has put in exactly the bytes it has passed, in order; a write that returned
      success has put in all of its bytes, one that returned -1 a part of them. */
  ghost predicate Told(s: State, p: nat)
    requires |s.author| == |s.written| && p < |s.actors|
  {
    match s.actors[p]
    case Writing(src, from, put, _) =>
      from <= |s.written| && put <= |src| && Since(s.written, s.author, p, from) == src[..put]
    case Idle(Wrote(src, from, ok)) =>
      from <= |s.written| && Since(s.written, s.author, p, from) <= src && (ok <==> Since(s.written, s.author, p, from) == src)
    case _ => true
  }

  ghost predicate AllTold(s: State) {
    |s.author| == |s.written| && forall p: nat :: p < |s.actors| ==> Told(s, p)
  }

  lemma SinceMore(s: State, t: State, more: seq<byte>, w: nat, p: nat, from: nat)
    requires |s.author| == |s.written| && from <= |s.written|
    requires t.written == s.written + more && t.author == s.author + seq(|more|, _ => w)
    ensures Since(t.written, t.author, p, from) == Since(s.written, s.author, p, from) + (if w == p then more else [])
  {
    assert t.written[from..] == s.written[from..] + more;
    assert t.author[from..] == s.author[from..] + seq(|more|, _ => w);
    BytesByMore(s.written[from..], s.author[from..], more, w, p);
  }

  lemma WriteTells(s: State, w: nat, p: nat)
    requires Inv(s) && Enabled(s, RunWriter(w)) && p < |s.actors| && Told(s, p)
    ensures Told(Write(s, w), p)
  {
    hide Since;
    var a, t := s.actors[w], Write(s, w);
    var rest := a.src[a.put..];
    var k := WriterTurn(s.q, s.readopen, s.killed[w], rest).moved;
    var from := if s.actors[p].Writing? then s.actors[p].from
                else if s.actors[p].Idle? && s.actors[p].last.Wrote? then s.actors[p].last.from else 0;
    if from <= |s.written| {
      SinceMore(s, t, rest[..k], w, p, from);
    }
    if p == w {
      assert a.src[..a.put] + rest[..k] == a.src[..a.put + k];
    }
  }

  lemma StepTells(s: State, step: Step)
    requires Inv(s) && AllTold(s) && Enabled(s, step)
    ensures AllTold(Next(s, step))
  {
    hide Since;
    var t := Next(s, step);
    forall p: nat | p < |t.actors|
      ensures |t.author| == |t.written| && Told(t, p)
    {
      match step
      case RunWriter(w) => WriteTells(s, w, p);
      case StartWrite(w, src) =>
        assert Since(t.written, t.author, w, |t.written|) == [] by { NothingSince(t, w); }
        assert Told(s, p);
      case _ => assert Told(s, p);
    }
  }

  lemma NothingSince(s: State, p: nat)
    requires |s.author| == |s.written|
    ensures Since(s.written, s.author, p, |s.written|) == []
  {
  }

  /** In every run, kills included: pipewrite returns its count exactly if every byte went
      into the pipe, and -1 exactly if some did not; what went in is a beginning of the data,
      in order, mixed only with other writers' bytes. */
  lemma {:induction false} ReturnsTell(run: seq<State>, steps: seq<Step>, i: nat)
    requires IsRun(run, steps) && Initial(run[0]) && i <= |steps|
    ensures AllTold(run[i])
  {
    if i > 0 {
      ReturnsTell(run, steps, i - 1);
      ReadIsPrefix(run, steps, i - 1);
      assert Taken(run, steps, i - 1);
      StepTells(run[i - 1], steps[i - 1]);
    }
  }

  /** A turn of pipewrite that returns: the count if and only if the rest of the data fitted in,
      -1 if and only if it did not and the read end is closed or the process killed. */
  lemma WriteReturns(s: State, p: nat)
    requires Inv(s) && Enabled(s, RunWriter(p))
    ensures var t := Write(s, p); var a := s.actors[p]; var fits := |s.q| + |a.src| - a.put <= PIPESIZE;
      && (t.actors[p].Idle? <==> fits || !s.readopen || s.killed[p])
      && (t.actors[p].Idle? ==> t.actors[p].last == Wrote(a.src, a.from, fits))
      && t.written == s.written + a.src[a.put..a.put + (|t.written| - |s.written|)]
      && (!fits ==> |t.q| == PIPESIZE)
  {
    var a, t := s.actors[p], Write(s, p);
    var k := |t.written| - |s.written|;
    assert a.src[a.put..][..k] == a.src[a.put..a.put + k];
  }

  /** A turn of piperead that returns: -1 if and only if it was killed with nothing to read
      and the write end open; otherwise the oldest bytes, as many as wanted and there, and none
      for a positive count only at the end of the file. */
  lemma ReadReturns(s: State, p: nat)
    requires Inv(s) && Enabled(s, RunReader(p))
    ensures var t := Read(s, p); var want := s.actors[p].want;
      && (t.actors[p].Idle? <==> s.q != [] || !s.writeopen || s.killed[p])
      && (t.actors[p].Idle? ==>
            && t.actors[p].last.Got? && t.actors[p].last.want == want
            && var dst := t.actors[p].last.dst;
            && s.q == dst + t.q && t.taken == s.taken + dst
            && (!t.actors[p].last.ok <==> s.q == [] && s.writeopen && s.killed[p])
            && |dst| <= (if want < 0 then 0 else want) && (t.q != [] && want > 0 ==> |dst| == want)
            && (t.actors[p].last.ok && want > 0 ==> (dst == [] <==> s.q == [] && !s.writeopen)))
  {
  }

  /** Without an abandoned write every state of a run obeys the sleeping rule. */
  lemma {:induction false} RunKeepsSleepOk(run: seq<State>, steps: seq<Step>, i: nat)
    requires IsRun(run, steps) && Initial(run[0]) && i <= |steps|
    requires forall j :: 0 <= j < i ==> !Abandons(run[j], steps[j])
    ensures SleepOk(run[i])
  {
    if i > 0 {
      RunKeepsSleepOk(run, steps, i - 1);
      ReadIsPrefix(run, steps, i - 1);
      assert Taken(run, steps, i - 1);
      StepKeepsSleepOk(run[i - 1], steps[i - 1]);
    }
  }

  ghost predicate Asleep(a: Actor) {
    (a.Reading? || a.Writing?) && a.asleep
  }

  ghost predicate KilledAwake(s: State) {
    |s.killed| == |s.actors| && forall p :: 0 <= p < |s.actors| && s.killed[p] ==> !Asleep(s.actors[p])
  }

  lemma StepKeepsKilledAwake(s: State, step: Step)
    requires Inv(s) && KilledAwake(s) && Enabled(s, step)
    ensures KilledAwake(Next(s, step))
  {
    var t := Next(s, step);
    forall p | 0 <= p < |t.actors| && t.killed[p] ensures !Asleep(t.actors[p]) {
      assert s.killed[p] ==> !Asleep(s.actors[p]);
    }
  }

  /** In every run a killed process is awake, so its call can return. */
  lemma {:induction false} KilledNeverSleep(run: seq<State>, steps: seq<Step>, i: nat)
    requires IsRun(run, steps) && Initial(run[0]) && i <= |steps|
    ensures KilledAwake(run[i])
  {
    if i > 0 {
      KilledNeverSleep(run, steps, i - 1);
      ReadIsPrefix(run, steps, i - 1);
      assert Taken(run, steps, i - 1);
      StepKeepsKilledAwake(run[i - 1], steps[i - 1]);
    }
  }

  ghost predicate NobodyKilled(s: State) {
    forall p :: 0 <= p < |s.killed| ==> !s.killed[p]
  }

  lemma {:induction false} StayAlive(run: seq<State>, steps: seq<Step>, i: nat)
    requires IsRun(run, steps) && NobodyKilled(run[0]) && i <= |steps|
    requires forall j :: 0 <= j < i ==> !steps[j].Kill?
    ensures NobodyKilled(run[i])
  {
    if i > 0 {
      StayAlive(run, steps, i - 1);
      assert Taken(run, steps, i - 1);
    }
  }

  /** In every run without kill, a sleeping reader means an empty pipe with its write
      end open, a sleeping writer a full pipe with its read end open; so never both. */
  lemma SleepersWait(run: seq<State>, steps: seq<Step>, i: nat)
    requires IsRun(run, steps) && Initial(run[0]) && NobodyKilled(run[0]) && i <= |steps|
    requires forall j :: 0 <= j < |steps| ==> !steps[j].Kill?
    ensures SleepOk(run[i])
    ensures ReaderAsleep(run[i]) ==>
              forall p :: 0 <= p < |run[i].actors| ==> !(run[i].actors[p].Writing? && run[i].actors[p].asleep)
  {
    forall j | 0 <= j < i
      ensures !Abandons(run[j], steps[j])
    {
      StayAlive(run, steps, j);
    }
    RunKeepsSleepOk(run, steps, i);
  }

  /** Once the write end is closed and the pipe drained, a reader gets end of file at once. */
  lemma EndOfFile(s: State, p: nat)
    requires Inv(s) && SleepOk(s) && !s.writeopen && p < |s.actors| && s.actors[p].Reading?
    ensures Enabled(s, RunReader(p)) && Read(s, p).actors[p].Idle?
    ensures s.q == [] ==> Read(s, p).taken == s.taken
  {
  }

  /** The states of a run in which a reader falls asleep and a killed writer leaves. */
  ghost function Stranding(big: seq<byte>): seq<State>
    requires |big| > PIPESIZE
  {
    var idle := Idle(Nothing);
    var s0 := State([], true, true, [idle, idle], [false, false], [], [], []);
    var s3 := s0.(actors := [Reading(1, true), Writing(big, 0, 0, false)]);
    [s0, s0.(actors := [Reading(1, false), idle]), s0.(actors := [Reading(1, true), idle]),
     s3, s3.(killed := [false, true]),
     State(big[..PIPESIZE], true, true, [Reading(1, true), Idle(Wrote(big, 0, false))], [false, true],
           big[..PIPESIZE], seq(PIPESIZE, _ => 1), [])]
  }

  ghost function StrandingSteps(big: seq<byte>): seq<Step> {
    [StartRead(0, 1), RunReader(0), StartWrite(1, big), Kill(1), RunWriter(1)]
  }

  lemma StrandingTaken(big: seq<byte>, i: nat)
    requires |big| > PIPESIZE && i < 5
    ensures Taken(Stranding(big), StrandingSteps(big), i)
  {
    var s, step := Stranding(big)[i], StrandingSteps(big)[i];
    assert Shape(s) && Enabled(s, step);
    if i == 4 {
      assert [] + big[..PIPESIZE] == big[..PIPESIZE] && big[0..] == big;
    }
  }

  /** A run with kill in which a reader ends up asleep on a full pipe whose
      writer has left: the sleeping rule does not survive kill. */
  lemma KilledWriterStrandsReader(big: seq<byte>)
    requires |big| > PIPESIZE
    ensures exists run, steps ::
              && IsRun(run, steps) && Initial(run[0]) && NobodyKilled(run[0])
              && |steps| == 5 && !SleepOk(run[5])
  {
    var run, steps := Stranding(big), StrandingSteps(big);
    forall i | 0 <= i < |steps|
      ensures Taken(run, steps, i)
    {
      StrandingTaken(big, i);
    }
    assert IsRun(run, steps) by {
      hide Taken;
    }
    assert run[5].actors[0].asleep;
  }
}
