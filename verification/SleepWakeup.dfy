/** sleep and wakeup of proc.c as a protocol. Any number of processes wait for
    conditions and signal them; every channel has a condition and the lock that
    guards it. A step ends where another processor may come in between. */
module SleepWakeup {

  /** Where a process is. Waiters run: acquire(lk); while(!cond) sleep(chan, lk); use
      it; release(lk). Wakers run: acquire(lk); cond = 1; wakeup(chan), where lk may be
      released before or after wakeup. */
  datatype Pc =
    | Idle
    | WantLock(c: nat)               // acquire(lk)
    | Testing(c: nat)                // holds lk, at the while test
    | Entering(c: nat)               // in sleep, holds lk, wants ptable.lock
    | Both(c: nat)                   // holds lk and ptable.lock
    | Committed(c: nat)              // holds ptable.lock, lk released, not yet SLEEPING
    | Sleeping(c: nat)               // SLEEPING on the channel
    | Woken(c: nat)                  // RUNNABLE again
    | Resumed(c: nat)                // switched in by the scheduler, holds ptable.lock
    | Inside(c: nat)                 // holds lk, has seen the condition
    | WakerWants(c: nat)
    | WakerHolds(c: nat)
    | Signalled(c: nat, lk: bool)    // condition set, on the way to wakeup1
    | Waking(c: nat, lk: bool)       // holds ptable.lock, before wakeup1's loop
    | Woke(c: nat, lk: bool)         // holds ptable.lock, after it
    | Unlocking(c: nat)              // ptable.lock released, lk still held

  /** lk[c] and pt are the holders of the locks, -1 if free. */
  datatype Sys = Sys(proc: seq<Pc>, cond: seq<bool>, lk: seq<int>, pt: int)

  datatype Step =
    | StartWait(c: nat) | AcquireLk | Test | AcquirePt | ReleaseLk | GoToSleep | Switch | Tidy
    | Spend | Leave | StartWake(c: nat) | Signal | EarlyRelease | Wakeup1 | WakeRelease | Unlock
    | Kill(q: nat)

  predicate HoldsLk(pc: Pc, c: nat) {
    match pc
    case Testing(d) => c == d
    case Entering(d) => c == d
    case Both(d) => c == d
    case Inside(d) => c == d
    case WakerHolds(d) => c == d
    case Signalled(d, h) => c == d && h
    case Waking(d, h) => c == d && h
    case Woke(d, h) => c == d && h
    case Unlocking(d) => c == d
    case _ => false
  }

  predicate HoldsPt(pc: Pc) {
    pc.Both? || pc.Committed? || pc.Resumed? || pc.Waking? || pc.Woke?
  }

  predicate OnItsWay(pc: Pc, c: nat) {
    (pc.Signalled? || pc.Waking?) && pc.c == c
  }

  /** Past the last test of the condition and not yet woken. */
  predicate Down(pc: Pc, c: nat) {
    (pc.Committed? || pc.Sleeping?) && pc.c == c
  }

  predicate Enabled(s: Sys, p: nat, step: Step) {
    && p < |s.proc| && |s.lk| == |s.cond|
    && (s.proc[p].Idle? || s.proc[p].c < |s.cond|)
    && var pc := s.proc[p];
    match step
    case StartWait(c) => pc.Idle? && c < |s.cond|
    case AcquireLk => (pc.WantLock? || pc.WakerWants?) && s.lk[pc.c] == -1
    case Test => pc.Testing?
    case AcquirePt => (pc.Entering? || pc.Signalled?) && s.pt == -1
    case ReleaseLk => pc.Both?
    case GoToSleep => pc.Committed?
    case Switch => pc.Woken? && s.pt == -1
    case Tidy => pc.Resumed?
    case Spend => pc.Inside?
    case Leave => pc.Inside?
    case StartWake(c) => pc.Idle? && c < |s.cond|
    case Signal => pc.WakerHolds?
    case EarlyRelease => pc.Signalled? && pc.lk
    case Wakeup1 => pc.Waking?
    case WakeRelease => pc.Woke?
    case Unlock => pc.Unlocking?
    case Kill(q) => s.pt == -1 && q < |s.proc| && s.proc[q].Sleeping?
  }

  function Move(s: Sys, p: nat, pc: Pc): Sys
    requires p < |s.proc|
  {
    s.(proc := s.proc[p := pc])
  }

  /** wakeup1: every process SLEEPING on the channel becomes RUNNABLE. */
  function WakeAll(proc: seq<Pc>, c: nat): (r: seq<Pc>)
    ensures |r| == |proc|
    ensures forall i :: 0 <= i < |proc| ==> r[i] == if proc[i] == Sleeping(c) then Woken(c) else proc[i]
  {
    if proc == [] then []
    else
      var last := proc[|proc| - 1];
      WakeAll(proc[..|proc| - 1], c) + [if last == Sleeping(c) then Woken(c) else last]
  }

  function Apply(s: Sys, p: nat, step: Step): Sys
    requires Enabled(s, p, step)
  {
    var pc := s.proc[p];
    match step
    case StartWait(c) => Move(s, p, WantLock(c))
    case AcquireLk =>
      Move(s, p, if pc.WantLock? then Testing(pc.c) else WakerHolds(pc.c)).(lk := s.lk[pc.c := p])
    case Test => Move(s, p, if s.cond[pc.c] then Inside(pc.c) else Entering(pc.c))
    case AcquirePt => Move(s, p, if pc.Entering? then Both(pc.c) else Waking(pc.c, pc.lk)).(pt := p)
    case ReleaseLk => Move(s, p, Committed(pc.c)).(lk := s.lk[pc.c := -1])
    case GoToSleep => Move(s, p, Sleeping(pc.c)).(pt := -1)
    case Switch => Move(s, p, Resumed(pc.c)).(pt := p)
    case Tidy => Move(s, p, WantLock(pc.c)).(pt := -1)
    case Spend => s.(cond := s.cond[pc.c := false])
    case Leave => Move(s, p, Idle).(lk := s.lk[pc.c := -1])
    case StartWake(c) => Move(s, p, WakerWants(c))
    case Signal => Move(s, p, Signalled(pc.c, true)).(cond := s.cond[pc.c := true])
    case EarlyRelease => Move(s, p, Signalled(pc.c, false)).(lk := s.lk[pc.c := -1])
    case Wakeup1 => Move(s, p, Woke(pc.c, pc.lk)).(proc := WakeAll(s.proc[p := Woke(pc.c, pc.lk)], pc.c))
    case WakeRelease => Move(s, p, if pc.lk then Unlocking(pc.c) else Idle).(pt := -1)
    case Unlock => Move(s, p, Idle).(lk := s.lk[pc.c := -1])
    case Kill(q) => Move(s, q, Woken(s.proc[q].c))
  }

  // ---------- invariant ----------

  /** The locks exclude: exactly the recorded holder is at a place that holds. */
  ghost predicate Locked(s: Sys) {
    && |s.lk| == |s.cond|
    && (forall p: nat :: p < |s.proc| ==> (s.proc[p].Idle? || s.proc[p].c < |s.cond|))
    && (forall p: nat, c: nat :: p < |s.proc| && c < |s.lk| ==> (HoldsLk(s.proc[p], c) <==> s.lk[c] == p))
    && (forall p: nat :: p < |s.proc| ==> (HoldsPt(s.proc[p]) <==> s.pt == p))
  }

  ghost predicate SomeoneDown(s: Sys, c: nat) {
    exists p: nat :: p < |s.proc| && Down(s.proc[p], c)
  }

  ghost predicate SomeoneComing(s: Sys, c: nat) {
    exists p: nat :: p < |s.proc| && OnItsWay(s.proc[p], c)
  }

  ghost predicate Inv(s: Sys) {
    && Locked(s)
    && (forall p: nat :: p < |s.proc| && (s.proc[p].Entering? || s.proc[p].Both?) ==> !s.cond[s.proc[p].c])
    && (forall c: nat :: c < |s.cond| && s.cond[c] && SomeoneDown(s, c) ==> SomeoneComing(s, c))
  }

  lemma LkStep(s: Sys, p: nat, step: Step, q: nat, c: nat)
    requires Locked(s) && Enabled(s, p, step) && q < |s.proc| && c < |s.lk|
    ensures var s' := Apply(s, p, step); HoldsLk(s'.proc[q], c) <==> s'.lk[c] == q
  {
    assert HoldsLk(s.proc[q], c) <==> s.lk[c] == q;
    assert HoldsLk(s.proc[p], c) <==> s.lk[c] == p;
  }

  lemma PtStep(s: Sys, p: nat, step: Step, q: nat)
    requires Locked(s) && Enabled(s, p, step) && q < |s.proc|
    ensures var s' := Apply(s, p, step); HoldsPt(s'.proc[q]) <==> s'.pt == q
  {
    assert HoldsPt(s.proc[q]) <==> s.pt == q;
    assert HoldsPt(s.proc[p]) <==> s.pt == p;
  }

  lemma LockedStep(s: Sys, p: nat, step: Step)
    requires Inv(s) && Enabled(s, p, step)
    ensures Locked(Apply(s, p, step))
  {
    hide HoldsLk, HoldsPt, SomeoneDown, SomeoneComing;
    var s' := Apply(s, p, step);
    forall q: nat, c: nat | q < |s'.proc| && c < |s'.lk| ensures HoldsLk(s'.proc[q], c) <==> s'.lk[c] == q {
      LkStep(s, p, step, q, c);
    }
    forall q: nat | q < |s'.proc| ensures HoldsPt(s'.proc[q]) <==> s'.pt == q {
      PtStep(s, p, step, q);
    }
  }

  /** A step of p that leaves "down", "on its way" and the conditions as they were. */
  lemma Quiet(s: Sys, s': Sys, p: nat, c: nat)
    requires p < |s.proc| == |s'.proc| && forall q: nat :: q < |s.proc| && q != p ==> s'.proc[q] == s.proc[q]
    requires Down(s'.proc[p], c) ==> Down(s.proc[p], c)
    requires OnItsWay(s.proc[p], c) ==> OnItsWay(s'.proc[p], c)
    ensures SomeoneDown(s', c) ==> SomeoneDown(s, c)
    ensures SomeoneComing(s, c) ==> SomeoneComing(s', c)
  {
    if SomeoneDown(s', c) {
      var q: nat :| q < |s'.proc| && Down(s'.proc[q], c);
      assert Down(s.proc[q], c);
    }
    if SomeoneComing(s, c) {
      var q: nat :| q < |s.proc| && OnItsWay(s.proc[q], c);
      assert OnItsWay(s'.proc[q], c);
    }
  }

  lemma WakeupClears(s: Sys, p: nat)
    requires Inv(s) && Enabled(s, p, Wakeup1)
    ensures !SomeoneDown(Apply(s, p, Wakeup1), s.proc[p].c)
  {
    var s', c := Apply(s, p, Wakeup1), s.proc[p].c;
    forall q: nat | q < |s'.proc| ensures !Down(s'.proc[q], c) {
      assert HoldsPt(s.proc[p]) && (HoldsPt(s.proc[q]) <==> s.pt == q);
    }
  }

  lemma NoLoss(s: Sys, p: nat, step: Step, c: nat)
    requires Inv(s) && Enabled(s, p, step) && c < |s.cond|
    ensures var s' := Apply(s, p, step); s'.cond[c] && SomeoneDown(s', c) ==> SomeoneComing(s', c)
  {
    var s' := Apply(s, p, step);
    match step
    case Wakeup1 =>
      if s.proc[p].c == c {
        WakeupClears(s, p);
      } else {
        WakeupElsewhere(s, p, c);
      }
    case Kill(q) => Quiet(s, s', q, c);
    case Signal =>
      if s.proc[p].c == c {
        assert OnItsWay(s'.proc[p], c);
      } else {
        Quiet(s, s', p, c);
      }
    case ReleaseLk =>
      if s.proc[p].c == c {
        assert !s.cond[c];
      } else {
        Quiet(s, s', p, c);
      }
    case _ => Quiet(s, s', p, c);
  }

  lemma WakeupElsewhere(s: Sys, p: nat, c: nat)
    requires Inv(s) && Enabled(s, p, Wakeup1) && s.proc[p].c != c && c < |s.cond|
    ensures var s' := Apply(s, p, Wakeup1); s'.cond[c] && SomeoneDown(s', c) ==> SomeoneComing(s', c)
  {
    var s' := Apply(s, p, Wakeup1);
    if s'.cond[c] && SomeoneDown(s', c) {
      var q: nat :| q < |s'.proc| && Down(s'.proc[q], c);
      assert Down(s.proc[q], c);
      var w: nat :| w < |s.proc| && OnItsWay(s.proc[w], c);
      assert OnItsWay(s'.proc[w], c);
    }
  }

  lemma StepKeepsInv(s: Sys, p: nat, step: Step)
    requires Inv(s) && Enabled(s, p, step)
    ensures Inv(Apply(s, p, step))
  {
    hide SomeoneDown, SomeoneComing;
    var s' := Apply(s, p, step);
    LockedStep(s, p, step);
    forall c: nat | c < |s'.cond| && s'.cond[c] && SomeoneDown(s', c) ensures SomeoneComing(s', c) {
      NoLoss(s, p, step, c);
    }
    forall q: nat | q < |s'.proc| && (s'.proc[q].Entering? || s'.proc[q].Both?) ensures !s'.cond[s'.proc[q].c] {
      TestedFalse(s, p, step, q);
    }
  }

  lemma TestedFalse(s: Sys, p: nat, step: Step, q: nat)
    requires Inv(s) && Enabled(s, p, step) && q < |s.proc|
    requires var pc := Apply(s, p, step).proc[q]; (pc.Entering? || pc.Both?) && pc.c < |s.cond|
    ensures !Apply(s, p, step).cond[Apply(s, p, step).proc[q].c]
  {
    hide SomeoneDown, SomeoneComing;
    var c := Apply(s, p, step).proc[q].c;
    assert HoldsLk(s.proc[q], c) <==> s.lk[c] == q;
    assert HoldsLk(s.proc[p], c) <==> s.lk[c] == p;
  }

  // ---------- runs ----------

  /** Nobody has started yet; the conditions are arbitrary. */
  ghost predicate Init(s: Sys) {
    && |s.lk| == |s.cond| && s.pt == -1
    && (forall p :: 0 <= p < |s.proc| ==> s.proc[p] == Idle) && (forall c :: 0 <= c < |s.lk| ==> s.lk[c] == -1)
  }

  ghost predicate IsRun(states: seq<Sys>, steps: seq<(nat, Step)>) {
    && |states| == |steps| + 1
    && forall i :: 0 <= i < |steps| ==>
         Enabled(states[i], steps[i].0, steps[i].1) && states[i + 1] == Apply(states[i], steps[i].0, steps[i].1)
  }

  lemma {:induction false} RunKeepsInv(states: seq<Sys>, steps: seq<(nat, Step)>)
    requires IsRun(states, steps) && Init(states[0])
    ensures Inv(states[|steps|])
    decreases |steps|
  {
    var n := |steps|;
    if n > 0 {
      RunKeepsInv(states[..n], steps[..n - 1]);
      assert states[n - 1 + 1] == Apply(states[n - 1], steps[n - 1].0, steps[n - 1].1);
      StepKeepsInv(states[n - 1], steps[n - 1].0, steps[n - 1].1);
    }
  }

  /** No lost wakeup: in every interleaving, a process sleeps on a channel whose
      condition holds only while a waker is still on its way to wakeup1. */
  lemma NoLostWakeup(states: seq<Sys>, steps: seq<(nat, Step)>, p: nat)
    requires IsRun(states, steps) && Init(states[0])
    requires var s := states[|steps|]; p < |s.proc| && s.proc[p].Sleeping?
    ensures var s := states[|steps|]; var c := s.proc[p].c;
      c < |s.cond| && (s.cond[c] ==> exists w: nat :: w < |s.proc| && OnItsWay(s.proc[w], c))
  {
    RunKeepsInv(states, steps);
    var s := states[|steps|];
    assert Down(s.proc[p], s.proc[p].c);
  }
}
