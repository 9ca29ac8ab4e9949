/** Transactions in whole runs of the buffer cache and the log: whatever the other processes
    do in between, and however often power is cut (also during recovery), a transaction ends
    with all of its writes on the disk or none of them. */
module LogRuns {
  import opened LogDisk
  import opened LogMachine

  /** The log_write calls of steps a .. k-1. */
  function Writes(states: seq<Sys>, steps: seq<Step>, a: nat, k: nat): seq<Event>
    requires k <= |steps| <= |states|
  {
    if k <= a then []
    else
      var e := EventOf(states[k - 1], steps[k - 1]);
      Writes(states, steps, a, k - 1) + (if e.Wrote? then [e] else [])
  }

  /** The header was written for a non-empty log in steps a .. k-1. */
  ghost predicate HeaderWritten(steps: seq<Step>, a: nat, k: nat)
    requires k <= |steps|
  {
    exists j: nat :: a <= j < k && steps[j].WriteHead?
  }

  ghost predicate NoBegin(steps: seq<Step>, a: nat, k: nat)
    requires k <= |steps|
  {
    forall j: nat :: a <= j < k ==> !steps[j].Begin?
  }

  /** One transaction, from its begin_trans to the next moment at which the log is idle: it
      may have run to its end or been cut short by any number of power cuts. */
  ghost predicate Transaction(g: Geometry, states: seq<Sys>, steps: seq<Step>, a: nat, e: nat) {
    && IsRun(g, states, steps) && PowerOn(g, states[0])
    && a < e <= |steps| && steps[a].Begin? && NoBegin(steps, a + 1, e) && states[e].phase.Idle?
  }

  lemma {:induction false} RunInv(g: Geometry, states: seq<Sys>, steps: seq<Step>, k: nat)
    requires IsRun(g, states, steps) && PowerOn(g, states[0]) && k <= |steps|
    ensures Inv(g, states[k])
  {
    hide Inv, PowerOn, Next;
    if k == 0 {
      PowerOnInv(g, states[0]);
    } else {
      RunInv(g, states, steps, k - 1);
      StepAt(g, states, steps, k - 1);
      StepPlays(g, states[k - 1], steps[k - 1], states[k]);
    }
  }

  lemma StepAt(g: Geometry, states: seq<Sys>, steps: seq<Step>, k: nat)
    requires IsRun(g, states, steps) && k < |steps|
    ensures Next(g, states[k], steps[k], states[k + 1])
  {
  }

  /** How the store stands while a transaction that started on image `home` is under way:
      es are its log writes so far. Before the commit the disk still recovers to `home`. */
  ghost predicate Along(g: Geometry, home: Disk, sys: Sys, es: seq<Event>, committed: bool) {
    && Inv(g, sys)
    && (committed ==> !sys.phase.Active? && StoreOf(g, sys) == Store(Written(home, es), Written(home, es)))
    && (!committed ==>
          StoreOf(g, sys) == Store(home, if sys.phase.Active? then Written(home, es) else home))
  }

  /** Only begin_trans makes the log active; log_write and the commit need it to be. */
  lemma PhaseMoves(g: Geometry, sys: Sys, step: Step, sys': Sys)
    requires Next(g, sys, step, sys')
    ensures sys'.phase.Active? ==> sys.phase.Active? || step.Begin?
    ensures step.LogWrite? ==> sys.phase.Active? && sys'.phase.Active?
    ensures step.WriteHead? ==> sys.phase.Active? && !sys'.phase.Active?
    ensures sys.phase.Active? && !sys'.phase.Active? ==> step.WriteHead? || step.Crash? || (step.CommitNothing? && sys.lh == [])
    ensures EventOf(sys, step).Wrote? ==> step.LogWrite?
    ensures EventOf(sys, step).Committed? <==> step.WriteHead?
    ensures EventOf(sys, step).PowerLost? <==> step.Crash?
    ensures step.Crash? ==> !sys'.phase.Active?
    ensures step.Begin? ==> sys.phase.Idle? && sys' == sys.(phase := Active)
  {
  }

  ghost function Noted(es: seq<Event>, e: Event): seq<Event> {
    es + (if e.Wrote? then [e] else [])
  }

  lemma NotedWritten(home: Disk, es: seq<Event>, e: Event)
    ensures Written(home, Noted(es, e)) ==
            if e.Wrote? && e.s < |home| then Written(home, es)[e.s := e.data] else Written(home, es)
    ensures |Written(home, es)| == |home|
  {
    if e.Wrote? {
      assert Noted(es, e)[..|es|] == es;
    } else {
      assert Noted(es, e) == es;
    }
  }

  lemma AlongStep(g: Geometry, home: Disk, sys: Sys, step: Step, sys': Sys, es: seq<Event>, committed: bool)
    requires Along(g, home, sys, es, committed) && Next(g, sys, step, sys') && !step.Begin?
    ensures Along(g, home, sys', Noted(es, EventOf(sys, step)), committed || step.WriteHead?)
  {
    hide Inv, Next, StoreOf, Written, EventOf, Noted, Refines;
    StepPlays(g, sys, step, sys');
    PhaseMoves(g, sys, step, sys');
    NotedWritten(home, es, EventOf(sys, step));
    RefinesIs(g, sys, step, sys');
    if step.CommitNothing? && sys.lh == [] && sys.phase.Active? {
      BetweenTransactions(g, sys);
      StoreIs(g, sys);
    }
  }

  lemma RefinesIs(g: Geometry, sys: Sys, step: Step, sys': Sys)
    requires Inv(g, sys) && Inv(g, sys') && Refines(g, sys, step, sys')
    ensures StoreOf(g, sys') == Play(StoreOf(g, sys), EventOf(sys, step))
  {
  }

  lemma StoreIs(g: Geometry, sys: Sys)
    requires Inv(g, sys)
    ensures StoreOf(g, sys) == Store(Durable(g, sys), View(g, sys))
  {
  }

  lemma AlongStart(g: Geometry, sys: Sys, sys': Sys)
    requires Inv(g, sys) && Next(g, sys, Begin, sys')
    ensures Along(g, Home(g, sys.disk), sys', [], false)
  {
    hide Inv, Next, StoreOf, Refines;
    PhaseMoves(g, sys, Begin, sys');
    StepPlays(g, sys, Begin, sys');
    RefinesIs(g, sys, Begin, sys');
    IdleEmpty(g, sys);
    BetweenTransactions(g, sys);
    StoreIs(g, sys);
  }

  lemma IdleEmpty(g: Geometry, sys: Sys)
    requires Inv(g, sys) && sys.phase.Idle?
    ensures sys.lh == []
  {
  }

  lemma {:induction false} AlongRun(g: Geometry, states: seq<Sys>, steps: seq<Step>, a: nat, k: nat)
    requires IsRun(g, states, steps) && PowerOn(g, states[0]) && a < k <= |steps|
    requires steps[a].Begin? && NoBegin(steps, a + 1, k)
    ensures g.start <= |states[a].disk|
    ensures Along(g, Home(g, states[a].disk), states[k], Writes(states, steps, a, k), HeaderWritten(steps, a, k))
    decreases k
  {
    hide Inv, Next, PowerOn, Along, EventOf;
    RunInv(g, states, steps, a);
    StepAt(g, states, steps, k - 1);
    HomeFits(g, states[a]);
    if k == a + 1 {
      AlongStart(g, states[a], states[k]);
      assert Writes(states, steps, a, k) == [] by { BeginIsQuiet(states[a], steps[a]); }
    } else {
      AlongRun(g, states, steps, a, k - 1);
      AlongStep(g, Home(g, states[a].disk), states[k - 1], steps[k - 1], states[k],
        Writes(states, steps, a, k - 1), HeaderWritten(steps, a, k - 1));
      assert HeaderWritten(steps, a, k) <==> HeaderWritten(steps, a, k - 1) || steps[k - 1].WriteHead?;
    }
  }

  lemma BeginIsQuiet(sys: Sys, step: Step)
    requires step.Begin?
    ensures EventOf(sys, step).Quiet?
  {
  }

  lemma HomeFits(g: Geometry, sys: Sys)
    requires Inv(g, sys)
    ensures g.start <= |sys.disk| == g.start + g.size
  {
  }

  /** Crash atomicity over whole runs: when the log is next idle the home area holds all the
      writes of the transaction if its header was written, and none of them otherwise. */
  lemma TransactionIsAtomic(g: Geometry, states: seq<Sys>, steps: seq<Step>, a: nat, e: nat)
    requires Transaction(g, states, steps, a, e)
    ensures g.start <= |states[a].disk| && g.start <= |states[e].disk|
    ensures Home(g, states[e].disk) ==
            if HeaderWritten(steps, a, e) then Written(Home(g, states[a].disk), Writes(states, steps, a, e))
            else Home(g, states[a].disk)
  {
    hide Inv, Next, PowerOn, StoreOf, Writes, HeaderWritten, NoBegin;
    AlongRun(g, states, steps, a, e);
    IdleEmpty(g, states[e]);
    HomeFits(g, states[e]);
    BetweenTransactions(g, states[e]);
    StoreIs(g, states[e]);
  }

  /** Where nothing begins, nothing changes: boots and power cuts leave the recovered image. */
  lemma {:induction false} NothingBegins(g: Geometry, states: seq<Sys>, steps: seq<Step>, a: nat, k: nat)
    requires IsRun(g, states, steps) && PowerOn(g, states[0]) && a <= k <= |steps|
    requires !states[a].phase.Active? && NoBegin(steps, a, k)
    ensures !states[k].phase.Active?
    ensures Inv(g, states[a]) && Inv(g, states[k]) && Durable(g, states[k]) == Durable(g, states[a])
    decreases k
  {
    hide Inv, Next, PowerOn, StoreOf, EventOf, Refines, Durable;
    RunInv(g, states, steps, a);
    if a < k {
      NothingBegins(g, states, steps, a, k - 1);
      StepAt(g, states, steps, k - 1);
      var sys, step, sys' := states[k - 1], steps[k - 1], states[k];
      PhaseMoves(g, sys, step, sys');
      StepPlays(g, sys, step, sys');
      RefinesIs(g, sys, step, sys');
      StoreIs(g, sys);
      StoreIs(g, sys');
    }
  }
}
