/** fork, exit, wait, wakeup and kill of proc.c over the process table. Each method
    is one critical section of ptable.lock (or, for the parts of fork that run
    without it, one step on a slot no other process touches). */
module ProcessTable {

  datatype State = UNUSED | EMBRYO | SLEEPING | RUNNABLE | RUNNING | ZOMBIE

  /** What a process may sleep on: its own table entry (wait) or anything else. */
  datatype Chan = NoChan | OfProc(i: nat) | Other(n: nat)

  /** parent is an index into the table, -1 for the null pointer. */
  datatype Proc = Proc(state: State, pid: nat, parent: int, chan: Chan, killed: bool)

  /** Who has forked whom, who has exited and who has collected whom, all by pid: a table
      entry is used again, a pid is not. */
  datatype History = History(born: map<nat, nat>, exited: set<nat>, reaped: map<nat, nat>)

  datatype Table = Table(proc: seq<Proc>, init: nat, nextpid: nat, log: History)

  predicate InWait(t: Table, i: nat)
    requires i < |t.proc|
  {
    t.proc[i].state == SLEEPING && t.proc[i].chan == OfProc(i)
  }

  predicate Alive(s: State) {
    s != UNUSED && s != EMBRYO && s != ZOMBIE
  }

  // ---------- invariant, whenever ptable.lock is free ----------

  /** A used slot with a parent has a live one; free slots have none; every process
      that can run has a parent, except init. */
  ghost predicate ParentOk(t: Table, i: nat)
    requires i < |t.proc|
  {
    var p := t.proc[i];
    && (p.parent == -1 || (0 <= p.parent < |t.proc| && p.parent != i && Alive(t.proc[p.parent].state)))
    && (p.state == UNUSED ==> p.parent == -1)
    && (p.state != UNUSED && p.state != EMBRYO && i != t.init ==> p.parent != -1)
  }

  ghost predicate HasChild(t: Table, i: nat) {
    exists j :: 0 <= j < |t.proc| && t.proc[j].parent == i
  }

  /** Nobody sleeps in wait when killed, without a child, or past a child that has exited. */
  ghost predicate WaitOk(t: Table, i: nat)
    requires i < |t.proc|
  {
    InWait(t, i) ==>
      && !t.proc[i].killed && HasChild(t, i)
      && forall j :: 0 <= j < |t.proc| && t.proc[j].parent == i ==> t.proc[j].state != ZOMBIE
  }

  /** Pids in use are distinct; a zombie has exited and is not collected; whoever has
      exited and is not a zombie was collected, by its forker or by init. */
  ghost predicate PidOk(t: Table, i: nat)
    requires i < |t.proc|
  {
    var p := t.proc[i];
    p.state != UNUSED ==>
      && 0 < p.pid < t.nextpid
      && p.pid !in t.log.reaped
      && (p.pid in t.log.exited <==> p.state == ZOMBIE)
      && (p.parent != -1 ==>
            && 0 <= p.parent < |t.proc| && p.pid in t.log.born
            && (t.proc[p.parent].pid == t.log.born[p.pid] || p.parent == t.init))
  }

  ghost predicate DistinctPids(t: Table) {
    forall i, j :: 0 <= i < j < |t.proc| && t.proc[i].state != UNUSED && t.proc[j].state != UNUSED ==>
      t.proc[i].pid != t.proc[j].pid
  }

  ghost predicate Zombie(t: Table, pid: nat) {
    exists i :: 0 <= i < |t.proc| && t.proc[i].state == ZOMBIE && t.proc[i].pid == pid
  }

  ghost predicate LogOk(t: Table)
    requires t.init < |t.proc|
  {
    && (forall pid :: pid in t.log.exited ==> pid < t.nextpid && (pid in t.log.reaped || Zombie(t, pid)))
    && (forall pid :: pid in t.log.reaped ==>
          && pid in t.log.exited && pid in t.log.born
          && (t.log.reaped[pid] == t.log.born[pid] || t.log.reaped[pid] == t.proc[t.init].pid))
    && (forall pid :: pid in t.log.born ==> pid < t.nextpid)
  }

  ghost predicate Inv(t: Table) {
    && t.init < |t.proc| && Alive(t.proc[t.init].state) && t.proc[t.init].parent == -1 && t.nextpid > 0
    && (forall i: nat :: i < |t.proc| ==> ParentOk(t, i) && WaitOk(t, i) && PidOk(t, i))
    && DistinctPids(t) && LogOk(t)
  }

  /** userinit's table: init alone, ready to run. */
  lemma FirstProcess(n: nat)
    requires n > 0
    ensures Inv(Table(seq(n, i => Proc(if i == 0 then RUNNABLE else UNUSED, if i == 0 then 1 else 0, -1, NoChan, false)),
                      0, 2, History(map[], {}, map[])))
  {
  }

  // ---------- the steps ----------

  /** wakeup1: SLEEPING on the channel becomes RUNNABLE. */
  function Wake(p: Proc, c: Chan): Proc {
    if p.state == SLEEPING && p.chan == c then p.(state := RUNNABLE) else p
  }

  predicate ZombieChild(t: Table, p: nat) {
    exists j :: 0 <= j < |t.proc| && t.proc[j].parent == p && t.proc[j].state == ZOMBIE
  }

  /** Slot i after process p has exited. */
  function AfterExit(t: Table, p: nat, i: nat): Proc
    requires p < |t.proc| && i < |t.proc| && t.proc[p].parent >= 0
  {
    var x := Wake(t.proc[i], OfProc(t.proc[p].parent));
    var y := if x.parent == p then x.(parent := t.init) else x;
    var z := if ZombieChild(t, p) then Wake(y, OfProc(t.init)) else y;
    if i == p then z.(state := ZOMBIE) else z
  }

  function Exited(t: Table, p: nat): Table
    requires p < |t.proc| && t.proc[p].parent >= 0
  {
    t.(proc := seq(|t.proc|, i requires 0 <= i < |t.proc| => AfterExit(t, p, i)),
       log := t.log.(exited := t.log.exited + {t.proc[p].pid}))
  }

  /** wait's collecting of zombie j by process p. */
  function Reaped(t: Table, p: nat, j: nat): Table
    requires j < |t.proc| && p < |t.proc|
  {
    t.(proc := t.proc[j := Proc(UNUSED, 0, -1, t.proc[j].chan, false)],
       log := t.log.(reaped := t.log.reaped[t.proc[j].pid := t.proc[p].pid]))
  }

  /** Steps that change one slot without touching parent, pid or the log. */
  predicate StateStep(a: Proc, b: Proc) {
    && b.pid == a.pid && b.parent == a.parent && b.killed == a.killed
    && ((a.state == RUNNABLE && b.state == RUNNING && b.chan == NoChan)       // scheduler
        || (a.state == RUNNING && b.state == RUNNABLE)                        // yield
        || (a.state == RUNNING && b.state == SLEEPING && b.chan.Other?))      // sleep, not in wait
  }

  /** kill: the process is marked and taken out of any sleep. */
  function Killed(x: Proc): Proc {
    x.(killed := true, state := if x.state == SLEEPING then RUNNABLE else x.state)
  }

  function With(t: Table, i: nat, x: Proc): Table
    requires i < |t.proc|
  {
    t.(proc := t.proc[i := x])
  }

  /** fork, part 1 (allocproc): a free slot becomes EMBRYO with a new pid. */
  function Allocated(t: Table, i: nat): Table
    requires i < |t.proc|
  {
    With(t, i, t.proc[i].(state := EMBRYO, pid := t.nextpid)).(nextpid := t.nextpid + 1)
  }

  /** fork, part 2: the child's parent is the caller p. */
  function Adopted(t: Table, i: nat, p: nat): Table
    requires i < |t.proc| && p < |t.proc|
  {
    With(t, i, t.proc[i].(parent := p)).(log := t.log.(born := t.log.born[t.proc[i].pid := t.proc[p].pid]))
  }

  /** One step of some process or of the scheduler. */
  datatype Step =
    | Alloc(i: nat) | AllocFails(i: nat) | Adopt(i: nat, p: nat) | Ready(i: nat)
    | Exit(p: nat) | Reap(p: nat, j: nat) | WaitSleep(p: nat)
    | Change(i: nat, x: Proc) | WakeAll(c: Chan) | Kill(i: nat)

  ghost predicate Enabled(t: Table, step: Step) {
    var n := |t.proc|;
    match step
    case Alloc(i) => i < n && t.proc[i].state == UNUSED
    case AllocFails(i) => i < n && t.proc[i].state == EMBRYO && t.proc[i].parent == -1
    case Adopt(i, p) => i < n && p < n && t.proc[i].state == EMBRYO && t.proc[i].parent == -1 && t.proc[p].state == RUNNING
    case Ready(i) => i < n && t.proc[i].state == EMBRYO && t.proc[i].parent != -1
    case Exit(p) => p < n && p != t.init && t.proc[p].state == RUNNING && t.proc[p].parent >= 0
    case Reap(p, j) => p < n && j < n && t.proc[p].state == RUNNING && t.proc[j].parent == p && t.proc[j].state == ZOMBIE
    case WaitSleep(p) => p < n && t.proc[p].state == RUNNING && !t.proc[p].killed && HasChild(t, p) && !ZombieChild(t, p)
    case Change(i, x) => i < n && StateStep(t.proc[i], x)
    case WakeAll(c) => true
    case Kill(i) => i < n
  }

  ghost function Apply(t: Table, step: Step): Table
    requires Enabled(t, step)
  {
    match step
    case Alloc(i) => Allocated(t, i)
    case AllocFails(i) => With(t, i, t.proc[i].(state := UNUSED))
    case Adopt(i, p) => Adopted(t, i, p)
    case Ready(i) => With(t, i, t.proc[i].(state := RUNNABLE))
    case Exit(p) => Exited(t, p)
    case Reap(p, j) => Reaped(t, p, j)
    case WaitSleep(p) => With(t, p, t.proc[p].(state := SLEEPING, chan := OfProc(p)))
    case Change(i, x) => With(t, i, x)
    case WakeAll(c) => t.(proc := seq(|t.proc|, i requires 0 <= i < |t.proc| => Wake(t.proc[i], c)))
    case Kill(i) => With(t, i, Killed(t.proc[i]))
  }

  // ---------- every step keeps the invariant ----------

  /** Slot i keeps its parent and pid, stays free, live or zombie, and does not fall
      asleep in wait. */
  ghost predicate Gentle(t: Table, t': Table, i: nat)
    requires i < |t.proc| == |t'.proc|
  {
    var a, b := t.proc[i], t'.proc[i];
    && b.pid == a.pid && b.parent == a.parent
    && (b.state == UNUSED <==> a.state == UNUSED) && (b.state == ZOMBIE <==> a.state == ZOMBIE)
    && (b.state == EMBRYO ==> a.state == EMBRYO)
    && (InWait(t', i) ==> InWait(t, i) && b.killed == a.killed)
    && (a.state == EMBRYO && b.state != EMBRYO ==> a.parent != -1)
  }

  lemma GentleWait(t: Table, t': Table, i: nat)
    requires |t.proc| == |t'.proc| && i < |t.proc| && WaitOk(t, i)
    requires forall k: nat :: k < |t.proc| ==> Gentle(t, t', k)
    ensures WaitOk(t', i)
  {
    if InWait(t', i) {
      assert Gentle(t, t', i);
      var j :| 0 <= j < |t.proc| && t.proc[j].parent == i;
      assert Gentle(t, t', j);
      forall k | 0 <= k < |t'.proc| && t'.proc[k].parent == i ensures t'.proc[k].state != ZOMBIE {
        assert Gentle(t, t', k);
      }
    }
  }

  lemma ZombieStays(t: Table, t': Table, pid: nat)
    requires |t.proc| == |t'.proc| && Zombie(t, pid)
    requires forall k: nat :: k < |t.proc| && t.proc[k].state == ZOMBIE ==>
               t'.proc[k].state == ZOMBIE && t'.proc[k].pid == t.proc[k].pid
    ensures Zombie(t', pid)
  {
  }

  lemma GentleInv(t: Table, t': Table)
    requires Inv(t) && |t.proc| == |t'.proc| && t'.init == t.init && t'.nextpid == t.nextpid && t'.log == t.log
    requires forall k: nat :: k < |t.proc| ==> Gentle(t, t', k)
    ensures Inv(t')
  {
    hide Zombie;
    assert Gentle(t, t', t.init);
    forall i: nat | i < |t'.proc| ensures ParentOk(t', i) && WaitOk(t', i) && PidOk(t', i) {
      assert Gentle(t, t', i) && ParentOk(t, i) && WaitOk(t, i) && PidOk(t, i);
      if t.proc[i].parent != -1 {
        assert Gentle(t, t', t.proc[i].parent);
      }
      GentleWait(t, t', i);
    }
    forall i, j | 0 <= i < j < |t'.proc| && t'.proc[i].state != UNUSED && t'.proc[j].state != UNUSED
      ensures t'.proc[i].pid != t'.proc[j].pid
    {
      assert Gentle(t, t', i) && Gentle(t, t', j);
    }
    forall pid | pid in t.log.exited && pid !in t.log.reaped ensures Zombie(t', pid) {
      forall k: nat | k < |t.proc| && t.proc[k].state == ZOMBIE
        ensures t'.proc[k].state == ZOMBIE && t'.proc[k].pid == t.proc[k].pid
      {
        assert Gentle(t, t', k);
      }
      ZombieStays(t, t', pid);
    }
  }

  lemma ChangeInv(t: Table, i: nat, x: Proc)
    requires Inv(t) && Enabled(t, Change(i, x))
    ensures Inv(With(t, i, x))
  {
    forall k: nat | k < |t.proc| ensures Gentle(t, With(t, i, x), k) {
    }
    GentleInv(t, With(t, i, x));
  }

  lemma WakeAllInv(t: Table, c: Chan)
    requires Inv(t)
    ensures Inv(Apply(t, WakeAll(c)))
  {
    forall k: nat | k < |t.proc| ensures Gentle(t, Apply(t, WakeAll(c)), k) {
    }
    GentleInv(t, Apply(t, WakeAll(c)));
  }

  lemma KillInv(t: Table, i: nat)
    requires Inv(t) && Enabled(t, Kill(i))
    ensures Inv(Apply(t, Kill(i)))
  {
    forall k: nat | k < |t.proc| ensures Gentle(t, Apply(t, Kill(i)), k) {
    }
    GentleInv(t, Apply(t, Kill(i)));
  }

  lemma ReadyInv(t: Table, i: nat)
    requires Inv(t) && Enabled(t, Ready(i))
    ensures Inv(Apply(t, Ready(i)))
  {
    forall k: nat | k < |t.proc| ensures Gentle(t, Apply(t, Ready(i)), k) {
    }
    GentleInv(t, Apply(t, Ready(i)));
  }

  /** A slot nobody has as its parent, that is no zombie before or after, may change
      freely, as long as it is in order itself. */
  lemma LoneSlotInv(t: Table, t': Table, i: nat)
    requires Inv(t) && i < |t.proc| == |t'.proc| && i != t.init && t'.init == t.init && t'.nextpid >= t.nextpid
    requires t.proc[i].state == EMBRYO || t.proc[i].state == UNUSED
    requires t'.proc[i].state == EMBRYO || t'.proc[i].state == UNUSED
    requires forall k: nat :: k < |t.proc| && k != i ==> t'.proc[k] == t.proc[k] && t.proc[k].parent != i
    requires t.proc[i].parent == -1 && t'.log.exited == t.log.exited && t'.log.reaped == t.log.reaped
    requires ParentOk(t', i) && PidOk(t', i)
    requires t'.proc[i].state != UNUSED ==>
               forall k: nat :: k < |t.proc| && k != i && t.proc[k].state != UNUSED ==> t.proc[k].pid != t'.proc[i].pid
    requires t'.proc[i].parent >= 0 ==> t.proc[t'.proc[i].parent].state == RUNNING
    requires t'.proc[i].state == UNUSED ==> t'.log.born == t.log.born
    requires forall pid :: pid in t.log.born && pid != t'.proc[i].pid ==>
               pid in t'.log.born && t'.log.born[pid] == t.log.born[pid]
    requires forall pid :: pid in t'.log.born ==> pid < t'.nextpid
    requires t'.proc[i].pid !in t.log.reaped
    ensures Inv(t')
  {
    hide Zombie;
    forall k: nat | k < |t'.proc| ensures ParentOk(t', k) && WaitOk(t', k) && PidOk(t', k) {
      assert ParentOk(t, k) && WaitOk(t, k) && PidOk(t, k);
      if k != i {
        LoneSlotWait(t, t', i, k);
        LoneSlotPid(t, t', i, k);
      }
    }
    forall pid | pid in t.log.exited && pid !in t.log.reaped ensures Zombie(t', pid) {
      ZombieStays(t, t', pid);
    }
  }

  lemma LoneSlotPid(t: Table, t': Table, i: nat, k: nat)
    requires |t.proc| == |t'.proc| && i < |t.proc| && k < |t.proc| && k != i && PidOk(t, k) && t.proc[k].parent != i
    requires forall m: nat :: m < |t.proc| && m != i ==> t'.proc[m] == t.proc[m]
    requires t'.init == t.init && t'.nextpid >= t.nextpid
    requires t'.log.exited == t.log.exited && t'.log.reaped == t.log.reaped
    requires t.proc[k].state != UNUSED && t'.proc[i].state != UNUSED ==> t.proc[k].pid != t'.proc[i].pid
    requires t'.proc[i].state == UNUSED ==> t'.log.born == t.log.born
    requires forall pid :: pid in t.log.born && pid != t'.proc[i].pid ==>
               pid in t'.log.born && t'.log.born[pid] == t.log.born[pid]
    ensures PidOk(t', k)
  {
  }

  lemma LoneSlotWait(t: Table, t': Table, i: nat, k: nat)
    requires |t.proc| == |t'.proc| && i < |t.proc| && k < |t.proc| && k != i && WaitOk(t, k)
    requires forall m: nat :: m < |t.proc| && m != i ==> t'.proc[m] == t.proc[m]
    requires t.proc[i].parent == -1 && t'.proc[i].state != ZOMBIE
    ensures WaitOk(t', k)
  {
    if InWait(t', k) {
      var j :| 0 <= j < |t.proc| && t.proc[j].parent == k;
      assert t'.proc[j].parent == k;
    }
  }

  lemma AllocInv(t: Table, i: nat)
    requires Inv(t) && Enabled(t, Alloc(i))
    ensures Inv(Apply(t, Alloc(i)))
  {
    NoChildren(t, i);
    assert ParentOk(t, i);
    forall k: nat | k < |t.proc| && k != i && t.proc[k].state != UNUSED ensures t.proc[k].pid != t.nextpid {
      assert PidOk(t, k);
    }
    LoneSlotInv(t, Apply(t, Alloc(i)), i);
  }

  lemma AllocFailsInv(t: Table, i: nat)
    requires Inv(t) && Enabled(t, AllocFails(i))
    ensures Inv(Apply(t, AllocFails(i)))
  {
    NoChildren(t, i);
    assert PidOk(t, i);
    LoneSlotInv(t, Apply(t, AllocFails(i)), i);
  }

  /** Free slots, and slots still being set up, are nobody's parent. */
  lemma NoChildren(t: Table, i: nat)
    requires Inv(t) && i < |t.proc| && !Alive(t.proc[i].state)
    ensures forall k: nat :: k < |t.proc| ==> t.proc[k].parent != i
  {
    forall k: nat | k < |t.proc| ensures t.proc[k].parent != i {
      assert ParentOk(t, k);
    }
  }

  lemma AdoptInv(t: Table, i: nat, p: nat)
    requires Inv(t) && Enabled(t, Adopt(i, p))
    ensures Inv(Apply(t, Adopt(i, p)))
  {
    NoChildren(t, i);
    assert PidOk(t, i);
    forall k: nat | k < |t.proc| && k != i && t.proc[k].state != UNUSED ensures t.proc[k].pid != t.proc[i].pid {
      assert k < i || i < k;
    }
    LoneSlotInv(t, Apply(t, Adopt(i, p)), i);
  }

  lemma WaitSleepInv(t: Table, p: nat)
    requires Inv(t) && Enabled(t, WaitSleep(p))
    ensures Inv(Apply(t, WaitSleep(p)))
  {
    hide Zombie;
    var t' := Apply(t, WaitSleep(p));
    forall k: nat | k < |t'.proc| ensures ParentOk(t', k) && WaitOk(t', k) && PidOk(t', k) {
      assert ParentOk(t, k) && WaitOk(t, k) && PidOk(t, k);
      SleepWait(t, p, k);
    }
    forall pid | pid in t.log.exited && pid !in t.log.reaped ensures Zombie(t', pid) {
      ZombieStays(t, t', pid);
    }
  }

  lemma SleepWait(t: Table, p: nat, k: nat)
    requires Enabled(t, WaitSleep(p)) && k < |t.proc| && WaitOk(t, k)
    ensures WaitOk(Apply(t, WaitSleep(p)), k)
  {
    var t' := Apply(t, WaitSleep(p));
    if InWait(t', k) {
      assert HasChild(t, k);
      var j :| 0 <= j < |t.proc| && t.proc[j].parent == k;
      assert t'.proc[j].parent == k;
      forall m | 0 <= m < |t'.proc| && t'.proc[m].parent == k ensures t'.proc[m].state != ZOMBIE {
        assert t.proc[m].parent == k;
      }
    }
  }

  // ---------- exit ----------

  lemma ExitWait(t: Table, p: nat, k: nat)
    requires Inv(t) && Enabled(t, Exit(p)) && k < |t.proc|
    ensures WaitOk(Apply(t, Exit(p)), k)
  {
    var t' := Apply(t, Exit(p));
    assert WaitOk(t, k) && ParentOk(t, k) && ParentOk(t, p);
    assert t'.proc[k] == AfterExit(t, p, k);
    if InWait(t', k) {
      assert InWait(t, k) && k != t.proc[p].parent && k != p;
      var j :| 0 <= j < |t.proc| && t.proc[j].parent == k;
      assert t'.proc[j] == AfterExit(t, p, j);
      assert t'.proc[j].parent == k;
      forall m | 0 <= m < |t'.proc| && t'.proc[m].parent == k ensures t'.proc[m].state != ZOMBIE {
        assert t'.proc[m] == AfterExit(t, p, m);
        if t.proc[m].parent == p {
          assert k == t.init;
          assert t.proc[m].state == ZOMBIE ==> ZombieChild(t, p);
        }
      }
    }
  }

  lemma ExitParent(t: Table, p: nat, k: nat)
    requires Inv(t) && Enabled(t, Exit(p)) && k < |t.proc|
    ensures ParentOk(Apply(t, Exit(p)), k)
  {
    hide WaitOk, PidOk, LogOk, DistinctPids, ZombieChild;
    var t' := Apply(t, Exit(p));
    assert ParentOk(t, k) && ParentOk(t, p);
    assert t'.proc[k] == AfterExit(t, p, k) && t'.proc[t.init] == AfterExit(t, p, t.init);
    if t.proc[k].parent >= 0 && t.proc[k].parent != p {
      assert t'.proc[t.proc[k].parent] == AfterExit(t, p, t.proc[k].parent);
    }
  }

  lemma ExitPid(t: Table, p: nat, k: nat)
    requires Inv(t) && Enabled(t, Exit(p)) && k < |t.proc|
    ensures PidOk(Apply(t, Exit(p)), k)
  {
    hide WaitOk, ZombieChild, LogOk;
    var t' := Apply(t, Exit(p));
    assert PidOk(t, k) && PidOk(t, p) && ParentOk(t, k);
    assert t'.proc[k] == AfterExit(t, p, k) && t'.proc[t.init] == AfterExit(t, p, t.init);
    if t.proc[k].parent >= 0 {
      assert t'.proc[t.proc[k].parent] == AfterExit(t, p, t.proc[k].parent);
    }
    if k != p && t.proc[k].state != UNUSED {
      assert k < p || p < k;
    }
  }

  lemma ExitInv(t: Table, p: nat)
    requires Inv(t) && Enabled(t, Exit(p))
    ensures Inv(Apply(t, Exit(p)))
  {
    hide Zombie, WaitOk, ParentOk, PidOk, LogOk, DistinctPids;
    var t' := Apply(t, Exit(p));
    forall k: nat | k < |t'.proc| ensures ParentOk(t', k) && WaitOk(t', k) && PidOk(t', k) {
      ExitWait(t, p, k);
      ExitParent(t, p, k);
      ExitPid(t, p, k);
    }
    assert t'.proc[t.init] == AfterExit(t, p, t.init);
    ExitDistinct(t, p);
    ExitLog(t, p);
  }

  lemma ExitDistinct(t: Table, p: nat)
    requires DistinctPids(t) && Enabled(t, Exit(p))
    ensures DistinctPids(Apply(t, Exit(p)))
  {
    var t' := Apply(t, Exit(p));
    forall i, j | 0 <= i < j < |t'.proc| && t'.proc[i].state != UNUSED && t'.proc[j].state != UNUSED
      ensures t'.proc[i].pid != t'.proc[j].pid
    {
      assert t'.proc[i] == AfterExit(t, p, i) && t'.proc[j] == AfterExit(t, p, j);
    }
  }

  lemma ExitLog(t: Table, p: nat)
    requires Inv(t) && Enabled(t, Exit(p))
    ensures LogOk(Apply(t, Exit(p)))
  {
    hide Zombie, WaitOk, ParentOk;
    var t' := Apply(t, Exit(p));
    assert PidOk(t, p);
    assert t'.proc[t.init] == AfterExit(t, p, t.init);
    forall pid | pid in t'.log.exited && pid !in t'.log.reaped ensures Zombie(t', pid) {
      if pid == t.proc[p].pid {
        assert t'.proc[p] == AfterExit(t, p, p);
        ZombieIs(t', p);
      } else {
        forall k: nat | k < |t.proc| && t.proc[k].state == ZOMBIE
          ensures t'.proc[k].state == ZOMBIE && t'.proc[k].pid == t.proc[k].pid
        {
          assert t'.proc[k] == AfterExit(t, p, k);
        }
        ZombieStays(t, t', pid);
      }
    }
  }

  lemma ZombieIs(t: Table, i: nat)
    requires i < |t.proc| && t.proc[i].state == ZOMBIE
    ensures Zombie(t, t.proc[i].pid)
  {
  }

  // ---------- wait ----------

  lemma ReapSlot(t: Table, p: nat, j: nat, k: nat)
    requires Inv(t) && Enabled(t, Reap(p, j)) && k < |t.proc|
    ensures var t' := Apply(t, Reap(p, j)); ParentOk(t', k) && WaitOk(t', k) && PidOk(t', k)
  {
    var t' := Apply(t, Reap(p, j));
    assert ParentOk(t, k) && WaitOk(t, k) && PidOk(t, k) && PidOk(t, j);
    NoChildren(t, j);
    if k != j {
      if t.proc[k].state != UNUSED {
        assert k < j || j < k;
      }
      if InWait(t', k) {
        var m :| 0 <= m < |t.proc| && t.proc[m].parent == k;
        assert m != j;
        assert t'.proc[m].parent == k;
      }
    }
  }

  lemma ReapInv(t: Table, p: nat, j: nat)
    requires Inv(t) && Enabled(t, Reap(p, j))
    ensures Inv(Apply(t, Reap(p, j)))
  {
    hide WaitOk, ParentOk;
    var t' := Apply(t, Reap(p, j));
    forall k: nat | k < |t'.proc| ensures ParentOk(t', k) && WaitOk(t', k) && PidOk(t', k) {
      ReapSlot(t, p, j, k);
    }
    assert PidOk(t, j);
    forall pid | pid in t.log.exited && pid !in t'.log.reaped ensures Zombie(t', pid) {
      var i :| 0 <= i < |t.proc| && t.proc[i].state == ZOMBIE && t.proc[i].pid == pid;
      assert t'.proc[i] == t.proc[i];
    }
  }

  /** Every step of every process keeps the invariant. */
  lemma StepKeepsInv(t: Table, step: Step)
    requires Inv(t) && Enabled(t, step)
    ensures Inv(Apply(t, step))
  {
    match step
    case Alloc(i) => AllocInv(t, i);
    case AllocFails(i) => AllocFailsInv(t, i);
    case Adopt(i, p) => AdoptInv(t, i, p);
    case Ready(i) => ReadyInv(t, i);
    case Exit(p) => ExitInv(t, p);
    case Reap(p, j) => ReapInv(t, p, j);
    case WaitSleep(p) => WaitSleepInv(t, p);
    case Change(i, x) => ChangeInv(t, i, x);
    case WakeAll(c) => WakeAllInv(t, c);
    case Kill(i) => KillInv(t, i);
  }

  ghost predicate IsRun(ts: seq<Table>, steps: seq<Step>) {
    && |ts| == |steps| + 1
    && forall i :: 0 <= i < |steps| ==> Enabled(ts[i], steps[i]) && ts[i + 1] == Apply(ts[i], steps[i])
  }

  /** In every run: no process sleeps in wait while a child of its is a zombie, without
      any child or when it was killed; parents are alive; and whoever has exited is either a zombie
      still, or was collected once, by its forker or by init. */
  lemma {:induction false} RunKeepsInv(ts: seq<Table>, steps: seq<Step>)
    requires IsRun(ts, steps) && Inv(ts[0])
    ensures Inv(ts[|steps|])
    decreases |steps|
  {
    hide Inv, Enabled, Apply;
    var n := |steps|;
    if n > 0 {
      RunKeepsInv(ts[..n], steps[..n - 1]);
      assert ts[n - 1 + 1] == Apply(ts[n - 1], steps[n - 1]);
      StepKeepsInv(ts[n - 1], steps[n - 1]);
    }
  }

  lemma ReapedStays(t: Table, step: Step, pid: nat)
    requires Inv(t) && Enabled(t, step) && pid in t.log.reaped
    ensures var t' := Apply(t, step); pid in t'.log.reaped && t'.log.reaped[pid] == t.log.reaped[pid]
    ensures step.Reap? ==> t.proc[step.j].pid != pid
  {
    if step.Reap? {
      assert PidOk(t, step.j);
    }
  }

  /** A pid is collected at most once: once collected, no later step can collect it
      again, and the record of who did it never changes. */
  lemma {:induction false} ReapedOnce(ts: seq<Table>, steps: seq<Step>, pid: nat)
    requires IsRun(ts, steps) && Inv(ts[0]) && pid in ts[0].log.reaped
    ensures pid in ts[|steps|].log.reaped && ts[|steps|].log.reaped[pid] == ts[0].log.reaped[pid]
    ensures forall i :: 0 <= i < |steps| && steps[i].Reap? ==> ts[i].proc[steps[i].j].pid != pid
    decreases |steps|
  {
    hide Inv, Apply;
    var n := |steps|;
    if n > 0 {
      ReapedOnce(ts[..n], steps[..n - 1], pid);
      RunKeepsInv(ts[..n], steps[..n - 1]);
      assert Enabled(ts[n - 1], steps[n - 1]) && ts[n - 1 + 1] == Apply(ts[n - 1], steps[n - 1]);
      ReapedStays(ts[n - 1], steps[n - 1], pid);
      forall i | 0 <= i < n && steps[i].Reap? ensures ts[i].proc[steps[i].j].pid != pid {
        if i < n - 1 {
          assert steps[..n - 1][i].Reap?;
        }
      }
    }
  }

  /** Whether the process with the pid, if it still is in entry i, is marked as killed. */
  ghost predicate Marked(t: Table, i: nat, pid: nat) {
    i < |t.proc| && pid < t.nextpid && (t.proc[i].pid == pid ==> t.proc[i].killed)
  }

  lemma StaysMarked(t: Table, step: Step, i: nat, pid: nat)
    requires Enabled(t, step) && Marked(t, i, pid) && pid > 0
    ensures Marked(Apply(t, step), i, pid)
  {
    if step.Exit? {
      assert Apply(t, step).proc[i] == AfterExit(t, step.p, i);
    }
  }

  /** In every run, once a process has been killed it stays marked until it is collected, and
      is never asleep in wait; kill also takes it out of any other sleep it is in. */
  lemma KillTakes(ts: seq<Table>, steps: seq<Step>, k: nat)
    requires IsRun(ts, steps) && Inv(ts[0]) && k < |steps| && steps[k].Kill?
    requires steps[k].i < |ts[k].proc| && ts[k].proc[steps[k].i].state != UNUSED
    ensures var i, pid := steps[k].i, ts[k].proc[steps[k].i].pid;
      && i < |ts[k + 1].proc| && ts[k + 1].proc[i].pid == pid && ts[k + 1].proc[i].state != SLEEPING
      && i < |ts[|steps|].proc|
      && (ts[|steps|].proc[i].pid == pid ==> ts[|steps|].proc[i].killed && !InWait(ts[|steps|], i))
  {
    hide Inv, Enabled, Apply;
    var n, i, pid := |steps|, steps[k].i, ts[k].proc[steps[k].i].pid;
    RunKeepsInv(ts[..k + 1], steps[..k]);
    KillMarks(ts[k], i);
    assert ts[k + 1] == Apply(ts[k], steps[k]);
    MarkedOn(ts, steps, k + 1, n, i, pid);
    RunKeepsInv(ts, steps);
    if ts[n].proc[i].pid == pid {
      MarkedAwake(ts[n], i);
    }
  }

  lemma KillMarks(t: Table, i: nat)
    requires Inv(t) && i < |t.proc| && t.proc[i].state != UNUSED
    ensures Enabled(t, Kill(i)) && i < |Apply(t, Kill(i)).proc| && t.proc[i].pid > 0
    ensures Marked(Apply(t, Kill(i)), i, t.proc[i].pid)
    ensures Apply(t, Kill(i)).proc[i].pid == t.proc[i].pid && Apply(t, Kill(i)).proc[i].state != SLEEPING
  {
    assert PidOk(t, i);
  }

  lemma MarkedAwake(t: Table, i: nat)
    requires Inv(t) && i < |t.proc| && t.proc[i].killed
    ensures !InWait(t, i)
  {
    assert WaitOk(t, i);
  }

  lemma {:induction false} MarkedOn(ts: seq<Table>, steps: seq<Step>, k: nat, n: nat, i: nat, pid: nat)
    requires IsRun(ts, steps) && k <= n <= |steps| && pid > 0 && Marked(ts[k], i, pid)
    ensures Marked(ts[n], i, pid)
    decreases n
  {
    hide Enabled, Apply, Marked;
    if k < n {
      MarkedOn(ts, steps, k, n - 1, i, pid);
      assert Enabled(ts[n - 1], steps[n - 1]) && ts[n - 1 + 1] == Apply(ts[n - 1], steps[n - 1]);
      StaysMarked(ts[n - 1], steps[n - 1], i, pid);
    }
  }

  // ---------- the code ----------

  /** wait's outcomes: a child collected, the error return, or asleep in wait. */
  datatype WaitResult = Got(pid: nat) | Nothing | Asleep

  /** Slot x of exit's loop after k slots, zombie telling if a zombie child was seen. */
  function MidExit(x: Proc, p: nat, init: nat, done: bool, zombie: bool): Proc {
    var y := if done && x.parent == p then x.(parent := init) else x;
    if zombie then Wake(y, OfProc(init)) else y
  }

  /** Some of the first n slots is a zombie child of p. */
  ghost predicate ZombieAmong(proc: seq<Proc>, p: nat, n: nat)
    requires n <= |proc|
  {
    exists j :: 0 <= j < n && proc[j].parent == p && proc[j].state == ZOMBIE
  }

  /** j is the first zombie child of p. */
  ghost predicate FirstZombie(t: Table, p: nat, j: nat) {
    && Enabled(t, Reap(p, j))
    && forall k :: 0 <= k < j ==> !(t.proc[k].parent == p && t.proc[k].state == ZOMBIE)
  }

  /** Entry j, with the pid, is unused now, and nothing else has changed. */
  ghost predicate Collected(before: seq<Proc>, after: seq<Proc>, j: nat, pid: nat) {
    && |after| == |before| && j < |before| && before[j].pid == pid
    && after[j].state == UNUSED && after[j].pid == 0 && after[j].parent == -1 && !after[j].killed
    && forall k :: 0 <= k < |before| && k != j ==> after[k] == before[k]
  }

  /** Process p is a zombie and its children are init's; whoever slept in wait as its parent is
      woken, and so is init if it has inherited a zombie; nothing else has changed. */
  ghost predicate ExitedAs(before: seq<Proc>, after: seq<Proc>, p: nat, init: nat) {
    && |after| == |before| && p < |before|
    && forall k :: 0 <= k < |before| ==>
         && after[k].pid == before[k].pid && after[k].chan == before[k].chan && after[k].killed == before[k].killed
         && after[k].parent == (if before[k].parent == p then init else before[k].parent)
         && after[k].state ==
            (if k == p then ZOMBIE
             else if before[k].state != SLEEPING || before[k].chan.NoChan? || before[k].chan.Other? then before[k].state
             else if before[k].chan.i == before[p].parent then RUNNABLE
             else if before[k].chan.i == init && ZombieAmong(before, p, |before|) then RUNNABLE
             else SLEEPING)
  }

  lemma ExitedIs(t: Table, p: nat)
    requires p < |t.proc| && t.proc[p].parent >= 0
    ensures ExitedAs(t.proc, Exited(t, p).proc, p, t.init)
  {
    var after := Exited(t, p).proc;
    forall k | 0 <= k < |t.proc| ensures after[k] == AfterExit(t, p, k) {
    }
  }

  /** Entry i is marked, and not asleep; nothing else has changed. */
  ghost predicate KilledAt(before: seq<Proc>, after: seq<Proc>, i: nat) {
    && |after| == |before| && i < |before| && after[i].killed
    && after[i].state == (if before[i].state == SLEEPING then RUNNABLE else before[i].state)
    && after[i].pid == before[i].pid && after[i].parent == before[i].parent && after[i].chan == before[i].chan
    && forall k :: 0 <= k < |before| && k != i ==> after[k] == before[k]
  }

  /** Entry i is the first with the pid. */
  ghost predicate FirstWith(t: Table, i: nat, pid: nat) {
    i < |t.proc| && t.proc[i].pid == pid && forall k :: 0 <= k < i ==> t.proc[k].pid != pid
  }

  /** exit's steps amount to AfterExit. */
  lemma ExitIs(t: Table, mid: seq<Proc>, p: nat, k: nat)
    requires p < |t.proc| == |mid| && k < |t.proc| && t.proc[p].parent >= 0
    requires forall i :: 0 <= i < |mid| ==> mid[i] == Wake(t.proc[i], OfProc(t.proc[p].parent))
    ensures var x := MidExit(mid[k], p, t.init, true, ZombieAmong(mid, p, |mid|));
      AfterExit(t, p, k) == if k == p then x.(state := ZOMBIE) else x
  {
    if ZombieAmong(mid, p, |mid|) {
      var j :| 0 <= j < |mid| && mid[j].parent == p && mid[j].state == ZOMBIE;
      assert t.proc[j].parent == p && t.proc[j].state == ZOMBIE;
    }
    if ZombieChild(t, p) {
      var j :| 0 <= j < |t.proc| && t.proc[j].parent == p && t.proc[j].state == ZOMBIE;
      assert mid[j].parent == p && mid[j].state == ZOMBIE;
    }
  }

  class Ptable {
    const proc: array<Proc>
    var init: nat
    var nextpid: nat
    ghost var log: History

    ghost function Abs(): Table
      reads this, proc
    {
      Table(proc[..], init, nextpid, log)
    }

    constructor (n: nat)
      ensures proc.Length == n && fresh(proc) && nextpid == 1 && log == History(map[], {}, map[])
      ensures forall i :: 0 <= i < n ==> proc[i] == Proc(UNUSED, 0, -1, NoChan, false)
    {
      proc := new Proc[n](_ => Proc(UNUSED, 0, -1, NoChan, false));
      init, nextpid, log := 0, 1, History(map[], {}, map[]);
    }

    method Wakeup1(c: Chan)
      modifies proc
      ensures forall i :: 0 <= i < proc.Length ==> proc[i] == Wake(old(proc[i]), c)
      ensures forall i :: 0 <= i < proc.Length ==>
                proc[i] == old(proc[i]).(state :=
                  if old(proc[i]).state == SLEEPING && old(proc[i]).chan == c then RUNNABLE else old(proc[i]).state)
    {
      for i := 0 to proc.Length
        invariant forall k :: 0 <= k < proc.Length ==>
                    proc[k] == if k < i then Wake(old(proc[k]), c) else old(proc[k])
      {
        if proc[i].state == SLEEPING && proc[i].chan == c {
          proc[i] := proc[i].(state := RUNNABLE);
        }
      }
    }

    /** wakeup: wakeup1 under ptable.lock. */
    method Wakeup(c: Chan)
      requires Inv(Abs())
      modifies proc
      ensures Abs() == Apply(old(Abs()), WakeAll(c)) && Inv(Abs())
    {
      StepKeepsInv(Abs(), WakeAll(c));
      Wakeup1(c);
    }

    /** exit's loop: the children of p go to init, which is woken if one is a zombie. */
    method HandOver(p: nat)
      modifies proc
      ensures forall k :: 0 <= k < proc.Length ==>
                proc[k] == MidExit(old(proc[k]), p, init, true, ZombieAmong(old(proc[..]), p, proc.Length))
    {
      ghost var before := proc[..];
      ghost var zombie := false;
      for i := 0 to proc.Length
        invariant zombie <==> ZombieAmong(before, p, i)
        invariant forall k :: 0 <= k < proc.Length ==> proc[k] == MidExit(before[k], p, init, k < i, zombie)
      {
        if proc[i].parent == p {
          proc[i] := proc[i].(parent := init);
          if proc[i].state == ZOMBIE {
            zombie := true;
            Wakeup1(OfProc(init));
          }
        }
      }
    }

    /** The locked part of exit: wake the parent, hand the children to init, become a
        zombie. */
    method Exit(p: nat)
      requires Inv(Abs()) && p < proc.Length && p != init && proc[p].state == RUNNING
      modifies this`log, proc
      ensures Enabled(old(Abs()), Step.Exit(p)) && Abs() == Apply(old(Abs()), Step.Exit(p)) && Inv(Abs())
      ensures ExitedAs(old(proc[..]), proc[..], p, init)
    {
      ghost var t := Abs();
      assert ParentOk(t, p);
      StepKeepsInv(t, Step.Exit(p));
      hide Inv, ExitedAs;
      Wakeup1(OfProc(proc[p].parent));
      ghost var mid := proc[..];
      HandOver(p);
      proc[p] := proc[p].(state := ZOMBIE);
      log := log.(exited := log.exited + {t.proc[p].pid});
      forall k | 0 <= k < proc.Length ensures proc[k] == AfterExit(t, p, k) {
        ExitIs(t, mid, p, k);
      }
      assert Abs() == Exited(t, p);
      ExitedIs(t, p);
    }

    /** One pass of wait: collect the first zombie child; give up without children or
        if killed; sleep otherwise. */
    method Wait(p: nat) returns (r: WaitResult)
      requires Inv(Abs()) && p < proc.Length && proc[p].state == RUNNING
      modifies this`log, proc
      ensures Inv(Abs())
      ensures r.Got? <==> ZombieChild(old(Abs()), p)
      ensures r.Nothing? <==> !ZombieChild(old(Abs()), p) && (!HasChild(old(Abs()), p) || old(proc[p]).killed)
      ensures r.Got? ==> exists j: nat ::
                j < proc.Length && FirstZombie(old(Abs()), p, j) && Collected(old(proc[..]), proc[..], j, r.pid)
      ensures match r
        case Got(pid) => exists j: nat ::
          j < proc.Length && FirstZombie(old(Abs()), p, j) && old(proc[j]).pid == pid && Abs() == Reaped(old(Abs()), p, j)
        case Nothing => Abs() == old(Abs()) && !ZombieChild(Abs(), p) && (!HasChild(Abs(), p) || proc[p].killed)
        case Asleep =>
          Enabled(old(Abs()), WaitSleep(p)) && Abs() == Apply(old(Abs()), WaitSleep(p)) && !old(proc[p]).killed
    {
      ghost var t := Abs();
      var havekids := false;
      for j := 0 to proc.Length
        invariant Abs() == t
        invariant havekids <==> exists k :: 0 <= k < j && t.proc[k].parent == p
        invariant forall k :: 0 <= k < j ==> !(t.proc[k].parent == p && t.proc[k].state == ZOMBIE)
      {
        if proc[j].parent == p {
          havekids := true;
          if proc[j].state == ZOMBIE {
            StepKeepsInv(t, Reap(p, j));
            r := Got(proc[j].pid);
            log := log.(reaped := log.reaped[proc[j].pid := proc[p].pid]);
            proc[j] := proc[j].(state := UNUSED, pid := 0, parent := -1, killed := false);
            assert FirstZombie(t, p, j) && Abs() == Reaped(t, p, j) && Collected(t.proc, proc[..], j, r.pid);
            return;
          }
        }
      }
      if !havekids || proc[p].killed {
        return Nothing;
      }
      assert Enabled(t, WaitSleep(p));
      StepKeepsInv(t, WaitSleep(p));
      proc[p] := proc[p].(chan := OfProc(p));
      proc[p] := proc[p].(state := SLEEPING);
      assert Abs() == Apply(t, WaitSleep(p));
      return Asleep;
    }

    /** allocproc: the first free slot, or none. */
    method Allocproc() returns (ok: bool, i: nat)
      requires Inv(Abs())
      modifies this`nextpid, proc
      ensures Inv(Abs())
      ensures ok ==>
        && i < proc.Length && old(proc[i]).state == UNUSED && (forall k :: 0 <= k < i ==> old(proc[k]).state != UNUSED)
        && Abs() == Allocated(old(Abs()), i)
        && proc[i].state == EMBRYO && proc[i].pid == old(nextpid) && nextpid == old(nextpid) + 1
        && proc[i].parent == old(proc[i]).parent && (forall k :: 0 <= k < proc.Length && k != i ==> proc[k] == old(proc[k]))
      ensures !ok ==> Abs() == old(Abs()) && forall k :: 0 <= k < proc.Length ==> proc[k].state != UNUSED
    {
      hide Inv;
      ghost var t := Abs();
      i := 0;
      while i < proc.Length && proc[i].state != UNUSED
        invariant 0 <= i <= proc.Length && forall k :: 0 <= k < i ==> proc[k].state != UNUSED
      {
        i := i + 1;
      }
      if i == proc.Length {
        return false, 0;
      }
      StepKeepsInv(Abs(), Alloc(i));
      proc[i] := proc[i].(state := EMBRYO);
      proc[i] := proc[i].(pid := nextpid);
      nextpid := nextpid + 1;
      assert Abs() == Allocated(t, i);
      ok := true;
    }

    /** kill: mark the first process with the pid and take it out of any sleep. */
    method Kill(pid: nat) returns (ok: bool)
      requires Inv(Abs())
      modifies proc
      ensures Inv(Abs())
      ensures ok ==> exists i: nat :: i < proc.Length && FirstWith(old(Abs()), i, pid) && Abs() == Apply(old(Abs()), Step.Kill(i))
      ensures ok ==> exists i: nat :: i < proc.Length && FirstWith(old(Abs()), i, pid) && KilledAt(old(proc[..]), proc[..], i)
      ensures !ok ==> Abs() == old(Abs()) && forall k :: 0 <= k < proc.Length ==> proc[k].pid != pid
    {
      var i := 0;
      while i < proc.Length && proc[i].pid != pid
        invariant 0 <= i <= proc.Length && forall k :: 0 <= k < i ==> proc[k].pid != pid
      {
        i := i + 1;
      }
      if i == proc.Length {
        return false;
      }
      StepKeepsInv(Abs(), Step.Kill(i));
      proc[i] := proc[i].(killed := true);
      if proc[i].state == SLEEPING {
        proc[i] := proc[i].(state := RUNNABLE);
      }
      assert FirstWith(old(Abs()), i, pid) && Abs() == Apply(old(Abs()), Step.Kill(i));
      assert KilledAt(old(proc[..]), proc[..], i);
      return true;
    }
  }
}
