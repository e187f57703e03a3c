/**
 Every run of the process table: fork, exit, wait, sleep, wakeup, kill, yield and the
 scheduler, in any interleaving over the CPUs.
 */
module ProcRuns {
  import opened Common
  import opened ProcTable

  datatype State = State(ps: seq<Proc>, cpus: seq<Option<nat>>, init: nat, nextpid: nat,
                         exited: set<nat>,   // pids that have become zombies
                         reaped: set<nat>)   // pids that wait has returned

  datatype Step =
    | AllocProc(c: nat, i: nat)     // the locked part of allocproc, called by fork on CPU c
    | ForkFail(c: nat)              // no memory: the entry becomes UNUSED again
    | ForkLink(c: nat)              // np->parent = curproc
    | ForkDone(c: nat)              // np->state = RUNNABLE
    | Exit(c: nat)
    | WaitReap(c: nat, j: nat)
    | WaitSleep(c: nat)
    | Dispatch(c: nat, i: nat)      // the scheduler of CPU c picks a process
    | Yield(c: nat)
    | Sleep(c: nat, n: nat)
    | Wakeup(n: nat)
    | Kill(i: nat)

  /** CPU c runs process i. */
  predicate Runs(s: State, c: nat, i: nat) { c < |s.cpus| && s.cpus[c] == Some(i) && i < |s.ps| }

  function Cur(s: State, c: nat): Option<nat> { if c < |s.cpus| then s.cpus[c] else None }

  predicate Running(s: State, c: nat) { Cur(s, c).Some? && Cur(s, c).value < |s.ps| }

  function Me(s: State, c: nat): Proc
    requires Running(s, c)
  {
    s.ps[Cur(s, c).value]
  }

  predicate Enabled(s: State, step: Step)
  {
    match step
    case AllocProc(c, i) => Running(s, c) && Me(s, c).activity == Normal && i < |s.ps| && s.ps[i].state == UNUSED
    case ForkFail(c) => Running(s, c) && Me(s, c).activity.Forking? && !Me(s, c).activity.linked && Me(s, c).activity.child < |s.ps|
    case ForkLink(c) => Running(s, c) && Me(s, c).activity.Forking? && !Me(s, c).activity.linked && Me(s, c).activity.child < |s.ps|
    case ForkDone(c) => Running(s, c) && Me(s, c).activity.Forking? && Me(s, c).activity.linked && Me(s, c).activity.child < |s.ps|
    case Exit(c) => Running(s, c) && Me(s, c).activity == Normal && Cur(s, c).value != s.init && Me(s, c).parent.Some?
    case WaitReap(c, j) =>
      Running(s, c) && Me(s, c).activity == Normal && j < |s.ps| && ChildOf(s.ps[j], Cur(s, c).value) && s.ps[j].state == ZOMBIE
    case WaitSleep(c) =>
      && Running(s, c) && Me(s, c).activity == Normal && !Me(s, c).killed
      && !ZombieChild(s.ps, Cur(s, c).value) && HasChild(s.ps, Cur(s, c).value)
    case Dispatch(c, i) => c < |s.cpus| && s.cpus[c] == None && i < |s.ps| && s.ps[i].state == RUNNABLE
    case Yield(c) => Running(s, c)
    case Sleep(c, _) => Running(s, c) && Me(s, c).activity == Normal
    case Wakeup(_) => true
    case Kill(i) => i < |s.ps|
  }

  function Put(s: State, i: nat, p: Proc): State
    requires i < |s.ps|
  {
    s.(ps := s.ps[i := p])
  }

  function Leave(s: State, c: nat): State
    requires c < |s.cpus|
  {
    s.(cpus := s.cpus[c := None])
  }

  function Do(s: State, step: Step): State
    requires Enabled(s, step)
  {
    match step
    case AllocProc(c, i) =>
      var s' := Put(s, i, s.ps[i].(state := EMBRYO, pid := s.nextpid)).(nextpid := s.nextpid + 1);
      Put(s', Cur(s, c).value, s'.ps[Cur(s, c).value].(activity := Forking(i, false)))
    case ForkFail(c) =>
      var s' := Put(s, Me(s, c).activity.child, s.ps[Me(s, c).activity.child].(state := UNUSED));
      Put(s', Cur(s, c).value, s'.ps[Cur(s, c).value].(activity := Normal))
    case ForkLink(c) =>
      var i := Me(s, c).activity.child;
      var s' := Put(s, i, s.ps[i].(parent := Some(Cur(s, c).value)));
      Put(s', Cur(s, c).value, s'.ps[Cur(s, c).value].(activity := Forking(i, true)))
    case ForkDone(c) =>
      var i := Me(s, c).activity.child;
      var s' := Put(s, i, s.ps[i].(state := RUNNABLE));
      Put(s', Cur(s, c).value, s'.ps[Cur(s, c).value].(activity := Normal))
    case Exit(c) =>
      Leave(s.(ps := Exited(s.ps, Cur(s, c).value, s.init), exited := s.exited + {Me(s, c).pid}), c)
    case WaitReap(c, j) => s.(ps := Reaped(s.ps, j), reaped := s.reaped + {s.ps[j].pid})
    case WaitSleep(c) => Leave(Put(s, Cur(s, c).value, Me(s, c).(chan := Some(OfProc(Cur(s, c).value)), state := SLEEPING)), c)
    case Dispatch(c, i) => Put(s, i, s.ps[i].(state := RUNNING, chan := None)).(cpus := s.cpus[c := Some(i)])
    case Yield(c) => Leave(Put(s, Cur(s, c).value, Me(s, c).(state := RUNNABLE)), c)
    case Sleep(c, n) => Leave(Put(s, Cur(s, c).value, Me(s, c).(chan := Some(Address(n)), state := SLEEPING)), c)
    case Wakeup(n) => s.(ps := Woken(s.ps, Address(n)))
    case Kill(i) => Put(s, i, Killed(s.ps[i]))
  }

  /** userinit: one process, nobody's child, ready to run. */
  predicate Init(s: State)
  {
    && |s.ps| == NPROC && |s.cpus| == NCPU && s.init < NPROC && s.nextpid == 2
    && s.exited == s.reaped == {}
    && (forall c :: 0 <= c < NCPU ==> s.cpus[c] == None)
    && (forall i :: 0 <= i < NPROC ==> s.ps[i].parent == None && s.ps[i].activity == Normal)
    && s.ps[s.init].state == RUNNABLE && s.ps[s.init].pid == 1
    && (forall i :: 0 <= i < NPROC && i != s.init ==> s.ps[i].state == UNUSED)
  }

  // ---------- who runs where ----------

  /** Each RUNNING process is on exactly one CPU, and CPUs run only RUNNING processes. */
  ghost predicate CpusOk(s: State)
  {
    && |s.ps| == NPROC && |s.cpus| == NCPU
    && (forall c: nat, i: nat :: Runs(s, c, i) ==> s.ps[i].state == RUNNING)
    && (forall c :: 0 <= c < NCPU && s.cpus[c].Some? ==> s.cpus[c].value < NPROC)
    && (forall c: nat, d: nat, i: nat :: Runs(s, c, i) && Runs(s, d, i) ==> c == d)
    && (forall i: nat :: i < NPROC && s.ps[i].state == RUNNING ==> exists c: nat :: Runs(s, c, i))
  }

  // ---------- the family tree ----------

  /** The parent is alive, or the entry is nobody's child: unused, init, or still in fork. */
  ghost predicate KinOk(s: State, i: nat)
    requires i < |s.ps|
  {
    match s.ps[i].parent
    case Some(q) => q < |s.ps| && q != i && i != s.init && Alive(s.ps[q]) && s.ps[i].state != UNUSED
    case None => i == s.init || s.ps[i].state == UNUSED || s.ps[i].state == EMBRYO
  }

  ghost predicate TreeOk(s: State)
  {
    && |s.ps| == NPROC && s.init < NPROC && Alive(s.ps[s.init])
    && forall i: nat {:trigger KinOk(s, i)} :: i < NPROC ==> KinOk(s, i)
  }

  /** fork's child is an EMBRYO that only its maker touches; a maker runs or is ready to run. */
  ghost predicate MakerOk(s: State, i: nat)
    requires i < |s.ps|
  {
    match s.ps[i].activity
    case Normal => true
    case Forking(j, linked) =>
      && j < |s.ps| && s.ps[j].state == EMBRYO && s.ps[j].parent == (if linked then Some(i) else None)
      && (s.ps[i].state == RUNNING || s.ps[i].state == RUNNABLE)
  }

  /** An EMBRYO that has a parent is being made by it. */
  ghost predicate MadeOk(s: State, j: nat)
    requires j < |s.ps|
  {
    s.ps[j].state == EMBRYO && s.ps[j].parent.Some? ==>
      s.ps[j].parent.value < |s.ps| && s.ps[s.ps[j].parent.value].activity == Forking(j, true)
  }

  predicate SameChild(p: Proc, q: Proc)
  {
    p.activity.Forking? && q.activity.Forking? && p.activity.child == q.activity.child
  }

  ghost predicate ForksOk(s: State)
  {
    && |s.ps| == NPROC
    && (forall i: nat {:trigger MakerOk(s, i)} :: i < NPROC ==> MakerOk(s, i))
    && (forall j: nat {:trigger MadeOk(s, j)} :: j < NPROC ==> MadeOk(s, j))
    && (forall i: nat, j: nat {:trigger SameChild(s.ps[i], s.ps[j])} ::
          i < NPROC && j < NPROC && SameChild(s.ps[i], s.ps[j]) ==> i == j)
  }

  // ---------- sleeping in wait ----------

  /** A process asleep in wait has a child, and no zombie child. */
  ghost predicate WaiterOk(ps: seq<Proc>, i: nat)
    requires i < |ps|
  {
    ps[i].state == SLEEPING && ps[i].chan.Some? && ps[i].chan.value.OfProc? ==>
      ps[i].chan.value.i == i && HasChild(ps, i) && !ZombieChild(ps, i)
  }

  ghost predicate WaitOk(s: State)
  {
    |s.ps| == NPROC && forall i: nat {:trigger WaiterOk(s.ps, i)} :: i < NPROC ==> WaiterOk(s.ps, i)
  }

  // ---------- zombies are reaped once ----------

  predicate InUse(p: Proc) { p.state != UNUSED }

  predicate SamePid(p: Proc, q: Proc) { InUse(p) && InUse(q) && p.pid == q.pid }

  predicate ZombieWith(p: Proc, pid: nat) { p.state == ZOMBIE && p.pid == pid }

  /** Every pid that exited was reaped or is a zombie's, never both; pids in use are distinct. */
  ghost predicate PidsOk(s: State)
  {
    && |s.ps| == NPROC && s.reaped <= s.exited
    && (forall i: nat, j: nat {:trigger SamePid(s.ps[i], s.ps[j])} :: i < NPROC && j < NPROC && SamePid(s.ps[i], s.ps[j]) ==> i == j)
    && (forall i :: 0 <= i < NPROC && InUse(s.ps[i]) ==> s.ps[i].pid < s.nextpid && s.ps[i].pid !in s.reaped)
    && (forall i :: 0 <= i < NPROC && InUse(s.ps[i]) ==> (s.ps[i].pid in s.exited <==> s.ps[i].state == ZOMBIE))
    && (forall pid :: pid in s.exited ==> pid < s.nextpid)
    && (forall pid :: pid in s.exited && pid !in s.reaped ==> exists i :: 0 <= i < NPROC && ZombieWith(s.ps[i], pid))
  }

  // ---------- every step keeps them ----------

  lemma ExitedAt(ps: seq<Proc>, cur: nat, init: nat, i: nat)
    requires cur < |ps| && ps[cur].parent.Some? && i < |ps|
    ensures var p := Exited(ps, cur, init)[i];
            && p.pid == ps[i].pid && p.activity == ps[i].activity && p.chan == ps[i].chan && p.killed == ps[i].killed
            && p.parent == (if ChildOf(ps[i], cur) then Some(init) else ps[i].parent)
            && p.state == (if i == cur then ZOMBIE
                           else if AsleepOn(ps[i], OfProc(ps[cur].parent.value)) then RUNNABLE
                           else if ZombieChild(ps, cur) && AsleepOn(ps[i], OfProc(init)) then RUNNABLE
                           else ps[i].state)
  {
  }

  /** The states of the RUNNING entries did not change. */
  lemma SameRunningKeepsCpus(s: State, s': State)
    requires CpusOk(s) && |s'.ps| == NPROC && s'.cpus == s.cpus
    requires forall i :: 0 <= i < NPROC ==> (s'.ps[i].state == RUNNING <==> s.ps[i].state == RUNNING)
    ensures CpusOk(s')
  {
    forall d: nat, i: nat ensures Runs(s', d, i) <==> Runs(s, d, i) {
    }
    forall i: nat | i < NPROC && s'.ps[i].state == RUNNING ensures exists d: nat :: Runs(s', d, i) {
      var d: nat :| Runs(s, d, i);
      assert Runs(s', d, i);
    }
  }

  /** One process leaves its CPU. */
  lemma LeaveKeepsCpus(s: State, s': State, c: nat)
    requires CpusOk(s) && Running(s, c) && |s'.ps| == NPROC && s'.cpus == s.cpus[c := None]
    requires forall i :: 0 <= i < NPROC ==> (s'.ps[i].state == RUNNING <==> s.ps[i].state == RUNNING && i != Cur(s, c).value)
    ensures CpusOk(s')
  {
    assert Runs(s, c, Cur(s, c).value);
    forall d: nat, i: nat ensures Runs(s', d, i) <==> Runs(s, d, i) && d != c {
    }
    forall i: nat | i < NPROC && s'.ps[i].state == RUNNING ensures exists d: nat :: Runs(s', d, i) {
      var d: nat :| Runs(s, d, i);
      assert Runs(s', d, i);
    }
  }

  lemma DispatchKeepsCpus(s: State, c: nat, k: nat)
    requires Enabled(s, Dispatch(c, k)) && CpusOk(s)
    ensures CpusOk(Do(s, Dispatch(c, k)))
  {
    var s' := Do(s, Dispatch(c, k));
    forall d: nat, i: nat ensures Runs(s', d, i) <==> Runs(s, d, i) || (d == c && i == k) {
    }
    forall i: nat | i < NPROC && s'.ps[i].state == RUNNING ensures exists d: nat :: Runs(s', d, i) {
      if i == k {
        assert Runs(s', c, i);
      } else {
        var d: nat :| Runs(s, d, i);
        assert Runs(s', d, i);
      }
    }
  }

  /** The steps that take a process off its CPU. */
  predicate Leaves(step: Step) { step.Exit? || step.WaitSleep? || step.Yield? || step.Sleep? }

  lemma LeavingKeepsCpus(s: State, step: Step)
    requires Enabled(s, step) && CpusOk(s) && Leaves(step)
    ensures CpusOk(Do(s, step))
  {
    SizesOk(s);
    hide CpusOk, Exited;
    var s', cur := Do(s, step), Cur(s, step.c).value;
    if step.Exit? {
      forall i: nat | i < NPROC ensures s'.ps[i].state == RUNNING <==> s.ps[i].state == RUNNING && i != cur {
        ExitedAt(s.ps, cur, s.init, i);
      }
    }
    LeaveKeepsCpus(s, s', step.c);
  }

  lemma ForkKeepsCpus(s: State, step: Step)
    requires Enabled(s, step) && CpusOk(s) && ForksOk(s) && Forks(step)
    ensures CpusOk(Do(s, step))
  {
    SizesOk(s);
    assert MakerOk(s, Cur(s, step.c).value);
    hide CpusOk, ForksOk;
    SameRunningKeepsCpus(s, Do(s, step));
  }

  lemma SizesOk(s: State)
    requires CpusOk(s)
    ensures |s.ps| == NPROC && forall c :: 0 <= c < |s.cpus| && s.cpus[c].Some? ==> s.cpus[c].value < NPROC
  {
  }

  lemma StepKeepsCpus(s: State, step: Step)
    requires Enabled(s, step) && CpusOk(s) && ForksOk(s)
    ensures CpusOk(Do(s, step))
  {
    SizesOk(s);
    hide CpusOk, ForksOk, Exited;
    if Leaves(step) {
      LeavingKeepsCpus(s, step);
    } else if Forks(step) {
      ForkKeepsCpus(s, step);
    } else if step.Dispatch? {
      DispatchKeepsCpus(s, step.c, step.i);
    } else {
      SameRunningKeepsCpus(s, Do(s, step));
    }
  }

  lemma ExitKeepsTree(s: State, c: nat)
    requires Enabled(s, Exit(c)) && TreeOk(s)
    ensures TreeOk(Do(s, Exit(c)))
  {
    hide Exited;
    var s', cur := Do(s, Exit(c)), Cur(s, c).value;
    forall i: nat | i < NPROC ensures KinOk(s', i) {
      assert KinOk(s, i);
      ExitedAt(s.ps, cur, s.init, i);
      ExitedAt(s.ps, cur, s.init, s.init);
      if s.ps[i].parent.Some? {
        ExitedAt(s.ps, cur, s.init, s.ps[i].parent.value);
      }
    }
    ExitedAt(s.ps, cur, s.init, s.init);
  }

  /** Steps that change neither who is alive nor whose child anyone is. */
  ghost predicate SameTree(s: State, s': State)
  {
    && |s'.ps| == |s.ps| && s'.init == s.init
    && forall i :: 0 <= i < |s.ps| ==>
         && (Alive(s'.ps[i]) <==> Alive(s.ps[i])) && s'.ps[i].parent == s.ps[i].parent
         && (s'.ps[i].state == UNUSED <==> s.ps[i].state == UNUSED)
         && (s'.ps[i].state == EMBRYO <==> s.ps[i].state == EMBRYO)
  }

  lemma SameTreeKeeps(s: State, s': State)
    requires TreeOk(s) && SameTree(s, s')
    ensures TreeOk(s')
  {
    forall i: nat | i < NPROC ensures KinOk(s', i) {
      assert KinOk(s, i);
    }
  }

  predicate Forks(step: Step) { step.AllocProc? || step.ForkFail? || step.ForkLink? || step.ForkDone? }

  /** The child that a step of fork makes. */
  function Child(s: State, step: Step): nat
    requires Enabled(s, step) && Forks(step)
  {
    if step.AllocProc? then step.i else Me(s, step.c).activity.child
  }

  /** fork writes what its caller is doing, and a child that is not in use yet. */
  lemma ForkWrites(s: State, step: Step)
    requires Enabled(s, step) && TreeOk(s) && ForksOk(s) && CpusOk(s) && Forks(step)
    ensures var s', cur, j := Do(s, step), Cur(s, step.c).value, Child(s, step);
            && cur < NPROC && j < NPROC && |s.ps| == |s'.ps| == NPROC && s'.init == s.init && s.ps[cur].state == RUNNING
            && s'.ps[cur] == s.ps[cur].(activity := s'.ps[cur].activity)
            && (forall i: nat :: i < NPROC && i != cur && i != j ==> s'.ps[i] == s.ps[i])
            && !Alive(s.ps[j]) && s.ps[j].state != ZOMBIE && s'.ps[j].state != ZOMBIE && s'.ps[j].state != SLEEPING
            && (s.ps[j].parent.Some? ==> s'.ps[j].parent == s.ps[j].parent) && KinOk(s', j)
  {
    var cur, j := Cur(s, step.c).value, Child(s, step);
    assert Runs(s, step.c, cur);
    hide CpusOk;
    assert MakerOk(s, cur);
    assert KinOk(s, j);
  }

  lemma ForkKeepsTree(s: State, step: Step)
    requires Enabled(s, step) && TreeOk(s) && ForksOk(s) && CpusOk(s) && Forks(step)
    ensures TreeOk(Do(s, step))
  {
    ForkWrites(s, step);
    hide CpusOk, ForksOk, Do;
    forall i: nat | i < NPROC ensures KinOk(Do(s, step), i) {
      assert KinOk(s, i);
    }
  }

  lemma ReapKeepsTree(s: State, step: Step)
    requires step.WaitReap? && Enabled(s, step) && TreeOk(s)
    ensures TreeOk(Do(s, step))
  {
    forall i: nat | i < NPROC ensures KinOk(Do(s, step), i) {
      assert KinOk(s, i);
    }
  }

  lemma StepKeepsTree(s: State, step: Step)
    requires Enabled(s, step) && TreeOk(s) && ForksOk(s) && CpusOk(s)
    ensures TreeOk(Do(s, step))
  {
    hide TreeOk, ForksOk, Exited;
    var s' := Do(s, step);
    match step
    case Exit(c) => ExitKeepsTree(s, c);
    case AllocProc(_, _) => ForkKeepsTree(s, step);
    case ForkFail(_) => ForkKeepsTree(s, step);
    case ForkLink(_) => ForkKeepsTree(s, step);
    case ForkDone(_) => ForkKeepsTree(s, step);
    case WaitReap(_, _) => ReapKeepsTree(s, step);
    case WaitSleep(c) => assert Runs(s, c, Cur(s, c).value); SameTreeKeeps(s, s');
    case Yield(c) => assert Runs(s, c, Cur(s, c).value); SameTreeKeeps(s, s');
    case Sleep(c, _) => assert Runs(s, c, Cur(s, c).value); SameTreeKeeps(s, s');
    case Dispatch(_, _) => SameTreeKeeps(s, s');
    case Wakeup(_) => SameTreeKeeps(s, s');
    case Kill(_) => SameTreeKeeps(s, s');
  }

  // ---------- fork ----------

  /** Steps that touch no EMBRYO, no activity, and no process inside fork except to run it. */
  ghost predicate SameForks(s: State, s': State)
  {
    && |s'.ps| == |s.ps|
    && forall i :: 0 <= i < |s.ps| ==>
         && s'.ps[i].activity == s.ps[i].activity
         && (s'.ps[i].state == EMBRYO <==> s.ps[i].state == EMBRYO)
         && (s.ps[i].state == EMBRYO ==> s'.ps[i].parent == s.ps[i].parent)
         && (s.ps[i].activity.Forking? ==> s'.ps[i].state == RUNNING || s'.ps[i].state == RUNNABLE)
  }

  lemma SameForksKeeps(s: State, s': State)
    requires ForksOk(s) && SameForks(s, s')
    ensures ForksOk(s')
  {
    forall i: nat | i < NPROC ensures MakerOk(s', i) { assert MakerOk(s, i); }
    forall j: nat | j < NPROC ensures MadeOk(s', j) { assert MadeOk(s, j); }
    forall i: nat, j: nat | i < NPROC && j < NPROC && SameChild(s'.ps[i], s'.ps[j]) ensures i == j {
      assert SameChild(s.ps[i], s.ps[j]);
    }
  }

  lemma ForkKeepsForks(s: State, step: Step)
    requires Enabled(s, step) && TreeOk(s) && ForksOk(s) && CpusOk(s) && Forks(step)
    ensures ForksOk(Do(s, step))
  {
    hide Enabled, TreeOk, CpusOk, MakerOk, MadeOk, SameChild;
    ForkMakers(s, step);
    ForkMade(s, step);
    ForkUnique(s, step);
  }

  lemma ForkMakers(s: State, step: Step)
    requires Enabled(s, step) && TreeOk(s) && ForksOk(s) && CpusOk(s) && Forks(step)
    ensures |Do(s, step).ps| == NPROC && forall i: nat {:trigger MakerOk(Do(s, step), i)} :: i < NPROC ==> MakerOk(Do(s, step), i)
  {
    var s', cur := Do(s, step), Cur(s, step.c).value;
    assert Runs(s, step.c, cur) && MakerOk(s, cur);
    assert KinOk(s, if step.AllocProc? then step.i else Me(s, step.c).activity.child);
    forall i: nat | i < NPROC ensures MakerOk(s', i) {
      assert MakerOk(s, i);
      assert i != cur && !step.AllocProc? ==> !SameChild(s.ps[i], s.ps[cur]);
    }
  }

  lemma ForkMade(s: State, step: Step)
    requires Enabled(s, step) && TreeOk(s) && ForksOk(s) && CpusOk(s) && Forks(step)
    ensures |Do(s, step).ps| == NPROC && forall j: nat {:trigger MadeOk(Do(s, step), j)} :: j < NPROC ==> MadeOk(Do(s, step), j)
  {
    hide CpusOk;
    var s', cur := Do(s, step), Cur(s, step.c).value;
    assert MakerOk(s, cur);
    assert KinOk(s, if step.AllocProc? then step.i else Me(s, step.c).activity.child);
    forall j: nat | j < NPROC ensures MadeOk(s', j) {
      assert MadeOk(s, j);
    }
  }

  lemma ForkUnique(s: State, step: Step)
    requires Enabled(s, step) && TreeOk(s) && ForksOk(s) && CpusOk(s) && Forks(step)
    ensures var s' := Do(s, step);
            |s'.ps| == NPROC && forall i: nat, j: nat {:trigger SameChild(s'.ps[i], s'.ps[j])} ::
                                  i < NPROC && j < NPROC && SameChild(s'.ps[i], s'.ps[j]) ==> i == j
  {
    hide CpusOk, TreeOk;
    var s', cur := Do(s, step), Cur(s, step.c).value;
    assert MakerOk(s, cur);
    forall i: nat, j: nat | i < NPROC && j < NPROC && SameChild(s'.ps[i], s'.ps[j]) ensures i == j {
      assert MakerOk(s, i) && MakerOk(s, j);
      assert SameChild(s.ps[i], s.ps[j]) || i == cur || j == cur;
    }
  }

  lemma ExitKeepsForks(s: State, c: nat)
    requires Enabled(s, Exit(c)) && ForksOk(s) && CpusOk(s)
    ensures ForksOk(Do(s, Exit(c)))
  {
    hide Exited;
    var s', cur := Do(s, Exit(c)), Cur(s, c).value;
    assert Runs(s, c, cur);
    forall i: nat | i < NPROC
      ensures && s'.ps[i].activity == s.ps[i].activity
              && (s'.ps[i].state == EMBRYO <==> s.ps[i].state == EMBRYO && i != cur)
              && (s.ps[i].state == EMBRYO && i != cur ==> s'.ps[i].parent == s.ps[i].parent)
              && (s.ps[i].activity.Forking? ==> s'.ps[i].state == RUNNING || s'.ps[i].state == RUNNABLE)
    {
      ExitedAt(s.ps, cur, s.init, i);
      assert MadeOk(s, i) && MakerOk(s, i);
    }
    assert MadeOk(s, cur);
    SameForksKeeps(s, s');
  }

  lemma StepKeepsForks(s: State, step: Step)
    requires Enabled(s, step) && TreeOk(s) && ForksOk(s) && CpusOk(s)
    ensures ForksOk(Do(s, step))
  {
    hide TreeOk, Exited;
    var s' := Do(s, step);
    match step
    case Exit(c) => ExitKeepsForks(s, c);
    case AllocProc(_, _) => ForkKeepsForks(s, step);
    case ForkFail(_) => ForkKeepsForks(s, step);
    case ForkLink(_) => ForkKeepsForks(s, step);
    case ForkDone(_) => ForkKeepsForks(s, step);
    case _ => OtherKeepsForks(s, step);
  }

  lemma OtherKeepsForks(s: State, step: Step)
    requires Enabled(s, step) && ForksOk(s) && CpusOk(s) && !Forks(step) && !step.Exit?
    ensures ForksOk(Do(s, step))
  {
    var s' := Do(s, step);
    assert step.Yield? || step.Sleep? || step.WaitSleep? ==> Runs(s, step.c, Cur(s, step.c).value);
    hide CpusOk;
    forall i: nat | i < NPROC ensures s.ps[i].activity.Forking? ==> s.ps[i].state == RUNNING || s.ps[i].state == RUNNABLE {
      assert MakerOk(s, i);
    }
    assert SameForks(s, s');
    hide ForksOk;
    SameForksKeeps(s, s');
  }

  // ---------- wait ----------

  /** The children stay, and none of them turns into a zombie. */
  lemma SameChildren(ps: seq<Proc>, ps': seq<Proc>, i: nat)
    requires |ps| == |ps'|
    requires forall j :: 0 <= j < |ps| && ChildOf(ps[j], i) ==> ChildOf(ps'[j], i)
    requires forall j :: 0 <= j < |ps| && ChildOf(ps'[j], i) && ps'[j].state == ZOMBIE ==> ChildOf(ps[j], i) && ps[j].state == ZOMBIE
    ensures HasChild(ps, i) ==> HasChild(ps', i)
    ensures !ZombieChild(ps, i) ==> !ZombieChild(ps', i)
  {
    if HasChild(ps, i) {
      var j :| 0 <= j < |ps| && ChildOf(ps[j], i);
      assert ChildOf(ps'[j], i);
    }
  }

  lemma ExitKeepsWait(s: State, c: nat)
    requires Enabled(s, Exit(c)) && WaitOk(s) && TreeOk(s)
    ensures WaitOk(Do(s, Exit(c)))
  {
    hide Exited;
    var s', cur := Do(s, Exit(c)), Cur(s, c).value;
    assert KinOk(s, cur);
    forall i: nat | i < NPROC ensures WaiterOk(s'.ps, i) {
      assert WaiterOk(s.ps, i);
      ExitedAt(s.ps, cur, s.init, i);
      if AsleepOn(s'.ps[i], OfProc(i)) {
        forall j: nat | j < NPROC
          ensures ChildOf(s.ps[j], i) ==> ChildOf(s'.ps[j], i)
          ensures ChildOf(s'.ps[j], i) && s'.ps[j].state == ZOMBIE ==> ChildOf(s.ps[j], i) && s.ps[j].state == ZOMBIE
        {
          ExitedAt(s.ps, cur, s.init, j);
        }
        SameChildren(s.ps, s'.ps, i);
      }
    }
  }

  lemma OtherKeepsWait(s: State, step: Step)
    requires Enabled(s, step) && WaitOk(s) && TreeOk(s) && ForksOk(s) && CpusOk(s) && !step.Exit?
    ensures WaitOk(Do(s, step))
  {
    hide Enabled, WaitOk, TreeOk, ForksOk, CpusOk, Do;
    if Forks(step) {
      ForkKeepsWait(s, step);
    } else {
      QuietKeepsWait(s, step);
    }
  }

  lemma ForkKeepsWait(s: State, step: Step)
    requires Enabled(s, step) && WaitOk(s) && TreeOk(s) && ForksOk(s) && CpusOk(s) && Forks(step)
    ensures WaitOk(Do(s, step))
  {
    ForkWrites(s, step);
    hide CpusOk, ForksOk, TreeOk, KinOk, Do;
    var s' := Do(s, step);
    forall i: nat | i < NPROC ensures WaiterOk(s'.ps, i) {
      assert WaiterOk(s.ps, i);
      if s'.ps[i].state == SLEEPING && s'.ps[i].chan.Some? && s'.ps[i].chan.value.OfProc? {
        SameChildren(s.ps, s'.ps, i);
      }
    }
  }

  lemma QuietKeepsWait(s: State, step: Step)
    requires Enabled(s, step) && WaitOk(s) && TreeOk(s) && ForksOk(s) && CpusOk(s) && !step.Exit? && !Forks(step)
    ensures WaitOk(Do(s, step))
  {
    hide TreeOk, ForksOk;
    var s' := Do(s, step);
    var cur := if step.Dispatch? || step.Wakeup? || step.Kill? then s.init else Cur(s, step.c).value;
    assert step.Dispatch? || step.Wakeup? || step.Kill? || Runs(s, step.c, cur);
    forall i: nat | i < NPROC ensures WaiterOk(s'.ps, i) {
      assert WaiterOk(s.ps, i);
      if s'.ps[i].state == SLEEPING && s'.ps[i].chan.Some? && s'.ps[i].chan.value.OfProc? {
        SameChildren(s.ps, s'.ps, i);
      }
    }
  }

  // ---------- pids ----------

  /** Steps by which no entry changes between unused, zombie and the other states. */
  lemma SamePidsKeeps(s: State, s': State)
    requires PidsOk(s) && |s'.ps| == NPROC && s'.exited == s.exited && s'.reaped == s.reaped && s'.nextpid == s.nextpid
    requires forall i :: 0 <= i < NPROC ==>
               && s'.ps[i].pid == s.ps[i].pid && (InUse(s'.ps[i]) ==> InUse(s.ps[i]))
               && (s'.ps[i].state == ZOMBIE <==> s.ps[i].state == ZOMBIE)
    ensures PidsOk(s')
  {
    forall i: nat, j: nat | i < NPROC && j < NPROC && SamePid(s'.ps[i], s'.ps[j]) ensures i == j {
      assert SamePid(s.ps[i], s.ps[j]);
    }
    forall pid | pid in s'.exited && pid !in s'.reaped ensures exists i :: 0 <= i < NPROC && ZombieWith(s'.ps[i], pid) {
      var i :| 0 <= i < NPROC && ZombieWith(s.ps[i], pid);
      assert ZombieWith(s'.ps[i], pid);
    }
  }

  lemma AllocKeepsPids(s: State, step: Step)
    requires step.AllocProc? && Enabled(s, step) && PidsOk(s)
    ensures PidsOk(Do(s, step))
  {
    var s' := Do(s, step);
    forall i: nat, j: nat | i < NPROC && j < NPROC && SamePid(s'.ps[i], s'.ps[j]) ensures i == j {
      assert i != step.i && j != step.i ==> SamePid(s.ps[i], s.ps[j]);
    }
    forall pid | pid in s'.exited && pid !in s'.reaped ensures exists i :: 0 <= i < NPROC && ZombieWith(s'.ps[i], pid) {
      var i :| 0 <= i < NPROC && ZombieWith(s.ps[i], pid);
      assert ZombieWith(s'.ps[i], pid);
    }
  }

  /** A zombie's pid was not returned before, and the entry is free afterwards. */
  lemma ReapKeepsPids(s: State, step: Step)
    requires step.WaitReap? && Enabled(s, step) && PidsOk(s)
    ensures PidsOk(Do(s, step)) && s.ps[step.j].pid in s.exited && s.ps[step.j].pid !in s.reaped
  {
    var s' := Do(s, step);
    forall i: nat, j: nat | i < NPROC && j < NPROC && SamePid(s'.ps[i], s'.ps[j]) ensures i == j {
      assert SamePid(s.ps[i], s.ps[j]);
    }
    forall i: nat | i < NPROC && InUse(s'.ps[i]) ensures s'.ps[i].pid !in s'.reaped {
      assert !SamePid(s.ps[i], s.ps[step.j]);
    }
    forall pid | pid in s'.exited && pid !in s'.reaped ensures exists i :: 0 <= i < NPROC && ZombieWith(s'.ps[i], pid) {
      var i :| 0 <= i < NPROC && ZombieWith(s.ps[i], pid);
      assert ZombieWith(s'.ps[i], pid);
    }
  }

  lemma ExitKeepsPids(s: State, c: nat)
    requires Enabled(s, Exit(c)) && PidsOk(s) && CpusOk(s)
    ensures PidsOk(Do(s, Exit(c)))
  {
    hide Exited;
    var s', cur := Do(s, Exit(c)), Cur(s, c).value;
    assert Runs(s, c, cur);
    hide CpusOk;
    forall i: nat | i < NPROC
      ensures s'.ps[i].pid == s.ps[i].pid && (InUse(s'.ps[i]) <==> InUse(s.ps[i])) && (s'.ps[i].state == ZOMBIE <==> s.ps[i].state == ZOMBIE || i == cur)
    {
      ExitedAt(s.ps, cur, s.init, i);
    }
    forall i: nat, j: nat | i < NPROC && j < NPROC && SamePid(s'.ps[i], s'.ps[j]) ensures i == j {
      assert SamePid(s.ps[i], s.ps[j]);
    }
    forall i: nat | i < NPROC && InUse(s'.ps[i]) ensures s'.ps[i].pid in s'.exited <==> s'.ps[i].state == ZOMBIE {
      assert SamePid(s.ps[i], s.ps[cur]) ==> i == cur;
    }
    forall pid | pid in s'.exited && pid !in s'.reaped ensures exists i :: 0 <= i < NPROC && ZombieWith(s'.ps[i], pid) {
      if pid == s.ps[cur].pid {
        assert ZombieWith(s'.ps[cur], pid);
      } else {
        var i :| 0 <= i < NPROC && ZombieWith(s.ps[i], pid);
        assert ZombieWith(s'.ps[i], pid);
      }
    }
  }

  lemma StepKeepsPids(s: State, step: Step)
    requires Enabled(s, step) && PidsOk(s) && CpusOk(s) && ForksOk(s)
    ensures PidsOk(Do(s, step))
  {
    hide Exited, PidsOk, ForksOk;
    match step
    case AllocProc(_, _) => AllocKeepsPids(s, step);
    case WaitReap(_, _) => ReapKeepsPids(s, step);
    case Exit(c) => ExitKeepsPids(s, c);
    case _ => OtherKeepsPids(s, step);
  }

  lemma OtherKeepsPids(s: State, step: Step)
    requires Enabled(s, step) && PidsOk(s) && CpusOk(s) && ForksOk(s)
    requires !step.AllocProc? && !step.WaitReap? && !step.Exit?
    ensures PidsOk(Do(s, step))
  {
    var cur := if step.Dispatch? || step.Wakeup? || step.Kill? then 0 else Cur(s, step.c).value;
    assert step.Dispatch? || step.Wakeup? || step.Kill? || Runs(s, step.c, cur);
    assert MakerOk(s, cur);
    hide CpusOk, ForksOk, PidsOk;
    SamePidsKeeps(s, Do(s, step));
  }

  // ---------- every run ----------

  ghost predicate Inv(s: State) { CpusOk(s) && TreeOk(s) && ForksOk(s) && WaitOk(s) && PidsOk(s) }

  ghost predicate Run(run: seq<State>, steps: seq<Step>)
  {
    && |run| == |steps| + 1 && Init(run[0])
    && forall i :: 0 <= i < |steps| ==> Enabled(run[i], steps[i]) && run[i + 1] == Do(run[i], steps[i])
  }

  lemma InitInv(s: State)
    requires Init(s)
    ensures Inv(s)
  {
    forall i: nat | i < NPROC ensures KinOk(s, i) && MakerOk(s, i) && MadeOk(s, i) && WaiterOk(s.ps, i) {
    }
    assert CpusOk(s);
  }

  lemma StepInv(s: State, step: Step)
    requires Enabled(s, step) && Inv(s)
    ensures Inv(Do(s, step))
  {
    hide CpusOk, TreeOk, ForksOk, WaitOk, PidsOk, Do;
    StepKeepsCpus(s, step);
    StepKeepsTree(s, step);
    StepKeepsForks(s, step);
    StepKeepsPids(s, step);
    if step.Exit? {
      ExitKeepsWait(s, step.c);
    } else {
      OtherKeepsWait(s, step);
    }
  }

  lemma {:induction false} RunInv(run: seq<State>, steps: seq<Step>, k: nat)
    requires Run(run, steps) && k < |run|
    ensures Inv(run[k])
  {
    hide Enabled, Do, Inv;
    if k == 0 {
      InitInv(run[0]);
    } else {
      RunInv(run, steps, k - 1);
      StepInv(run[k - 1], steps[k - 1]);
    }
  }

  /**
   At every moment of every run: a process asleep in wait has a child and no zombie child,
   a zombie's parent is alive, and a RUNNING process is on exactly one CPU.
   */
  lemma ProcessTable(run: seq<State>, steps: seq<Step>, k: nat, i: nat)
    requires Run(run, steps) && k < |run| && i < NPROC
    ensures |run[k].ps| == NPROC
    ensures var p := run[k].ps[i];
            && (AsleepOn(p, OfProc(i)) ==> HasChild(run[k].ps, i) && !ZombieChild(run[k].ps, i))
            && (p.state == ZOMBIE ==> p.parent.Some? && p.parent.value < NPROC && Alive(run[k].ps[p.parent.value]))
            && (p.state == RUNNING <==> exists c: nat :: Runs(run[k], c, i))
            && (forall c: nat, d: nat :: Runs(run[k], c, i) && Runs(run[k], d, i) ==> c == d)
  {
    RunInv(run, steps, k);
    assert WaiterOk(run[k].ps, i) && KinOk(run[k], i);
  }

  /** wait never returns the same pid twice, and returns only pids of processes that exited. */
  lemma {:induction false} ReapedOnce(run: seq<State>, steps: seq<Step>, j: nat, k: nat)
    requires Run(run, steps) && j < k < |steps| && steps[j].WaitReap? && steps[k].WaitReap?
    ensures steps[j].j < |run[j].ps| && steps[k].j < |run[k].ps|
    ensures run[j].ps[steps[j].j].pid != run[k].ps[steps[k].j].pid
    ensures run[k].ps[steps[k].j].pid in run[k].exited
  {
    RunInv(run, steps, k);
    assert Enabled(run[j], steps[j]) && Enabled(run[k], steps[k]);
    ReapKeepsPids(run[k], steps[k]);
    assert run[j + 1] == Do(run[j], steps[j]);
    ReapedGrows(run, steps, j + 1, k);
  }

  /** Step t returns `pid` from wait. */
  predicate Returns(run: seq<State>, steps: seq<Step>, t: int, pid: nat)
  {
    0 <= t < |steps| < |run| && steps[t].WaitReap? && steps[t].j < |run[t].ps| && run[t].ps[steps[t].j].pid == pid
  }

  /** A process that exits is a zombie until wait returns its pid: it is not lost, and not returned while it waits. */
  lemma NoExitLost(run: seq<State>, steps: seq<Step>, j: nat, k: nat)
    requires Run(run, steps) && j < k < |run| && steps[j].Exit?
    ensures Running(run[j], steps[j].c)
    ensures var pid := Me(run[j], steps[j].c).pid;
            (exists t :: j < t < k && Returns(run, steps, t, pid)) <==> !(exists i :: 0 <= i < |run[k].ps| && ZombieWith(run[k].ps[i], pid))
  {
    RunInv(run, steps, j);
    RunInv(run, steps, k);
    assert Enabled(run[j], steps[j]) && run[j + 1] == Do(run[j], steps[j]);
    var pid := Me(run[j], steps[j].c).pid;
    assert Runs(run[j], steps[j].c, Cur(run[j], steps[j].c).value);
    assert pid in run[j + 1].exited && pid !in run[j + 1].reaped;
    ReturnedSince(run, steps, j, k, pid);
    ExitedGrows(run, steps, j + 1, k);
    forall i: nat | i < NPROC && ZombieWith(run[k].ps[i], pid) ensures pid !in run[k].reaped {
      assert InUse(run[k].ps[i]);
    }
  }

  lemma {:induction false} ReturnedSince(run: seq<State>, steps: seq<Step>, j: nat, k: nat, pid: nat)
    requires Run(run, steps) && j < k < |run| && pid !in run[j + 1].reaped
    ensures pid in run[k].reaped <==> exists t :: j < t < k && Returns(run, steps, t, pid)
    decreases k
  {
    if j + 1 < k {
      var t := k - 1;
      ReturnedSince(run, steps, j, t, pid);
      assert Enabled(run[t], steps[t]) && run[t + 1] == Do(run[t], steps[t]);
      assert pid in run[k].reaped <==> pid in run[t].reaped || Returns(run, steps, t, pid);
    }
  }

  lemma {:induction false} ExitedGrows(run: seq<State>, steps: seq<Step>, j: nat, k: nat)
    requires Run(run, steps) && j <= k < |run|
    ensures run[j].exited <= run[k].exited
    decreases k
  {
    if j < k {
      ExitedGrows(run, steps, j, k - 1);
      assert run[k - 1 + 1] == Do(run[k - 1], steps[k - 1]);
    }
  }

  lemma {:induction false} ReapedGrows(run: seq<State>, steps: seq<Step>, j: nat, k: nat)
    requires Run(run, steps) && j <= k < |run|
    ensures run[j].reaped <= run[k].reaped
    decreases k
  {
    if j < k {
      ReapedGrows(run, steps, j, k - 1);
      assert run[k - 1 + 1] == Do(run[k - 1], steps[k - 1]);
    }
  }

  // ---------- kill ----------

  lemma StepKeepsKilled(s: State, step: Step, i: nat)
    requires Enabled(s, step) && CpusOk(s) && i < NPROC && s.ps[i].killed && !(step.WaitReap? && step.j == i)
    ensures |Do(s, step).ps| == NPROC && Do(s, step).ps[i].killed
  {
    SizesOk(s);
    hide CpusOk, Exited;
    if step.Exit? {
      ExitedAt(s.ps, Cur(s, step.c).value, s.init, i);
    }
  }

  lemma KillStep(s: State, i: nat)
    requires CpusOk(s) && Enabled(s, Kill(i))
    ensures var s' := Do(s, Kill(i));
            && i < |s'.ps| == |s.ps| == NPROC && s'.ps[i].killed
            && s'.ps[i].state == if s.ps[i].state == SLEEPING then RUNNABLE else s.ps[i].state
  {
  }

  /** kill marks the process and wakes it, and from then on it is marked until wait frees its entry. */
  lemma {:induction false} KilledStays(run: seq<State>, steps: seq<Step>, j: nat, k: nat)
    requires Run(run, steps) && j < k < |run| && steps[j].Kill? && forall t :: j < t < k && steps[t].WaitReap? ==> steps[t].j != steps[j].i
    ensures var i := steps[j].i;
            && i < |run[k].ps| == |run[j].ps| == |run[j + 1].ps| && run[k].ps[i].killed
            && run[j + 1].ps[i].state == if run[j].ps[i].state == SLEEPING then RUNNABLE else run[j].ps[i].state
    decreases k
  {
    RunInv(run, steps, k - 1);
    hide Do, Enabled, CpusOk, TreeOk, ForksOk, WaitOk, PidsOk, Init;
    if j + 1 == k {
      KillStep(run[j], steps[j].i);
    } else {
      KilledStays(run, steps, j, k - 1);
      SizesOk(run[k - 1]);
      StepKeepsKilled(run[k - 1], steps[k - 1], steps[j].i);
    }
  }

  // ---------- a child is made, exits and is waited for ----------

  /** What matters of a table in which only init and process i are in use. */
  ghost predicate Two(s: State, i: nat, p: Proc, q: Proc, cpu: Option<nat>)
  {
    && |s.ps| == NPROC && |s.cpus| == NCPU && s.cpus[0] == cpu && s.init < NPROC && i < NPROC && i != s.init
    && s.ps[s.init] == p && s.ps[i] == q && forall j :: 0 <= j < NPROC && j != s.init && j != i ==> s.ps[j].state == UNUSED && s.ps[j].parent == None
  }

  lemma ForkPart(s: State, i: nat, p: Proc, q: Proc)
    requires Two(s, i, p, q, None) && p.state == RUNNABLE && p.activity == Normal && q.state == UNUSED && q.parent == None
    ensures var s1 := Do(s, Dispatch(0, s.init)); Enabled(s, Dispatch(0, s.init)) && Enabled(s1, AllocProc(0, i))
    ensures var s2 := Do(Do(s, Dispatch(0, s.init)), AllocProc(0, i)); Enabled(s2, ForkLink(0)) && Enabled(Do(s2, ForkLink(0)), ForkDone(0))
    ensures var s4 := Do(Do(Do(Do(s, Dispatch(0, s.init)), AllocProc(0, i)), ForkLink(0)), ForkDone(0));
            Two(s4, i, p.(state := RUNNING, chan := None), q.(state := RUNNABLE, pid := s.nextpid, parent := Some(s.init)), Some(s.init)) && s4.init == s.init
  {
  }

  lemma SleepPart(s: State, i: nat, p: Proc, q: Proc)
    requires Two(s, i, p, q, Some(s.init)) && p.activity == Normal && !p.killed && p.parent == None
    requires q.state == RUNNABLE && q.parent == Some(s.init) && q.activity == Normal
    ensures Enabled(s, WaitSleep(0)) && Enabled(Do(s, WaitSleep(0)), Dispatch(0, i))
    ensures var s2 := Do(Do(s, WaitSleep(0)), Dispatch(0, i));
            s2.init == s.init && Two(s2, i, p.(state := SLEEPING, chan := Some(OfProc(s.init))), q.(state := RUNNING, chan := None), Some(i))
  {
    assert HasChild(s.ps, s.init) by { assert ChildOf(s.ps[i], s.init); }
    assert !ZombieChild(s.ps, s.init);
  }

  lemma ExitPart(s: State, i: nat, p: Proc, q: Proc)
    requires Two(s, i, p, q, Some(i)) && p.state == SLEEPING && p.chan == Some(OfProc(s.init)) && p.parent == None
    requires q.state == RUNNING && q.parent == Some(s.init) && q.activity == Normal
    ensures Enabled(s, Exit(0))
    ensures var s' := Do(s, Exit(0)); s'.init == s.init && Two(s', i, p.(state := RUNNABLE), q.(state := ZOMBIE), None)
  {
    hide Exited;
    forall j: nat | j < NPROC ensures ProcTable.Leaves(s.ps, i, s.init, j, Exited(s.ps, i, s.init)[j]) {
      ExitedLeaves(s.ps, i, s.init, j);
    }
  }

  lemma ReapPart(s: State, i: nat, p: Proc, q: Proc)
    requires Two(s, i, p, q, None) && p.state == RUNNABLE && p.activity == Normal && q.state == ZOMBIE && q.parent == Some(s.init)
    ensures Enabled(s, Dispatch(0, s.init)) && Enabled(Do(s, Dispatch(0, s.init)), WaitReap(0, i))
    ensures var s2 := Do(Do(s, Dispatch(0, s.init)), WaitReap(0, i)); |s2.ps| == NPROC && s2.ps[i].state == UNUSED && q.pid in s2.reaped
  {
  }

  lemma RunOn(run: seq<State>, steps: seq<Step>, step: Step) returns (run': seq<State>, steps': seq<Step>)
    requires Run(run, steps) && Enabled(run[|steps|], step)
    ensures Run(run', steps') && steps' == steps + [step] && run' == run + [Do(run[|steps|], step)]
  {
    hide Enabled, Do;
    run', steps' := run + [Do(run[|steps|], step)], steps + [step];
    forall i | 0 <= i < |steps'| ensures Enabled(run'[i], steps'[i]) && run'[i + 1] == Do(run'[i], steps'[i]) {
      if i < |steps| {
        assert run'[i] == run[i] && run'[i + 1] == run[i + 1] && steps'[i] == steps[i];
      }
    }
  }

  lemma ForkRuns(run: seq<State>, steps: seq<Step>, i: nat, p: Proc, q: Proc) returns (run': seq<State>, steps': seq<Step>)
    requires Run(run, steps) && Two(run[|steps|], i, p, q, None)
    requires p.state == RUNNABLE && p.activity == Normal && q.state == UNUSED && q.parent == None
    ensures Run(run', steps') && run'[0] == run[0] && run'[|steps'|].init == run[|steps|].init
    ensures steps' == steps + [Dispatch(0, run[|steps|].init), AllocProc(0, i), ForkLink(0), ForkDone(0)]
    ensures var s := run[|steps|]; Two(run'[|steps'|], i, p.(state := RUNNING, chan := None),
                                       q.(state := RUNNABLE, pid := s.nextpid, parent := Some(s.init)), Some(s.init))
  {
    ForkPart(run[|steps|], i, p, q);
    hide Do, Enabled, Two, Run;
    RunSized(run, steps);
    ghost var s := run[|steps|];
    var run1, steps1 := RunOn(run, steps, Dispatch(0, s.init));
    var run2, steps2 := RunOn(run1, steps1, AllocProc(0, i));
    var run3, steps3 := RunOn(run2, steps2, ForkLink(0));
    run', steps' := RunOn(run3, steps3, ForkDone(0));
  }

  lemma RunSized(run: seq<State>, steps: seq<Step>)
    requires Run(run, steps)
    ensures |run| == |steps| + 1
  {
  }

  lemma ExitRuns(run: seq<State>, steps: seq<Step>, i: nat, p: Proc, q: Proc) returns (run': seq<State>, steps': seq<Step>)
    requires Run(run, steps) && Two(run[|steps|], i, p, q, Some(run[|steps|].init)) && p.activity == Normal && !p.killed && p.parent == None
    requires q.state == RUNNABLE && q.parent == Some(run[|steps|].init) && q.activity == Normal
    ensures Run(run', steps') && run'[0] == run[0] && run'[|steps'|].init == run[|steps|].init
    ensures steps' == steps + [WaitSleep(0), Dispatch(0, i), Exit(0)]
    ensures Two(run'[|steps'|], i, p.(state := RUNNABLE, chan := Some(OfProc(run[|steps|].init))), q.(state := ZOMBIE, chan := None), None)
  {
    RunSized(run, steps);
    hide Do, Enabled, Two, Run;
    var s := run[|steps|];
    SleepPart(s, i, p, q);
    var run1, steps1 := RunOn(run, steps, WaitSleep(0));
    var run2, steps2 := RunOn(run1, steps1, Dispatch(0, i));
    ExitPart(run2[|steps2|], i, p.(state := SLEEPING, chan := Some(OfProc(s.init))), q.(state := RUNNING, chan := None));
    run', steps' := RunOn(run2, steps2, Exit(0));
  }

  lemma ReapRuns(run: seq<State>, steps: seq<Step>, i: nat, p: Proc, q: Proc) returns (run': seq<State>, steps': seq<Step>)
    requires Run(run, steps) && Two(run[|steps|], i, p, q, None) && p.state == RUNNABLE && p.activity == Normal
    requires q.state == ZOMBIE && q.parent == Some(run[|steps|].init)
    ensures Run(run', steps') && run'[0] == run[0] && steps' == steps + [Dispatch(0, run[|steps|].init), WaitReap(0, i)]
    ensures var s := run'[|steps'|]; i < |s.ps| && s.ps[i].state == UNUSED && q.pid in s.reaped
  {
    ReapPart(run[|steps|], i, p, q);
    hide Do, Enabled, Two, Run;
    RunSized(run, steps);
    run', steps' := RunOn(run, steps, Dispatch(0, run[|steps|].init));
    run', steps' := RunOn(run', steps', WaitReap(0, i));
  }

  /** From every boot: init forks and waits, the child runs and exits, and wait returns its pid and frees its entry. */
  lemma ForkExitWait(s: State, i: nat) returns (run: seq<State>, steps: seq<Step>)
    requires Init(s) && i < NPROC && i != s.init && !s.ps[s.init].killed
    ensures Run(run, steps) && run[0] == s
    ensures steps == [Dispatch(0, s.init), AllocProc(0, i), ForkLink(0), ForkDone(0), WaitSleep(0), Dispatch(0, i), Exit(0), Dispatch(0, s.init), WaitReap(0, i)]
    ensures var e := run[|steps|]; i < |e.ps| && e.ps[i].state == UNUSED && s.nextpid in e.reaped
  {
    var p, q := s.ps[s.init], s.ps[i];
    assert Two(s, i, p, q, None);
    assert Run([s], []);
    hide Run, Two, Init;
    run, steps := ForkRuns([s], [], i, p, q);
    p, q := p.(state := RUNNING, chan := None), q.(state := RUNNABLE, pid := s.nextpid, parent := Some(s.init));
    run, steps := ExitRuns(run, steps, i, p, q);
    p, q := p.(state := RUNNABLE, chan := Some(OfProc(s.init))), q.(state := ZOMBIE, chan := None);
    run, steps := ReapRuns(run, steps, i, p, q);
  }
}
