/**
 The process table of kern/sched/proc.cc. Each step is a segment that runs with ptable.lock
 held; sleep takes ptable.lock before it drops the caller's lock, so no wakeup falls between.

 Table index i stands for the pointer &ptable.proc[i].
 */
module ProcTable {
  import opened Common

  const NPROC: nat := 64
  const NCPU: nat := 8

  datatype ProcState = UNUSED | EMBRYO | SLEEPING | RUNNABLE | RUNNING | ZOMBIE

  /** wait sleeps on the caller's own entry; everything else sleeps on other addresses. */
  datatype Chan = OfProc(i: nat) | Address(n: nat)

  /** Where a process is inside fork: its child has no parent yet, or has one. */
  datatype Activity = Normal | Forking(child: nat, linked: bool)

  datatype Proc = Proc(state: ProcState, pid: nat, parent: Option<nat>, chan: Option<Chan>,
                       killed: bool, activity: Activity)

  predicate Alive(p: Proc) { p.state == SLEEPING || p.state == RUNNABLE || p.state == RUNNING }

  predicate AsleepOn(p: Proc, ch: Chan) { p.state == SLEEPING && p.chan == Some(ch) }

  predicate ChildOf(p: Proc, i: nat) { p.parent == Some(i) }

  // ---------- what the scan loops compute ----------

  /** wakeup1. */
  function Woken(ps: seq<Proc>, ch: Chan): (r: seq<Proc>)
    ensures |r| == |ps|
    ensures forall i :: 0 <= i < |ps| ==> r[i] == if AsleepOn(ps[i], ch) then ps[i].(state := RUNNABLE) else ps[i]
  {
    seq(|ps|, i requires 0 <= i < |ps| => if AsleepOn(ps[i], ch) then ps[i].(state := RUNNABLE) else ps[i])
  }

  /** The children of `cur` pass to init. */
  function Adopted(ps: seq<Proc>, cur: nat, init: nat): (r: seq<Proc>)
    ensures |r| == |ps|
    ensures forall i :: 0 <= i < |ps| ==> r[i] == if ChildOf(ps[i], cur) then ps[i].(parent := Some(init)) else ps[i]
  {
    seq(|ps|, i requires 0 <= i < |ps| => if ChildOf(ps[i], cur) then ps[i].(parent := Some(init)) else ps[i])
  }

  predicate ZombieChild(ps: seq<Proc>, i: nat)
  {
    exists j :: 0 <= j < |ps| && ChildOf(ps[j], i) && ps[j].state == ZOMBIE
  }

  predicate HasChild(ps: seq<Proc>, i: nat)
  {
    exists j :: 0 <= j < |ps| && ChildOf(ps[j], i)
  }

  /** The locked part of exit, up to the switch to the scheduler. */
  function Exited(ps: seq<Proc>, cur: nat, init: nat): (r: seq<Proc>)
    requires cur < |ps| && ps[cur].parent.Some?
    ensures |r| == |ps|
  {
    var woken := Woken(ps, OfProc(ps[cur].parent.value));
    var adopted := Adopted(woken, cur, init);
    var told := if ZombieChild(ps, cur) then Woken(adopted, OfProc(init)) else adopted;
    told[cur := told[cur].(state := ZOMBIE)]
  }

  function Killed(p: Proc): Proc { p.(killed := true, state := if p.state == SLEEPING then RUNNABLE else p.state) }

  /** wait frees the entry of a zombie child. */
  function Reaped(ps: seq<Proc>, j: nat): (r: seq<Proc>)
    requires j < |ps|
    ensures |r| == |ps|
  {
    ps[j := ps[j].(state := UNUSED, pid := 0, parent := None, killed := false)]
  }

  /** One pass of wait's loop: a pid to return, nothing to wait for, or the caller is asleep now. */
  datatype WaitResult = Pid(pid: nat) | NoChild | Asleep

  class Table {
    const procs: array<Proc>
    const init: nat

    constructor (n: nat)
      requires n < NPROC
      ensures fresh(procs) && procs.Length == NPROC && init == n
    {
      procs := new Proc[NPROC](_ => Proc(UNUSED, 0, None, None, false, Normal));
      init := n;
    }

    method Wakeup1(ch: Chan)
      modifies procs
      ensures procs[..] == Woken(old(procs[..]), ch)
      ensures forall i :: 0 <= i < procs.Length ==>
                procs[i] == if old(procs[i].state) == SLEEPING && old(procs[i].chan) == Some(ch)
                            then old(procs[i]).(state := RUNNABLE) else old(procs[i])
    {
      var p := 0;
      while p < procs.Length
        invariant 0 <= p <= procs.Length
        invariant forall i :: 0 <= i < procs.Length ==>
                    procs[i] == if i < p then Woken(old(procs[..]), ch)[i] else old(procs[i])
      {
        if procs[p].state == SLEEPING && procs[p].chan == Some(ch) {
          procs[p] := procs[p].(state := RUNNABLE);
        }
        p := p + 1;
      }
    }

    /** exit's loop: the children go to init, which is told of those that are zombies. */
    method PassChildren(cur: nat) returns (ghost told: bool)
      modifies procs
      ensures told <==> ZombieChild(old(procs[..]), cur)
      ensures forall i :: 0 <= i < procs.Length ==> procs[i] == Partly(old(procs[..]), cur, init, procs.Length, told, i)
    {
      ghost var woken := procs[..];
      told := false;
      var p := 0;
      while p < procs.Length
        invariant 0 <= p <= procs.Length
        invariant told <==> exists j :: 0 <= j < p && ChildOf(woken[j], cur) && woken[j].state == ZOMBIE
        invariant forall i :: 0 <= i < procs.Length ==> procs[i] == Partly(woken, cur, init, p, told, i)
      {
        if procs[p].parent == Some(cur) {
          procs[p] := procs[p].(parent := Some(init));
          if procs[p].state == ZOMBIE {
            Wakeup1(OfProc(init));
            told := true;
          }
        }
        p := p + 1;
      }
    }

    /** exit, after the files are closed. */
    method Exit(cur: nat)
      requires cur < procs.Length && procs[cur].parent.Some?
      modifies procs
      ensures procs[..] == Exited(old(procs[..]), cur, init)
      ensures forall i :: 0 <= i < procs.Length ==> Leaves(old(procs[..]), cur, init, i, procs[i])
    {
      forall i | 0 <= i < procs.Length ensures Leaves(procs[..], cur, init, i, Exited(procs[..], cur, init)[i]) {
        ExitedLeaves(procs[..], cur, init, i);
      }
      Wakeup1(OfProc(procs[cur].parent.value));
      ghost var told := PassChildren(cur);
      procs[cur] := procs[cur].(state := ZOMBIE);
    }

    /**
     The scan of wait: the first zombie child, else whether there is a child at all.
     */
    method FindZombie(cur: nat) returns (zombie: Option<nat>, haveKids: bool)
      ensures zombie.Some? ==> zombie.value < procs.Length && ChildOf(procs[zombie.value], cur) && procs[zombie.value].state == ZOMBIE
      ensures zombie.Some? <==> ZombieChild(procs[..], cur)
      ensures zombie.None? ==> (haveKids <==> HasChild(procs[..], cur))
    {
      haveKids := false;
      var p := 0;
      while p < procs.Length
        invariant 0 <= p <= procs.Length
        invariant forall j :: 0 <= j < p && ChildOf(procs[j], cur) ==> procs[j].state != ZOMBIE
        invariant haveKids <==> exists j :: 0 <= j < p && ChildOf(procs[j], cur)
      {
        if procs[p].parent == Some(cur) {
          haveKids := true;
          if procs[p].state == ZOMBIE {
            assert ChildOf(procs[..][p], cur);
            return Some(p), true;
          }
        }
        p := p + 1;
      }
      zombie := None;
    }

    /** The scan of allocproc. */
    method FindUnused() returns (r: Option<nat>)
      ensures r.Some? ==> r.value < procs.Length && procs[r.value].state == UNUSED
      ensures r.Some? ==> forall j :: 0 <= j < r.value ==> procs[j].state != UNUSED
      ensures r.None? ==> forall j :: 0 <= j < procs.Length ==> procs[j].state != UNUSED
    {
      var p := 0;
      while p < procs.Length
        invariant 0 <= p <= procs.Length
        invariant forall j :: 0 <= j < p ==> procs[j].state != UNUSED
      {
        if procs[p].state == UNUSED {
          return Some(p);
        }
        p := p + 1;
      }
      r := None;
    }

    /** The locked part of allocproc: the first unused entry becomes an EMBRYO. */
    method AllocProc(pid: nat) returns (r: Option<nat>)
      modifies procs
      ensures r.None? ==> procs[..] == old(procs[..]) && forall j :: 0 <= j < procs.Length ==> procs[j].state != UNUSED
      ensures r.Some? ==> r.value < procs.Length && old(procs[r.value].state) == UNUSED
      ensures r.Some? ==> procs[..] == old(procs[..])[r.value := old(procs[r.value]).(state := EMBRYO, pid := pid)]
    {
      r := FindUnused();
      if r.Some? {
        procs[r.value] := procs[r.value].(state := EMBRYO, pid := pid);
      }
    }

    /**
     One pass of wait. A zombie child is reaped; with children but no zombie the caller, unless
     it was killed, goes to sleep on its own entry.
     */
    method Wait(cur: nat) returns (r: WaitResult)
      requires cur < procs.Length
      modifies procs
      ensures r.Pid? <==> ZombieChild(old(procs[..]), cur)
      ensures r.Pid? ==> exists j :: 0 <= j < procs.Length && old(ChildOf(procs[j], cur) && procs[j].state == ZOMBIE) &&
                           r.pid == old(procs[j].pid) && procs[..] == Reaped(old(procs[..]), j) &&
                           procs[j] == old(procs[j]).(state := UNUSED, pid := 0, parent := None, killed := false) &&
                           forall i :: 0 <= i < procs.Length && i != j ==> procs[i] == old(procs[i])
      ensures r.NoChild? <==> !ZombieChild(old(procs[..]), cur) && (old(procs[cur].killed) || !HasChild(old(procs[..]), cur))
      ensures r.NoChild? ==> procs[..] == old(procs[..])
      ensures r.Asleep? ==> procs[..] == old(procs[..])[cur := old(procs[cur]).(chan := Some(OfProc(cur)), state := SLEEPING)]
    {
      var zombie, haveKids := FindZombie(cur);
      if zombie.Some? {
        var j := zombie.value;
        r := Pid(procs[j].pid);
        procs[j] := procs[j].(state := UNUSED, pid := 0, parent := None, killed := false);
        assert procs[..] == Reaped(old(procs[..]), j);
      } else if !haveKids || procs[cur].killed {
        r := NoChild;
      } else {
        procs[cur] := procs[cur].(chan := Some(OfProc(cur)), state := SLEEPING);
        r := Asleep;
      }
    }

    /** kill: the first entry with the pid is marked, and woken if it sleeps. */
    method Kill(pid: nat) returns (found: bool)
      modifies procs
      ensures found <==> exists i :: 0 <= i < procs.Length && old(procs[i].pid) == pid
      ensures !found ==> procs[..] == old(procs[..])
      ensures found ==> exists i :: FirstWith(old(procs[..]), pid, i) && procs[..] == old(procs[..])[i := Killed(old(procs[i]))] &&
                          procs[i].killed && procs[i].state == (if old(procs[i].state) == SLEEPING then RUNNABLE else old(procs[i].state)) &&
                          procs[i] == old(procs[i]).(killed := true, state := procs[i].state)
    {
      var p := 0;
      while p < procs.Length
        invariant 0 <= p <= procs.Length
        invariant forall j :: 0 <= j < p ==> procs[j].pid != pid
        invariant procs[..] == old(procs[..])
      {
        if procs[p].pid == pid {
          ghost var q := procs[p];
          procs[p] := procs[p].(killed := true);
          if procs[p].state == SLEEPING {
            procs[p] := procs[p].(state := RUNNABLE);
          }
          assert FirstWith(old(procs[..]), pid, p) && procs[..] == old(procs[..])[p := Killed(q)];
          return true;
        }
        p := p + 1;
      }
      found := false;
    }
  }

  /**
   What exit of `cur` makes of entry i: children go to init; the parent, if it sleeps in wait, is woken, and so is
   init, if it does and a zombie child is passed to it; `cur` is a zombie; nothing else changes.
   */
  ghost predicate Leaves(ps: seq<Proc>, cur: nat, init: nat, i: nat, r: Proc)
    requires cur < |ps| && ps[cur].parent.Some? && i < |ps|
  {
    var p := ps[i];
    var told := p.chan == Some(OfProc(ps[cur].parent.value)) || (p.chan == Some(OfProc(init)) && ZombieChild(ps, cur));
    && r.pid == p.pid && r.chan == p.chan && r.killed == p.killed && r.activity == p.activity
    && r.parent == (if p.parent == Some(cur) then Some(init) else p.parent)
    && r.state == (if i == cur then ZOMBIE else if p.state == SLEEPING && told then RUNNABLE else p.state)
  }

  lemma ExitedLeaves(ps: seq<Proc>, cur: nat, init: nat, i: nat)
    requires cur < |ps| && ps[cur].parent.Some? && i < |ps|
    ensures Leaves(ps, cur, init, i, Exited(ps, cur, init)[i])
  {
  }

  ghost predicate FirstWith(ps: seq<Proc>, pid: nat, i: int)
  {
    0 <= i < |ps| && ps[i].pid == pid && forall j :: 0 <= j < i ==> ps[j].pid != pid
  }

  /** Entry `i` when exit has looked at the first `p` entries. */
  ghost function Partly(woken: seq<Proc>, cur: nat, init: nat, p: nat, told: bool, i: nat): Proc
    requires i < |woken|
  {
    var q := if i < p && ChildOf(woken[i], cur) then woken[i].(parent := Some(init)) else woken[i];
    if told && AsleepOn(q, OfProc(init)) then q.(state := RUNNABLE) else q
  }
}
