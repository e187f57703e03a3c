/**
 Sleep locks (kern/locking/sleeplock.c) as a client of sleep and wakeup. A step is a segment
 that runs with the spin lock lk->lk held.
 */
module SleepLock {

  class Lock {
    var locked: bool
    var pid: nat
    var sleepers: set<nat>     // who sleeps on the lock's address
    ghost var owners: set<nat> // who returned from acquiresleep and has not called releasesleep

    /** A sleeper implies a held lock; the lock is held exactly when one process owns it. */
    ghost predicate Valid()
      reads this
    {
      && (sleepers != {} ==> locked)
      && (locked ==> owners == {pid})
      && (!locked ==> owners == {} && pid == 0)
      && sleepers !! owners
    }

    constructor ()
      ensures Valid() && !locked && sleepers == {}
    {
      locked, pid, sleepers, owners := false, 0, {}, {};
    }

    /** One pass of acquiresleep's loop. False: the caller is asleep now. */
    method AcquireSleep(me: nat) returns (taken: bool)
      requires Valid() && me !in owners && me !in sleepers
      modifies this
      ensures Valid()
      ensures taken <==> old(owners) == {}
      ensures taken ==> owners == {me} && sleepers == old(sleepers)
      ensures !taken ==> owners == old(owners) && sleepers == old(sleepers) + {me}
    {
      if locked {
        sleepers := sleepers + {me};
        return false;
      }
      locked := true;
      pid := me;
      owners := {me};
      taken := true;
    }

    /** releasesleep by the owner: nobody owns the lock, and nobody sleeps on it. */
    method ReleaseSleep(ghost me: nat)
      requires Valid() && me in owners
      modifies this
      ensures Valid() && owners == {} && sleepers == {}
    {
      locked := false;
      pid := 0;
      sleepers := {};
      owners := {};
    }

    /** kill makes a sleeper runnable; it will test the lock again. */
    method Interrupt(p: nat)
      requires Valid()
      modifies this`sleepers
      ensures Valid() && sleepers == old(sleepers) - {p}
    {
      sleepers := sleepers - {p};
    }

    /** holdingsleep tells the owner apart. Pids start at 1. */
    method HoldingSleep(me: nat) returns (r: bool)
      requires Valid()
      ensures r <==> me in owners
    {
      r := locked && pid == me;
    }
  }
}
