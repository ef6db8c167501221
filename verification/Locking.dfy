/**
 The lock tables, in every interleaving: what is locked is exactly what the RPCs in flight hold,
 no lock is held twice, and an attempt fails exactly when the lock is held.
 */
module Locking {
  import opened Protocol
  import opened System

  /** The lock an RPC takes. */
  function LockFor(rpc: Rpc): Lock {
    match rpc
    case Create(spec) => Lock(Names, spec.name)
    case TakeSnapshot(name, _, _) => SnapshotLock(name)
    case Delete(id) => Lock(Volumes, id)
    case Publish(id, _, _) => Lock(Volumes, id)
    case Unpublish(id, _, _) => Lock(Volumes, id)
    case Expand(id, _) => Lock(Volumes, id)
    case DropSnapshot(csiId, _) => Lock(Names, csiId)    // takes none
  }

  predicate OwnLock(t: Task) {
    !t.pc.Finished? && !t.pc.Dropping? ==> t.pc.lock == LockFor(t.rpc)
  }

  predicate Holds(s: State, task: nat, driver: nat, lock: Lock) {
    task in s.tasks && Holding(s.tasks[task].pc) && s.tasks[task].driver == driver && s.tasks[task].pc.lock == lock
  }

  ghost predicate LockInv(s: State) {
    && (forall task :: task in s.tasks ==> OwnLock(s.tasks[task]))
    && (forall driver: nat, lock :: (driver, lock) in s.held <==> exists task :: Holds(s, task, driver, lock))
    && (forall t, u, driver, lock :: Holds(s, t, driver, lock) && Holds(s, u, driver, lock) ==> t == u)
  }

  lemma {:induction false} ArrivalKeepsLocks(s: State, e: Event)
    requires LockInv(s) && e.Arrival? && Enabled(s, e)
    ensures LockInv(Next(s, e))
  {
    var s' := Next(s, e);
    forall task, driver, lock ensures Holds(s', task, driver, lock) <==> Holds(s, task, driver, lock) {
      assert !Holding(Begin(e.rpc));
    }
  }

  /** A step moves the locks of its own task only. */
  lemma {:induction false} OthersKeepLocks(s: State, e: Event, task: nat, driver: nat, lock: Lock)
    requires e.Progress? && Enabled(s, e) && task != e.task
    ensures Holds(Next(s, e), task, driver, lock) <==> Holds(s, task, driver, lock)
  {
  }

  lemma {:induction false} ProgressKeepsLocks(s: State, e: Event)
    requires LockInv(s) && e.Progress? && Enabled(s, e)
    ensures LockInv(Next(s, e))
  {
    var s' := Next(s, e);
    var t := s.tasks[e.task];
    StepKeepsLock(t.pc, e.reply);
    assert OwnLock(t);
    forall task, driver, lock | task != e.task
      ensures Holds(s', task, driver, lock) <==> Holds(s, task, driver, lock)
    {
      OthersKeepLocks(s, e, task, driver, lock);
    }
    if Holding(t.pc) {
      assert Holds(s, e.task, t.driver, t.pc.lock);
    }
    forall driver: nat, lock ensures (driver, lock) in s'.held <==> exists task :: Holds(s', task, driver, lock) {
      if (driver, lock) in s'.held {
        if t.pc.Locking? && e.reply.granted && driver == t.driver && lock == t.pc.lock {
          assert Holds(s', e.task, driver, lock);
        } else {
          var task :| Holds(s, task, driver, lock);
          assert Holds(s', task, driver, lock);
        }
      }
      if task :| Holds(s', task, driver, lock) {
        if task != e.task {
          assert Holds(s, task, driver, lock);
          if t.pc.Unlocking? && driver == t.driver && lock == t.pc.lock {
            assert Holds(s, e.task, driver, lock);
          }
        } else if !t.pc.Locking? {
          assert Holds(s, e.task, driver, lock);
        }
      }
    }
    forall a, b, driver, lock | Holds(s', a, driver, lock) && Holds(s', b, driver, lock) ensures a == b {
      assert a != e.task ==> Holds(s, a, driver, lock);
      assert b != e.task ==> Holds(s, b, driver, lock);
      assert !t.pc.Locking? && Holds(s', e.task, driver, lock) ==> Holds(s, e.task, driver, lock);
    }
  }

  lemma {:induction false} LockInvAlways(s: State, run: seq<Event>)
    requires LockInv(s) && Legal(s, run)
    ensures LockInv(Final(s, run))
    decreases |run|
  {
    if run != [] {
      if run[0].Arrival? {
        ArrivalKeepsLocks(s, run[0]);
      } else {
        ProgressKeepsLocks(s, run[0]);
      }
      LockInvAlways(Next(s, run[0]), run[1..]);
    }
  }

  /**
   In every reachable state the locked keys are those of the RPCs between TryLock and unlock,
   each held by exactly one of them and being the lock its own request asks for; an RPC that
   has answered holds nothing.
   */
  lemma {:induction false} LockTableRefinement(s: State, run: seq<Event>)
    requires Initial(s) && Legal(s, run)
    ensures var end := Final(s, run);
            && (forall driver: nat, lock :: (driver, lock) in end.held <==>
              exists task :: Holds(end, task, driver, lock))
            && (forall t, u, driver, lock :: Holds(end, t, driver, lock) && Holds(end, u, driver, lock) ==> t == u)
            && (forall task, driver, lock :: Holds(end, task, driver, lock) ==> lock == LockFor(end.tasks[task].rpc))
            && (forall task, driver, lock :: task in end.tasks && end.tasks[task].pc.Finished? ==>
              !Holds(end, task, driver, lock))
  {
    LockInvAlways(s, run);
  }

  /** TryLock is refused exactly when another RPC of the same driver holds the lock. */
  lemma {:induction false} TryLockFailsIffHeld(s: State, e: Event)
    requires LockInv(s) && e.Progress? && Enabled(s, e) && s.tasks[e.task].pc.Locking?
    ensures var t := s.tasks[e.task];
            !e.reply.granted <==> exists other :: other != e.task && Holds(s, other, t.driver, t.pc.lock)
  {
    var t := s.tasks[e.task];
    if (t.driver, t.pc.lock) in s.held {
      var other :| Holds(s, other, t.driver, t.pc.lock);
    }
  }
}
