/** One unit of work over a tracked transaction (pkg/database/uow/uow.go).

    The function, the commit and every rollback may succeed, fail or panic. A panic is a
    return value here: each method says whether it ends in one, and the deferred block of
    `Do` is the code that runs on that value. */
module UnitOfWork {
  import opened DrainProtocol

  datatype DoError = NoErr | NestedTransaction | BeginFailed | FnError | CommitFailed

  datatype Exit<T> = Returned(value: T, err: DoError) | Panicked

  /** How the caller's function ends. */
  datatype FnEnd<T> = Value(value: T) | Fails | Panics

  class ReentrancyGuard {
    var active: set<int>

    constructor ()
      ensures active == {}
    {
      active := {};
    }

    method Enter(gid: int) returns (entered: bool)
      modifies this
      ensures entered <==> gid !in old(active)
      ensures active == old(active) + {gid}
    {
      if gid in active {
        return false;
      }
      active := active + {gid};
      return true;
    }

    method Leave(gid: int)
      modifies this
      ensures active == old(active) - {gid}
    {
      active := active - {gid};
    }
  }

  /** What the world answers during one call of `Do`: whether the context already carries a
      transaction, whether the adapter begins one, how the function and the commit end, and
      how the k-th rollback ends. `reentries` is how often the function calls `Do` again. */
  datatype World<T> = World(
    inTx: bool, begins: bool, fn: FnEnd<T>, commit: Outcome, rollback: nat -> Outcome, reentries: nat)
  {
    predicate Commits() {
      fn.Value? && commit == Success
    }

    /** The rollback issued by the deferred recover block panics itself. */
    predicate RecoveryPanics() {
      match fn
      case Panics => rollback(0) == Panic
      case Fails => rollback(0) == Panic && rollback(1) == Panic
      case Value(_) =>
        match commit
        case Success => false
        case Failure => rollback(0) == Panic && rollback(1) == Panic
        case Panic => rollback(0) == Panic
    }

    /** More than one Commit or Rollback is issued on the transaction, so a shutdown does not
        wait for the last one. */
    predicate IssuesMoreThanOne() {
      (fn.Value? && commit != Success) || (fn.Fails? && rollback(0) == Panic)
    }

    /** No Commit or Rollback of the transaction ever returns. */
    predicate NeverFinished() {
      RecoveryPanics() && !(fn.Value? && commit == Failure)
    }
  }

  class UnitOfWork<T(0)> {
    const manager: DbManager
    const guard: ReentrancyGuard
    var committed: nat
    var rolledBack: nat

    constructor (manager: DbManager)
      ensures this.manager == manager && guard.active == {} && fresh(guard)
      ensures committed == rolledBack == 0
    {
      this.manager := manager;
      guard := new ReentrancyGuard();
      committed, rolledBack := 0, 0;
    }

    /** `Do`. A call that begins a transaction bumps exactly one counter exactly once, unless
        the rollback of the recover block panics. A value is returned only for a committed
        transaction. The reentrancy set is back to what it was in every case, and so is the
        wait group unless no Commit or Rollback ever returned. `issued` counts the Commit and
        Rollback calls on the transaction. */
    method Do(gid: int, zero: T, w: World<T>) returns (exit: Exit<T>, issued: nat)
      modifies this, guard, manager.activeTx
      ensures guard.active == old(guard.active)
      ensures gid in old(guard.active) || w.inTx ==> exit == Returned(zero, NestedTransaction)
      ensures gid !in old(guard.active) && !w.inTx && !Begins(w) ==> exit == Returned(zero, BeginFailed)
      ensures !Begun(old(guard.active), gid, w) ==> Moved(0, 0, 0) && issued == 0
      ensures Begun(old(guard.active), gid, w) && w.fn.Panics? ==>
                && exit == Panicked && issued == 1
                && if w.rollback(0) == Panic then Moved(0, 0, 1) else Moved(0, 1, 0)
      ensures Begun(old(guard.active), gid, w) && w.fn.Fails? && w.rollback(0) != Panic ==>
                exit == Returned(zero, FnError) && issued == 1 && Moved(0, 1, 0)
      ensures Begun(old(guard.active), gid, w) && w.fn.Fails? && w.rollback(0) == Panic ==>
                && exit == Panicked && issued == 2
                && if w.rollback(1) == Panic then Moved(0, 0, 1) else Moved(0, 1, 0)
      ensures Begun(old(guard.active), gid, w) && w.fn.Value? && w.commit == Success ==>
                exit == Returned(w.fn.value, NoErr) && issued == 1 && Moved(1, 0, 0)
      ensures Begun(old(guard.active), gid, w) && w.fn.Value? && w.commit == Panic ==>
                && exit == Panicked && issued == 2
                && if w.rollback(0) == Panic then Moved(0, 0, 1) else Moved(0, 1, 0)
      ensures Begun(old(guard.active), gid, w) && w.fn.Value? && w.commit == Failure && w.rollback(0) != Panic ==>
                exit == Returned(zero, CommitFailed) && issued == 2 && Moved(0, 1, 0)
      ensures Begun(old(guard.active), gid, w) && w.fn.Value? && w.commit == Failure && w.rollback(0) == Panic ==>
                && exit == Panicked && issued == 3
                && if w.rollback(1) == Panic then Moved(0, 0, 0) else Moved(0, 1, 0)
      ensures Begun(old(guard.active), gid, w) ==>
                && issued >= 1 && (issued >= 2 <==> w.IssuesMoreThanOne())
                && (forall v :: exit == Returned(v, NoErr) <==> w.fn == Value(v) && w.commit == Success)
                && (exit.Returned? && exit.err != NoErr ==> exit.value == zero)
                && Moved(if w.Commits() then 1 else 0,
                         if w.Commits() || w.RecoveryPanics() then 0 else 1,
                         if w.NeverFinished() then 1 else 0)
      decreases w.reentries, 1
    {
      var entered := guard.Enter(gid);
      if !entered {
        return Returned(zero, NestedTransaction), 0;
      }
      if w.inTx {
        exit, issued := Returned(zero, NestedTransaction), 0;
      } else {
        exit, issued := RunTx(gid, zero, w);
      }
      guard.Leave(gid);
    }

    predicate Begins(w: World<T>)
      reads manager
    {
      w.begins && !manager.closed
    }

    predicate Begun(active: set<int>, gid: int, w: World<T>)
      reads manager
    {
      gid !in active && !w.inTx && Begins(w)
    }

    /** How far the two counters and the wait group have moved. */
    twostate predicate Moved(commits: int, rollbacks: int, held: int)
      reads this, manager.activeTx
    {
      && committed == old(committed) + commits && rolledBack == old(rolledBack) + rollbacks
      && manager.activeTx.count == old(manager.activeTx.count) + held
    }

    /** From BeginTx to the deferred recover block. */
    method RunTx(gid: int, zero: T, w: World<T>) returns (exit: Exit<T>, issued: nat)
      requires gid in guard.active
      modifies this, guard, manager.activeTx
      ensures guard.active == old(guard.active)
      ensures !Begins(w) ==> exit == Returned(zero, BeginFailed) && issued == 0 && Moved(0, 0, 0)
      ensures Begins(w) && w.fn.Panics? ==>
                && exit == Panicked && issued == 1
                && if w.rollback(0) == Panic then Moved(0, 0, 1) else Moved(0, 1, 0)
      ensures Begins(w) && w.fn.Fails? && w.rollback(0) != Panic ==>
                exit == Returned(zero, FnError) && issued == 1 && Moved(0, 1, 0)
      ensures Begins(w) && w.fn.Fails? && w.rollback(0) == Panic ==>
                && exit == Panicked && issued == 2
                && if w.rollback(1) == Panic then Moved(0, 0, 1) else Moved(0, 1, 0)
      ensures Begins(w) && w.fn.Value? && w.commit == Success ==>
                exit == Returned(w.fn.value, NoErr) && issued == 1 && Moved(1, 0, 0)
      ensures Begins(w) && w.fn.Value? && w.commit == Panic ==>
                && exit == Panicked && issued == 2
                && if w.rollback(0) == Panic then Moved(0, 0, 1) else Moved(0, 1, 0)
      ensures Begins(w) && w.fn.Value? && w.commit == Failure && w.rollback(0) != Panic ==>
                exit == Returned(zero, CommitFailed) && issued == 2 && Moved(0, 1, 0)
      ensures Begins(w) && w.fn.Value? && w.commit == Failure && w.rollback(0) == Panic ==>
                && exit == Panicked && issued == 3
                && if w.rollback(1) == Panic then Moved(0, 0, 0) else Moved(0, 1, 0)
      decreases w.reentries, 0
    {
      var begun := manager.BeginTx(w.begins);
      if !begun.Started? {
        return Returned(zero, BeginFailed), 0;
      }
      var tx := begun.tx;
      var _ := CallFn(gid, zero, w);
      exit := Settle(tx, zero, w);
      if exit.Panicked? {
        var recovery := tx.Rollback(w.rollback(tx.rollbacks));
        if recovery == Panic {
          return Panicked, tx.commits + tx.rollbacks;
        }
        rolledBack := rolledBack + 1;
      }
      issued := tx.commits + tx.rollbacks;
    }

    /** The caller's function, which may try to start units of work of its own. */
    method CallFn(gid: int, zero: T, w: World<T>) returns (nested: seq<Exit<T>>)
      requires gid in guard.active
      modifies this, guard, manager.activeTx
      ensures |nested| == w.reentries && forall exit | exit in nested :: exit == Returned(zero, NestedTransaction)
      ensures guard.active == old(guard.active)
      ensures committed == old(committed) && rolledBack == old(rolledBack)
      ensures manager.activeTx.count == old(manager.activeTx.count)
      decreases w.reentries, 0, 0
    {
      nested := [];
      for i := 0 to w.reentries
        invariant |nested| == i && forall exit | exit in nested :: exit == Returned(zero, NestedTransaction)
        invariant guard.active == old(guard.active)
        invariant committed == old(committed) && rolledBack == old(rolledBack)
        invariant manager.activeTx.count == old(manager.activeTx.count)
      {
        var exit, _ := Do(gid, zero, w.(reentries := i));
        nested := nested + [exit];
      }
    }

    /** From the function's end to the return statement. */
    method Settle(tx: TrackedTx, zero: T, w: World<T>) returns (exit: Exit<T>)
      requires tx.wg == manager.activeTx && !tx.done && tx.commits == tx.rollbacks == 0
      modifies this, tx, manager.activeTx
      ensures exit == match w.fn
                      case Panics => Panicked
                      case Fails => if w.rollback(0) == Panic then Panicked else Returned(zero, FnError)
                      case Value(v) =>
                        match w.commit
                        case Success => Returned(v, NoErr)
                        case Failure => if w.rollback(0) == Panic then Panicked else Returned(zero, CommitFailed)
                        case Panic => Panicked
      ensures committed == old(committed) + (if w.fn.Value? && w.commit == Success then 1 else 0)
      ensures rolledBack == old(rolledBack) + (if exit.Returned? && exit.err != NoErr then 1 else 0)
      ensures tx.commits == if w.fn.Value? then 1 else 0
      ensures tx.rollbacks == if w.fn.Fails? || (w.fn.Value? && w.commit == Failure) then 1 else 0
      ensures tx.done <==> exit.Returned? || (w.fn.Value? && w.commit == Failure)
      ensures manager.activeTx.count == old(manager.activeTx.count) - (if tx.done then 1 else 0)
    {
      if w.fn.Panics? {
        return Panicked;
      }
      if w.fn.Fails? {
        var undo := tx.Rollback(w.rollback(0));
        if undo == Panic {
          return Panicked;
        }
        rolledBack := rolledBack + 1;
        return Returned(zero, FnError);
      }
      var commit := tx.Commit(w.commit);
      if commit == Panic {
        return Panicked;
      }
      if commit == Failure {
        var undo := tx.Rollback(w.rollback(0));
        if undo == Panic {
          return Panicked;
        }
        rolledBack := rolledBack + 1;
        return Returned(zero, CommitFailed);
      }
      committed := committed + 1;
      return Returned(w.fn.value, NoErr);
    }
  }
}
