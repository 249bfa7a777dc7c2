/** Transaction tracking and shutdown of the database manager
    (pkg/database/manager/manager.go).

    Any number of goroutines begin, commit and roll back transactions while any number of
    goroutines call Shutdown. A deadline may pass at any step, and the adapter may answer
    any call with success or an error. */
module DrainProtocol {
  import opened Counting

  // ---------- the objects ----------

  /** sync.WaitGroup, with a counter that would show a release too many as a negative count. */
  class WaitGroup {
    var count: int

    constructor ()
      ensures count == 0
    {
      count := 0;
    }

    method Add()
      modifies this
      ensures count == old(count) + 1
    {
      count := count + 1;
    }

    method Done()
      modifies this
      ensures count == old(count) - 1
    {
      count := count - 1;
    }
  }

  /** How a call into foreign code ends. */
  datatype Outcome = Success | Failure | Panic

  class TrackedTx {
    const wg: WaitGroup
    var done: bool
    var commits: nat       // calls of the adapter's Commit and Rollback
    var rollbacks: nat

    constructor (wg: WaitGroup)
      ensures this.wg == wg && !done && commits == rollbacks == 0
    {
      this.wg := wg;
      done := false;
      commits, rollbacks := 0, 0;
    }

    method Commit(adapter: Outcome) returns (outcome: Outcome)
      modifies this, wg
      ensures commits == old(commits) + 1 && rollbacks == old(rollbacks)
      ensures outcome == adapter
      ensures (done, wg.count) ==
                if adapter == Panic then (old(done), old(wg.count)) else Release(old(done), old(wg.count))
    {
      commits := commits + 1;
      outcome := Finish(adapter);
    }

    method Rollback(adapter: Outcome) returns (outcome: Outcome)
      modifies this, wg
      ensures rollbacks == old(rollbacks) + 1 && commits == old(commits)
      ensures outcome == adapter
      ensures (done, wg.count) ==
                if adapter == Panic then (old(done), old(wg.count)) else Release(old(done), old(wg.count))
    {
      rollbacks := rollbacks + 1;
      outcome := Finish(adapter);
    }

    /** What Commit and Rollback share: the adapter's call, then the once guard. A panic of
        the adapter skips the guard. */
    method Finish(adapter: Outcome) returns (outcome: Outcome)
      modifies this`done, wg
      ensures outcome == adapter
      ensures (done, wg.count) ==
                if adapter == Panic then (old(done), old(wg.count)) else Release(old(done), old(wg.count))
    {
      outcome := adapter;
      if adapter == Panic {
        return;
      }
      if !done {
        done := true;
        wg.Done();
      }
    }
  }

  /** The once guard: it lets go of the wait group the first time only. */
  function Release(released: bool, count: int): (r: (bool, int))
    ensures r.0
    ensures r.1 == count - (if released then 0 else 1)
  {
    (true, if released then count else count - 1)
  }

  datatype Begun = Refused | Failed | Started(tx: TrackedTx)

  class DbManager {
    var closed: bool
    const activeTx: WaitGroup

    constructor ()
      ensures !closed && activeTx.count == 0 && fresh(activeTx)
    {
      closed := false;
      activeTx := new WaitGroup();
    }

    /** What the protocol below keeps of this object. */
    function View(): (bool, int)
      reads this, activeTx
    {
      (closed, activeTx.count)
    }

    /** The section of BeginTx under the read lock. */
    method Admit() returns (admitted: bool)
      modifies activeTx
      ensures (View(), admitted) == AdmitStep(old(View()))
    {
      admitted := !closed;
      if admitted {
        activeTx.Add();
      }
    }

    method BeginTx(adapterBegins: bool) returns (r: Begun)
      modifies activeTx
      ensures old(closed) ==> r == Refused && activeTx.count == old(activeTx.count)
      ensures !old(closed) && !adapterBegins ==> r == Failed && activeTx.count == old(activeTx.count)
      ensures !old(closed) && adapterBegins ==>
                && r.Started? && fresh(r.tx) && r.tx.wg == activeTx && !r.tx.done
                && r.tx.commits == r.tx.rollbacks == 0
                && activeTx.count == old(activeTx.count) + 1
    {
      var admitted := Admit();
      if !admitted {
        return Refused;
      }
      if !adapterBegins {
        activeTx.Done();
        return Failed;
      }
      var tx := new TrackedTx(activeTx);
      return Started(tx);
    }

    /** The section of Shutdown under the write lock. */
    method MarkClosed()
      modifies this
      ensures closed && activeTx.count == old(activeTx.count)
    {
      closed := true;
    }
  }

  function AdmitStep(m: (bool, int)): (r: ((bool, int), bool))
    ensures r.1 <==> !m.0
    ensures r.0 == (m.0, if r.1 then m.1 + 1 else m.1)
  {
    if m.0 then (m, false) else ((m.0, m.1 + 1), true)
  }

  // ---------- the protocol ----------

  /** A started transaction: Commit and Rollback calls issued on it, those inside the adapter,
      those back from it but before the once guard, those the adapter has ended in a panic, and
      whether the guard has fired. */
  datatype Tx = Tx(issued: nat, inAdapter: nat, atGuard: nat, panicked: nat, released: bool)

  const FRESH_TX := Tx(0, 0, 0, 0, false)

  datatype Error = NoError | AdapterError | ShutdownTimeout

  /** The winning Shutdown call. */
  datatype ShutdownPc =
    | NotCalled
    | Entered        // inside the once body, flag not yet set
    | Draining       // waiting for the wait group or the deadline
    | Closing        // adapter.Close started in its own goroutine
    | Finished(err: Error)

  datatype State = State(
    closed: bool,
    active: int,               // the wait group's counter
    begins: nat,               // admitted BeginTx calls inside the adapter
    txs: seq<Tx>,
    shutdown: ShutdownPc,
    drained: bool,             // the waiting goroutine has closed its channel
    drainTimedOut: bool,
    closeCalls: nat,           // calls of adapter.Close
    closeReturned: bool,       // adapter.Close has returned
    closeErr: Error,
    waiting: nat,              // other Shutdown callers, blocked on the once
    results: seq<Error>        // what finished Shutdown calls returned
  )

  ghost predicate Init(s: State) {
    s == State(false, 0, 0, [], NotCalled, false, false, 0, false, NoError, 0, [])
  }

  ghost predicate BeginStep(s: State, s': State) {
    var ((closed, active), admitted) := AdmitStep((s.closed, s.active));
    || (admitted && s' == s.(active := active, begins := s.begins + 1))
    || (!admitted && s' == s)
    || (s.begins > 0 && s' == s.(active := s.active - 1, begins := s.begins - 1))
    || (s.begins > 0 && s' == s.(begins := s.begins - 1, txs := s.txs + [FRESH_TX]))
  }

  ghost predicate TxStep(s: State, t: nat, s': State)
    requires t < |s.txs|
  {
    var tx := s.txs[t];
    || s' == s.(txs := s.txs[t := tx.(issued := tx.issued + 1, inAdapter := tx.inAdapter + 1)])
    || (tx.inAdapter > 0
        && s' == s.(txs := s.txs[t := tx.(inAdapter := tx.inAdapter - 1, atGuard := tx.atGuard + 1)]))
    || (tx.inAdapter > 0
        && s' == s.(txs := s.txs[t := tx.(inAdapter := tx.inAdapter - 1, panicked := tx.panicked + 1)]))
    || (tx.atGuard > 0
        && var (released, active) := Release(tx.released, s.active);
           s' == s.(txs := s.txs[t := tx.(atGuard := tx.atGuard - 1, released := released)], active := active))
  }

  ghost predicate ShutdownStep(s: State, s': State) {
    || (s.shutdown == NotCalled && s' == s.(shutdown := Entered))
    || (s.shutdown == Entered && s' == s.(closed := true, shutdown := Draining))
    || (s.shutdown == Draining && s' == s.(shutdown := Finished(ShutdownTimeout), drainTimedOut := true,
                                           results := s.results + [ShutdownTimeout]))
    || (s.shutdown == Draining && s.drained && s' == s.(shutdown := Closing))
    || (s.shutdown == Closing
        && s' == s.(shutdown := Finished(ShutdownTimeout), results := s.results + [ShutdownTimeout]))
    || (s.shutdown == Closing && s.closeReturned
        && s' == s.(shutdown := Finished(s.closeErr), results := s.results + [s.closeErr]))
  }

  /** The goroutine behind the drained channel, and the one that calls adapter.Close, which
      may still run after the winning call has timed out. */
  ghost predicate HelperStep(s: State, s': State) {
    || (s.closed && s.active == 0 && s' == s.(drained := true))
    || ((s.shutdown == Closing || (s.shutdown.Finished? && s.drained && !s.drainTimedOut))
        && s.closeCalls == 0 && s' == s.(closeCalls := 1))
    || (s.closeCalls == 1 && !s.closeReturned
        && exists err | err in {NoError, AdapterError, ShutdownTimeout} ::
             s' == s.(closeReturned := true, closeErr := err))
  }

  /** A Shutdown call that finds the once taken, and its return. */
  ghost predicate FollowerStep(s: State, s': State) {
    || (s.shutdown != NotCalled && s' == s.(waiting := s.waiting + 1))
    || (s.shutdown.Finished? && s.waiting > 0
        && s' == s.(waiting := s.waiting - 1, results := s.results + [s.shutdown.err]))
  }

  ghost predicate Next(s: State, s': State) {
    || BeginStep(s, s')
    || (exists t | 0 <= t < |s.txs| :: TxStep(s, t, s'))
    || ShutdownStep(s, s')
    || HelperStep(s, s')
    || FollowerStep(s, s')
  }

  // ---------- the invariant ----------

  /** None of the transaction's Commit or Rollback calls has returned yet. */
  predicate IsOpen(tx: Tx) {
    !tx.released
  }

  /** The calls that have returned are among those issued. */
  ghost predicate CallsInv(tx: Tx) {
    tx.inAdapter + tx.atGuard + tx.panicked + (if tx.released then 1 else 0) <= tx.issued
  }

  ghost predicate Inv(s: State) {
    && (forall t | 0 <= t < |s.txs| :: CallsInv(s.txs[t]))
    && s.active == s.begins + Count(IsOpen, s.txs)
    && (s.closed <==> !s.shutdown.NotCalled? && !s.shutdown.Entered?)
    && (s.drained ==> s.closed && s.active == 0)
    && (s.shutdown == Closing ==> s.drained && !s.drainTimedOut)
    && (s.drainTimedOut ==> s.shutdown == Finished(ShutdownTimeout))
    && (s.shutdown.Finished? && !s.drainTimedOut ==> s.drained)
    && s.closeCalls <= 1
    && (s.closeCalls == 1 ==> s.drained && !s.drainTimedOut && (s.shutdown == Closing || s.shutdown.Finished?))
    && (s.closeReturned ==> s.closeCalls == 1)
    && (s.shutdown.Finished? && s.shutdown.err != ShutdownTimeout ==> s.closeReturned && s.shutdown.err == s.closeErr)
    && (!s.shutdown.Finished? ==> s.results == [])
    && (forall i | 0 <= i < |s.results| :: s.shutdown.Finished? && s.results[i] == s.shutdown.err)
  }

  lemma BeginPreserves(s: State, s': State)
    requires Inv(s) && BeginStep(s, s')
    ensures Inv(s') && Falls(s, s')
  {
    CountZero(IsOpen, s.txs);
    CountAppend(IsOpen, s.txs, FRESH_TX);
  }

  lemma TxPreserves(s: State, t: nat, s': State)
    requires Inv(s) && t < |s.txs| && TxStep(s, t, s')
    ensures Inv(s') && Falls(s, s')
  {
    CountUpdate(IsOpen, s.txs, t, s'.txs[t]);
    CountZero(IsOpen, s.txs);
  }

  lemma ShutdownPreserves(s: State, s': State)
    requires Inv(s) && (ShutdownStep(s, s') || HelperStep(s, s') || FollowerStep(s, s'))
    ensures Inv(s') && Falls(s, s')
  {
  }

  lemma StepPreserves(s: State, s': State)
    requires Inv(s) && Next(s, s')
    ensures Inv(s') && Falls(s, s')
  {
    if BeginStep(s, s') {
      BeginPreserves(s, s');
    } else if t :| 0 <= t < |s.txs| && TxStep(s, t, s') {
      TxPreserves(s, t, s');
    } else {
      ShutdownPreserves(s, s');
    }
  }

  // ---------- what every run guarantees ----------

  ghost predicate IsRun(run: seq<State>) {
    && run != [] && Init(run[0])
    && forall i | 0 <= i < |run| - 1 :: Next(run[i], run[i + 1])
  }

  ghost predicate Reachable(s: State) {
    exists run :: IsRun(run) && run[|run| - 1] == s
  }

  lemma {:induction false} RunInv(run: seq<State>, i: nat)
    requires IsRun(run) && i < |run|
    ensures Inv(run[i])
  {
    if i > 0 {
      RunInv(run, i - 1);
      StepPreserves(run[i - 1], run[i]);
    }
  }

  lemma ReachableInv(s: State)
    requires Reachable(s)
    ensures Inv(s)
  {
    var run :| IsRun(run) && run[|run| - 1] == s;
    RunInv(run, |run| - 1);
  }

  /** The wait group counts begins in flight plus transactions none of whose Commit or
      Rollback calls has returned, so it never goes negative. */
  lemma CountIsExact(s: State)
    requires Reachable(s)
    ensures s.active == s.begins + Count(IsOpen, s.txs) >= 0
  {
    ReachableInv(s);
  }

  ghost predicate Falls(s: State, s': State) {
    s.closed ==> s'.closed && s'.active <= s.active
  }

  lemma RunFalls(run: seq<State>, i: nat)
    requires IsRun(run) && i < |run| - 1
    ensures Falls(run[i], run[i + 1])
  {
    RunInv(run, i);
    StepPreserves(run[i], run[i + 1]);
  }

  lemma {:induction false} FallsAlong(run: seq<State>, i: nat, j: nat)
    requires i <= j < |run| && forall k | 0 <= k < |run| - 1 :: Falls(run[k], run[k + 1])
    ensures Falls(run[i], run[j])
  {
    if i < j {
      FallsAlong(run, i, j - 1);
      assert Falls(run[j - 1], run[j - 1 + 1]);
    }
  }

  /** Once the flag is set the count only falls: no transaction starts after that. */
  lemma CountNeverRises(run: seq<State>, i: nat, j: nat)
    requires IsRun(run) && i <= j < |run|
    ensures Falls(run[i], run[j])
  {
    forall k | 0 <= k < |run| - 1
      ensures Falls(run[k], run[k + 1])
    {
      RunFalls(run, k);
    }
    FallsAlong(run, i, j);
  }

  /** adapter.Close is called at most once, never after a drain timeout, and only with the
      manager closed, no begin in flight and every transaction finished at least once. */
  lemma CloseIsSafe(s: State)
    requires Reachable(s)
    ensures s.closeCalls <= 1
    ensures s.drainTimedOut ==> s.closeCalls == 0
    ensures s.closeCalls == 1 ==>
              && s.closed && s.active == 0 && s.begins == 0
              && forall t | 0 <= t < |s.txs| :: s.txs[t].released
  {
    ReachableInv(s);
    CountZero(IsOpen, s.txs);
  }

  /** Every Shutdown call returns the error of the winning one. */
  lemma ShutdownAgrees(s: State, i: nat, j: nat)
    requires Reachable(s) && i < |s.results| && j < |s.results|
    ensures s.results[i] == s.results[j]
    ensures s.drainTimedOut ==> s.results[i] == ShutdownTimeout
  {
    ReachableInv(s);
  }

  /** A Shutdown call that reports anything but the timeout has waited for adapter.Close, and
      reports what that returned. */
  lemma ResultIsCloses(s: State, i: nat)
    requires Reachable(s) && i < |s.results| && s.results[i] != ShutdownTimeout
    ensures s.drained && s.closeCalls == 1 && s.closeReturned && s.results[i] == s.closeErr
  {
    ReachableInv(s);
  }

  /** Whatever adapter.Close returns can be what Shutdown reports. */
  lemma ResultOfClose(err: Error) returns (s: State)
    ensures Reachable(s) && s.closeReturned && s.closeErr == err && s.results == [err]
  {
    s := State(false, 0, 0, [], NotCalled, false, false, 0, false, NoError, 0, []);
    assert IsRun([s]) && [s][|[s]| - 1] == s;
    s := CloseStarted(s);
    assert err in {NoError, AdapterError, ShutdownTimeout};
    s := ByShutdown(s, s.(closeReturned := true, closeErr := err));
    s := ByShutdown(s, s.(shutdown := Finished(err), results := [err]));
  }

  /** A transaction on which no Commit or Rollback has been issued, or all have panicked, keeps
      the count up: the adapter is not closed, and a shutdown can only time out. */
  lemma AbandonedBlocksClose(s: State, t: nat)
    requires Reachable(s) && t < |s.txs| && s.txs[t].panicked == s.txs[t].issued
    ensures s.active > 0 && s.closeCalls == 0 && !s.drained
    ensures s.shutdown.Finished? ==> s.shutdown.err == ShutdownTimeout
    ensures forall i | 0 <= i < |s.results| :: s.results[i] == ShutdownTimeout
  {
    ReachableInv(s);
    assert CallsInv(s.txs[t]);
    CountZero(IsOpen, s.txs);
  }

  // ---------- calls that overlap the close ----------

  /** Transaction t has had n Commit and Rollback calls issued on it, and one of them is still
      inside the adapter when that is being closed. */
  ghost predicate Overlaps(s: State, t: nat, n: nat) {
    && Reachable(s) && s.closeCalls == 1 && t < |s.txs|
    && s.txs[t].issued == n && s.txs[t].inAdapter > 0
  }

  /** A transaction with no more than one call has none of them open when the adapter is
      closed. */
  lemma LoneCallIsOver(s: State, t: nat)
    requires Reachable(s) && s.closeCalls == 1 && t < |s.txs| && s.txs[t].issued <= 1
    ensures s.txs[t].inAdapter == 0 && s.txs[t].atGuard == 0
  {
    CloseIsSafe(s);
    ReachableInv(s);
    assert CallsInv(s.txs[t]);
  }

  /** A Commit or Rollback can be inside the adapter while that is closed exactly if it is not
      the only one issued on its transaction. */
  lemma OverlapExactly(n: nat)
    ensures (exists s, t :: Overlaps(s, t, n)) <==> n >= 2
  {
    if n >= 2 {
      var s := LateRollbackOverlapsClose(n);
      assert Overlaps(s, 0, n);
    }
    if s, t :| Overlaps(s, t, n) && n < 2 {
      LoneCallIsOver(s, t);
    }
  }

  /** A Rollback that follows a returned Commit is not waited for, however many there are: the
      adapter can be closed while such calls are inside it. */
  lemma {:induction false} LateRollbackOverlapsClose(n: nat) returns (s: State)
    requires n >= 2
    ensures Reachable(s) && s.closeCalls == 1 && |s.txs| == 1
    ensures s.txs[0].issued == n && s.txs[0].inAdapter == n - 1
  {
    if n > 2 {
      s := LateRollbackOverlapsClose(n - 1);
      var tx := s.txs[0];
      s := ByTx(s, s.(txs := s.txs[0 := tx.(issued := n, inAdapter := n - 1)]));
    } else {
      s := SecondCallOpen();
      s := CloseStarted(s);
    }
  }

  /** The winning call with nothing to wait for, up to its call of adapter.Close. */
  lemma CloseStarted(s: State) returns (r: State)
    requires Reachable(s) && s.shutdown == NotCalled && s.active == 0 && s.closeCalls == 0
    ensures Reachable(r)
    ensures r == s.(closed := true, drained := true, shutdown := Closing, closeCalls := 1)
  {
    r := ByShutdown(s, s.(shutdown := Entered));
    r := ByShutdown(r, r.(closed := true, shutdown := Draining));
    r := ByShutdown(r, r.(drained := true));
    r := ByShutdown(r, r.(shutdown := Closing));
    r := ByShutdown(r, r.(closeCalls := 1));
  }

  /** One transaction whose Commit has returned and whose Rollback is inside the adapter. */
  lemma SecondCallOpen() returns (s: State)
    ensures Reachable(s)
    ensures s == State(false, 0, 0, [Tx(2, 1, 0, 0, true)], NotCalled, false, false, 0, false, NoError, 0, [])
  {
    s := State(false, 0, 0, [], NotCalled, false, false, 0, false, NoError, 0, []);
    assert IsRun([s]) && [s][|[s]| - 1] == s;
    s := ByBegin(s, s.(active := 1, begins := 1));
    s := ByBegin(s, s.(begins := 0, txs := [FRESH_TX]));
    s := ByTx(s, s.(txs := [Tx(1, 1, 0, 0, false)]));
    s := ByTx(s, s.(txs := [Tx(1, 0, 1, 0, false)]));
    s := ByTx(s, s.(txs := [Tx(1, 0, 0, 0, true)], active := 0));
    s := ByTx(s, s.(txs := [Tx(2, 1, 0, 0, true)]));
  }

  lemma ByBegin(s: State, s': State) returns (r: State)
    requires Reachable(s) && BeginStep(s, s')
    ensures r == s' && Reachable(r)
  {
    Extend(s, s');
    r := s';
  }

  lemma ByTx(s: State, s': State) returns (r: State)
    requires Reachable(s) && |s.txs| == 1 && TxStep(s, 0, s')
    ensures r == s' && Reachable(r)
  {
    Extend(s, s');
    r := s';
  }

  lemma ByShutdown(s: State, s': State) returns (r: State)
    requires Reachable(s) && (ShutdownStep(s, s') || HelperStep(s, s'))
    ensures r == s' && Reachable(r)
  {
    Extend(s, s');
    r := s';
  }

  lemma Extend(s: State, s': State)
    requires Reachable(s) && Next(s, s')
    ensures Reachable(s')
  {
    var run :| IsRun(run) && run[|run| - 1] == s;
    var longer := run + [s'];
    assert forall i | 0 <= i < |run| :: longer[i] == run[i];
    assert IsRun(longer) && longer[|longer| - 1] == s';
  }
}
