/** The worker manager's lifecycle (pkg/worker/manager.go) around the job scheduler.

    Any number of goroutines call Start and Stop. Start runs under the write lock of startMu
    from end to end, and Stop makes its state change under the read lock, so at most one
    Start is inside at a time and at most one Stop ever wins. The parent context may end at
    any step, and a consumer's Start may return at any step. */
module WorkerManager {
  import opened Counting
  import opened Options
  import Scheduler

  // ---------- names ----------

  ghost predicate Distinct(names: seq<string>) {
    forall i, k | 0 <= i < k < |names| :: names[i] != names[k]
  }

  /** validateNames: nothing if all names differ, else the first one seen before. */
  method ValidateNames(jobs: seq<string>, consumers: seq<string>) returns (duplicate: Option<string>)
    ensures duplicate == None <==> Distinct(jobs + consumers)
    ensures duplicate.Some? ==>
              exists i | 0 <= i < |jobs + consumers| ::
                && (jobs + consumers)[i] == duplicate.value
                && duplicate.value in (jobs + consumers)[..i]
                && Distinct((jobs + consumers)[..i])
  {
    ghost var all := jobs + consumers;
    var seen: set<string> := {};
    for i := 0 to |jobs|
      invariant Distinct(all[..i]) && seen == (set n | n in all[..i])
    {
      assert all[i] == jobs[i];
      if jobs[i] in seen {
        assert exists k | 0 <= k < i :: all[k] == jobs[i];
        return Some(jobs[i]);
      }
      seen := seen + {jobs[i]};
      assert all[..i + 1] == all[..i] + [all[i]];
    }
    for i := 0 to |consumers|
      invariant var at := |jobs| + i; Distinct(all[..at]) && seen == (set n | n in all[..at])
    {
      var at := |jobs| + i;
      assert all[at] == consumers[i];
      if consumers[i] in seen {
        assert exists k | 0 <= k < at :: all[k] == consumers[i];
        return Some(consumers[i]);
      }
      seen := seen + {consumers[i]};
      assert all[..at + 1] == all[..at] + [all[at]];
    }
    assert all[..|all|] == all;
    return None;
  }

  // ---------- the state word ----------

  datatype Life = Idle | Running | Stopping | Stopped

  /** The atomic state field. */
  class LifeCell {
    var value: Life

    constructor ()
      ensures value == Idle
    {
      value := Idle;
    }

    method CompareAndSwap(from: Life, to: Life) returns (swapped: bool)
      modifies this
      ensures (value, swapped) == Scheduler.Swap(old(value), from, to)
    {
      swapped := value == from;
      if swapped {
        value := to;
      }
    }
  }

  // ---------- the protocol ----------

  /** The Start call that holds the write lock. */
  datatype StartPc =
    | Locked
    | Claimed                  // idle -> running won
    | Failing                  // a name or a job was rejected
    | Ready                    // cancel and scheduler set
    | Launching(next: nat)     // scheduler launched, consumers from `next` on not yet

  datatype ConsumerPc = NotLaunched | Consuming | Ended

  /** The Stop call that won. */
  datatype StopPc =
    | NoStop
    | Won
    | Spawning(next: nat)      // after m.cancel()
    | Waiting                  // the select on stopped and the deadline
    | ConsumersStopped
    | Drained                  // after m.wg.Wait()
    | ReturnedStop

  /** The goroutine that calls one consumer's Stop. */
  datatype TaskPc = Unborn | Calling | Sending | Sent | Done

  /** The goroutines Start has launched. */
  datatype Work = Work(
    wg: int,
    scheduler: Scheduler.State,
    launched: bool,            // the scheduler's goroutine
    done: bool,
    consumers: seq<ConsumerPc>)

  /** The Stop call that won and its tasks. */
  datatype StopCall = StopCall(
    pc: StopPc,
    tasks: seq<TaskPc>,
    wg: int,
    errors: nat,               // buffered in errCh, whose capacity is the number of consumers
    closed: bool,              // errCh
    timedOut: bool)

  datatype State = State(
    life: Life,
    writer: Option<StartPc>,
    cancelSet: bool,
    cancelled: bool,
    work: Work,
    stop: StopCall)

  ghost predicate Init(s: State, jobs: seq<Scheduler.Job>, n: nat) {
    && Scheduler.Init(s.work.scheduler, jobs)
    && s == State(Idle, None, false, false,
                  Work(0, s.work.scheduler, false, false, seq(n, i => NotLaunched)),
                  StopCall(NoStop, seq(n, i => Unborn), 0, 0, false, false))
  }

  function Launch(w: Work, k: nat): Work
    requires k < |w.consumers|
  {
    w.(wg := w.wg + 1, consumers := w.consumers[k := Consuming])
  }

  function Spawn(c: StopCall, k: nat): StopCall
    requires k < |c.tasks|
  {
    c.(pc := Spawning(k + 1), wg := c.wg + 1, tasks := c.tasks[k := Calling])
  }

  ghost predicate StartStep(s: State, s': State) {
    match s.writer
    case None => s' == s.(writer := Some(Locked))
    case Some(Locked) =>
      var (life, swapped) := Scheduler.Swap(s.life, Idle, Running);
      s' == s.(life := life, writer := if swapped then Some(Claimed) else None)
    case Some(Claimed) =>
      || s' == s.(writer := Some(Failing))
      || s' == s.(writer := Some(Ready), cancelSet := true)
    case Some(Failing) => s' == s.(life := Idle, writer := None)
    case Some(Ready) => s' == s.(writer := Some(Launching(0)), work := s.work.(wg := s.work.wg + 1, launched := true))
    case Some(Launching(k)) =>
      if k < |s.work.consumers| then
        s' == s.(writer := Some(Launching(k + 1)), work := Launch(s.work, k))
      else
        s' == s.(writer := None)
  }

  /** The scheduler's goroutine: a step inside Scheduler.Start, or its end. */
  ghost predicate SchedulerStep(s: State, s': State) {
    && s.work.launched && !s.work.done
    && (|| (s' == s.(work := s.work.(scheduler := s'.work.scheduler))
            && Scheduler.Next(s.work.scheduler, s.cancelled, s'.work.scheduler))
        || (s.work.scheduler.main == Scheduler.Finished
            && s' == s.(work := s.work.(done := true, wg := s.work.wg - 1))))
  }

  /** A consumer's Start returns. */
  ghost predicate ConsumerStep(s: State, k: nat, s': State)
    requires k < |s.work.consumers|
  {
    && s.work.consumers[k] == Consuming
    && s' == s.(work := s.work.(consumers := s.work.consumers[k := Ended], wg := s.work.wg - 1))
  }

  /** The run context ends because its parent does. */
  ghost predicate ContextStep(s: State, s': State) {
    s.cancelSet && s' == s.(cancelled := true)
  }

  ghost predicate StopStep(s: State, s': State) {
    match s.stop.pc
    case NoStop =>
      && s.writer == None
      && var (life, swapped) := Scheduler.Swap(s.life, Running, Stopping);
         s' == s.(life := life, stop := s.stop.(pc := if swapped then Won else NoStop))
    case Won => s.cancelSet && s' == s.(cancelled := true, stop := s.stop.(pc := Spawning(0)))
    case Spawning(k) =>
      if k < |s.stop.tasks| then
        s' == s.(stop := Spawn(s.stop, k))
      else
        s' == s.(stop := s.stop.(pc := Waiting))
    case Waiting =>
      || s' == s.(stop := s.stop.(timedOut := true))
      || (s.stop.wg == 0 && s' == s.(stop := s.stop.(pc := ConsumersStopped)))
    case ConsumersStopped => s.work.wg == 0 && s' == s.(stop := s.stop.(pc := Drained))
    case Drained => s' == s.(stop := s.stop.(pc := ReturnedStop, closed := true), life := Stopped)
    case ReturnedStop => false
  }

  ghost predicate TaskStep(s: State, k: nat, s': State)
    requires k < |s.stop.tasks|
  {
    match s.stop.tasks[k]
    case Calling =>
      || s' == s.(stop := s.stop.(tasks := s.stop.tasks[k := Sending]))
      || s' == s.(stop := s.stop.(tasks := s.stop.tasks[k := Sent]))
    case Sending =>
      && s.stop.errors < |s.work.consumers| && !s.stop.closed
      && s' == s.(stop := s.stop.(tasks := s.stop.tasks[k := Sent], errors := s.stop.errors + 1))
    case Sent => s' == s.(stop := s.stop.(tasks := s.stop.tasks[k := Done], wg := s.stop.wg - 1))
    case _ => false
  }

  ghost predicate Next(s: State, s': State) {
    || StartStep(s, s')
    || SchedulerStep(s, s')
    || (exists k | 0 <= k < |s.work.consumers| :: ConsumerStep(s, k, s'))
    || ContextStep(s, s')
    || StopStep(s, s')
    || (exists k | 0 <= k < |s.stop.tasks| :: TaskStep(s, k, s'))
  }

  // ---------- the invariant ----------

  predicate IsConsuming(pc: ConsumerPc) {
    pc == Consuming
  }

  /** The consumer's Stop call still counts in the stop's wait group. */
  predicate IsPending(pc: TaskPc) {
    pc in {Calling, Sending, Sent}
  }

  /** The consumer's Stop call has not sent its error yet, and may. */
  predicate MaySend(pc: TaskPc) {
    pc in {Unborn, Calling, Sending}
  }

  function SchedulerShare(s: State): int {
    if s.work.launched && !s.work.done then 1 else 0
  }

  /** How many consumers have been launched. */
  function Launched(s: State): nat {
    if s.writer.Some? && s.writer.value.Launching? then s.writer.value.next
    else if s.writer == Some(Ready) || !s.cancelSet then 0
    else |s.work.consumers|
  }

  ghost predicate LifeInv(s: State) {
    && (s.writer.Some? && s.writer.value != Locked ==> s.life == Running && s.stop.pc == NoStop)
    && (s.writer.Some? && s.writer.value in {Claimed, Failing} ==> !s.cancelSet)
    && (s.writer == Some(Ready) ==> s.cancelSet && !s.work.launched)
    && (s.writer.Some? && s.writer.value.Launching? ==>
          s.cancelSet && s.work.launched && s.writer.value.next <= |s.work.consumers|)
    && (s.life == Running && (s.writer == None || s.writer == Some(Locked)) ==> s.cancelSet)
    && (s.life == Idle ==> !s.cancelSet)
    && (s.cancelSet && s.writer != Some(Ready) ==> s.work.launched)
    && (!s.cancelSet ==> !s.work.launched)
    && (s.stop.pc != NoStop <==> s.life in {Stopping, Stopped})
    && (s.life in {Stopping, Stopped} ==> s.cancelSet)
    && (s.life == Stopped <==> s.stop.pc == ReturnedStop)
  }

  ghost predicate WorkInv(s: State) {
    && s.work.wg == SchedulerShare(s) + Count(IsConsuming, s.work.consumers)
    && (forall k | 0 <= k < |s.work.consumers| :: s.work.consumers[k] != NotLaunched <==> k < Launched(s))
    && Scheduler.Inv(s.work.scheduler)
    && (s.work.done ==> s.work.launched && s.work.scheduler.main == Scheduler.Finished)
    && (!s.work.launched ==> s.work.scheduler.main == Scheduler.Idle)
  }

  ghost predicate StopInv(s: State) {
    && |s.stop.tasks| == |s.work.consumers|
    && s.stop.wg == Count(IsPending, s.stop.tasks)
    && s.stop.errors + Count(MaySend, s.stop.tasks) <= |s.stop.tasks|
    && (s.stop.closed <==> s.stop.pc == ReturnedStop)
    && (forall k | 0 <= k < |s.stop.tasks| :: s.stop.tasks[k] == Unborn <==> Born(s) <= k)
    && (s.stop.pc.Spawning? ==> s.stop.pc.next <= |s.stop.tasks|)
    && (s.stop.pc in {ConsumersStopped, Drained, ReturnedStop} ==> s.stop.wg == 0)
    && (s.stop.pc in {Drained, ReturnedStop} ==> s.work.wg == 0)
    && (s.stop.pc !in {NoStop, Won} ==> s.cancelled)
  }

  /** How many of the stop's tasks have been started. */
  function Born(s: State): nat {
    match s.stop.pc
    case NoStop => 0
    case Won => 0
    case Spawning(k) => k
    case _ => |s.stop.tasks|
  }

  ghost predicate Inv(s: State) {
    LifeInv(s) && WorkInv(s) && StopInv(s)
  }

  // ---------- preservation ----------

  lemma StartKeepsLife(s: State, s': State)
    requires LifeInv(s) && StartStep(s, s')
    ensures LifeInv(s')
  {
  }

  lemma LaunchKeepsWork(s: State, k: nat)
    requires LifeInv(s) && WorkInv(s) && s.writer == Some(Launching(k)) && k < |s.work.consumers|
    ensures WorkInv(s.(writer := Some(Launching(k + 1)), work := Launch(s.work, k)))
  {
    CountUpdate(IsConsuming, s.work.consumers, k, Consuming);
    assert s.work.consumers[k] == NotLaunched;
  }

  lemma StartKeepsWork(s: State, s': State)
    requires LifeInv(s) && WorkInv(s) && StartStep(s, s')
    ensures WorkInv(s')
  {
    if s.writer.Some? && s.writer.value.Launching? && s.writer.value.next < |s.work.consumers| {
      LaunchKeepsWork(s, s.writer.value.next);
    } else {
      assert s'.work.consumers == s.work.consumers && Launched(s') == Launched(s);
    }
  }

  lemma StartKeepsStop(s: State, s': State)
    requires LifeInv(s) && StopInv(s) && StartStep(s, s')
    ensures StopInv(s')
  {
    assert s'.stop == s.stop && |s'.work.consumers| == |s.work.consumers|;
  }

  lemma SchedulerPreserves(s: State, s': State)
    requires Inv(s) && SchedulerStep(s, s')
    ensures Inv(s')
  {
    CountZero(IsConsuming, s.work.consumers);
    if Scheduler.Next(s.work.scheduler, s.cancelled, s'.work.scheduler) {
      Scheduler.StepPreserves(s.work.scheduler, s.cancelled, s'.work.scheduler);
    }
  }

  lemma ConsumerPreserves(s: State, k: nat, s': State)
    requires Inv(s) && k < |s.work.consumers| && ConsumerStep(s, k, s')
    ensures Inv(s')
  {
    CountUpdate(IsConsuming, s.work.consumers, k, Ended);
    CountZero(IsConsuming, s.work.consumers);
  }

  lemma ContextPreserves(s: State, s': State)
    requires Inv(s) && ContextStep(s, s')
    ensures Inv(s')
  {
  }

  lemma StopKeepsLife(s: State, s': State)
    requires LifeInv(s) && StopStep(s, s')
    ensures LifeInv(s')
  {
  }

  lemma StopKeepsWork(s: State, s': State)
    requires WorkInv(s) && StopStep(s, s')
    ensures WorkInv(s')
  {
    assert s'.work == s.work;
    assert SchedulerShare(s') == SchedulerShare(s) && Launched(s') == Launched(s);
  }

  lemma SpawnKeepsStop(s: State, k: nat)
    requires StopInv(s) && s.stop.pc == Spawning(k) && k < |s.stop.tasks|
    ensures StopInv(s.(stop := Spawn(s.stop, k)))
  {
    assert s.stop.tasks[k] == Unborn;
    CountUpdate(IsPending, s.stop.tasks, k, Calling);
    CountUpdate(MaySend, s.stop.tasks, k, Calling);
  }

  lemma StopKeepsStop(s: State, s': State)
    requires LifeInv(s) && StopInv(s) && StopStep(s, s')
    ensures StopInv(s')
  {
    if s.stop.pc.Spawning? && s.stop.pc.next < |s.stop.tasks| {
      SpawnKeepsStop(s, s.stop.pc.next);
    } else {
      assert s'.stop.tasks == s.stop.tasks && Born(s') == Born(s);
    }
  }

  lemma TaskPreserves(s: State, k: nat, s': State)
    requires Inv(s) && k < |s.stop.tasks| && TaskStep(s, k, s')
    ensures Inv(s')
  {
    assert s' == s.(stop := s'.stop);
    TaskKeepsStop(s, k, s');
  }

  lemma TaskKeepsStop(s: State, k: nat, s': State)
    requires StopInv(s) && k < |s.stop.tasks| && TaskStep(s, k, s')
    ensures StopInv(s')
  {
    TaskMoves(s, k, s');
    CountUpdate(IsPending, s.stop.tasks, k, s'.stop.tasks[k]);
    CountUpdate(MaySend, s.stop.tasks, k, s'.stop.tasks[k]);
    CountZero(IsPending, s.stop.tasks);
  }

  /** How a step of a consumer's Stop call moves the counters with it. */
  lemma TaskMoves(s: State, k: nat, s': State)
    requires k < |s.stop.tasks| && TaskStep(s, k, s')
    ensures s' == s.(stop := s.stop.(tasks := s'.stop.tasks, wg := s'.stop.wg, errors := s'.stop.errors))
    ensures k < |s'.stop.tasks| && s'.stop.tasks == s.stop.tasks[k := s'.stop.tasks[k]]
    ensures IsPending(s.stop.tasks[k]) && s'.stop.tasks[k] != Unborn
    ensures s'.stop.wg == s.stop.wg - (if IsPending(s'.stop.tasks[k]) then 0 else 1)
    ensures s'.stop.errors - s.stop.errors <=
            (if MaySend(s.stop.tasks[k]) then 1 else 0) - (if MaySend(s'.stop.tasks[k]) then 1 else 0)
  {
  }

  lemma StepPreserves(s: State, s': State)
    requires Inv(s) && Next(s, s')
    ensures Inv(s')
  {
    if StartStep(s, s') {
      StartKeepsLife(s, s');
      StartKeepsWork(s, s');
      StartKeepsStop(s, s');
    } else if SchedulerStep(s, s') {
      SchedulerPreserves(s, s');
    } else if k :| 0 <= k < |s.work.consumers| && ConsumerStep(s, k, s') {
      ConsumerPreserves(s, k, s');
    } else if ContextStep(s, s') {
      ContextPreserves(s, s');
    } else if StopStep(s, s') {
      StopKeepsLife(s, s');
      StopKeepsWork(s, s');
      StopKeepsStop(s, s');
    } else {
      var k :| 0 <= k < |s.stop.tasks| && TaskStep(s, k, s');
      TaskPreserves(s, k, s');
    }
  }

  // ---------- what every run guarantees ----------

  ghost predicate IsRun(run: seq<State>, jobs: seq<Scheduler.Job>, n: nat) {
    && run != [] && Init(run[0], jobs, n)
    && forall i | 0 <= i < |run| - 1 :: Next(run[i], run[i + 1])
  }

  ghost predicate Reachable(s: State) {
    exists run, jobs, n :: IsRun(run, jobs, n) && run[|run| - 1] == s
  }

  lemma InitInv(s: State, jobs: seq<Scheduler.Job>, n: nat)
    requires Init(s, jobs, n)
    ensures Inv(s)
  {
    CountZero(IsConsuming, s.work.consumers);
    CountZero(IsPending, s.stop.tasks);
    CountAll(MaySend, s.stop.tasks);
  }

  lemma {:induction false} RunInv(run: seq<State>, jobs: seq<Scheduler.Job>, n: nat, i: nat)
    requires IsRun(run, jobs, n) && i < |run|
    ensures Inv(run[i])
  {
    if i == 0 {
      InitInv(run[0], jobs, n);
    } else {
      RunInv(run, jobs, n, i - 1);
      assert Next(run[i - 1], run[i - 1 + 1]);
      StepPreserves(run[i - 1], run[i]);
    }
  }

  lemma ReachableInv(s: State)
    requires Reachable(s)
    ensures Inv(s)
  {
    var run, jobs, n :| IsRun(run, jobs, n) && run[|run| - 1] == s;
    RunInv(run, jobs, n, |run| - 1);
  }

  ghost predicate LifeEdge(s: State, s': State) {
    && (s.life, s'.life) in {(Idle, Running), (Running, Stopping), (Stopping, Stopped), (Running, Idle)}
    && (s'.life == Idle ==>
          && s.writer == Some(Failing) && s.work.wg == 0 && !s.cancelSet
          && s.work.scheduler.main == Scheduler.Idle)
  }

  lemma StartEdge(s: State, s': State)
    requires LifeInv(s) && WorkInv(s) && StartStep(s, s')
    ensures s.life == s'.life || LifeEdge(s, s')
  {
    CountZero(IsConsuming, s.work.consumers);
  }

  lemma StopEdge(s: State, s': State)
    requires LifeInv(s) && StopStep(s, s')
    ensures s.life == s'.life || LifeEdge(s, s')
  {
  }

  /** The state word only moves forward, except back to idle inside a Start that has launched
      nothing. */
  lemma LifeMoves(s: State, s': State)
    requires Reachable(s) && Next(s, s')
    ensures s.life == s'.life || LifeEdge(s, s')
  {
    ReachableInv(s);
    if StartStep(s, s') {
      StartEdge(s, s');
    } else if StopStep(s, s') {
      StopEdge(s, s');
    } else if SchedulerStep(s, s') {
      assert s'.life == s.life;
    } else if k :| 0 <= k < |s.work.consumers| && ConsumerStep(s, k, s') {
      assert s'.life == s.life;
    } else if ContextStep(s, s') {
      assert s'.life == s.life;
    } else {
      var k :| 0 <= k < |s.stop.tasks| && TaskStep(s, k, s');
      assert s'.life == s.life;
    }
  }

  /** A Stop that has won finds the cancel function set, and every goroutine launched. */
  lemma StopFindsCancel(s: State)
    requires Reachable(s) && s.stop.pc != NoStop
    ensures s.cancelSet && s.work.launched
    ensures forall k | 0 <= k < |s.work.consumers| :: s.work.consumers[k] != NotLaunched
  {
    ReachableInv(s);
  }

  /** A consumer's stop error always finds room in an open channel. */
  lemma ErrorNeverBlocks(s: State, k: nat)
    requires Reachable(s) && k < |s.stop.tasks| && s.stop.tasks[k] == Sending
    ensures s.stop.errors < |s.work.consumers| && !s.stop.closed
  {
    ReachableInv(s);
    CountZero(MaySend, s.stop.tasks);
    CountZero(IsPending, s.stop.tasks);
  }

  /** When the winning Stop returns, the scheduler, every job execution, every consumer and
      every stop call have ended. */
  lemma StopWaitsForAll(s: State)
    requires Reachable(s) && s.stop.pc == ReturnedStop
    ensures s.life == Stopped && s.work.done
    ensures forall k | 0 <= k < |s.work.consumers| :: s.work.consumers[k] == Ended
    ensures forall k | 0 <= k < |s.stop.tasks| :: s.stop.tasks[k] == Done
    ensures forall a | 0 <= a < |s.work.scheduler.invocations| ::
              s.work.scheduler.invocations[a].phase == Scheduler.Ended
  {
    ReachableInv(s);
    CountZero(IsConsuming, s.work.consumers);
    CountZero(IsPending, s.stop.tasks);
    forall a | 0 <= a < |s.work.scheduler.invocations|
      ensures s.work.scheduler.invocations[a].phase == Scheduler.Ended
    {
      assert Scheduler.InvocationInv(s.work.scheduler, s.work.scheduler.invocations[a]);
    }
  }

  // ---------- the start gets there, and so does the stop ----------

  /** The first n consumers at work, as Start leaves them before it launches the next. */
  function StartedUpTo(scheduler: Scheduler.State, total: nat, n: nat): State {
    State(Running, Some(Launching(n)), true, false,
          Work(n + 1, scheduler, true, false, seq(total, k => if k < n then Consuming else NotLaunched)),
          StopCall(NoStop, seq(total, k => Unborn), 0, 0, false, false))
  }

  /** A Start can leave the scheduler and every consumer at work and nothing stopped. */
  lemma StartLaunchesAll(jobs: seq<Scheduler.Job>, n: nat) returns (s: State)
    ensures Reachable(s) && s.life == Running && s.writer == None && !s.cancelled && s.stop.pc == NoStop
    ensures Scheduler.Init(s.work.scheduler, jobs) && s.work.launched && !s.work.done
    ensures s.work.consumers == seq(n, k => Consuming)
  {
    var scheduler := Scheduler.State(jobs, seq(|jobs|, i => false), 0, [], Scheduler.Idle);
    s := LaunchFirst(scheduler, jobs, n, n);
    s := Extend(s, s.(writer := None));
  }

  lemma {:induction false} LaunchFirst(scheduler: Scheduler.State, jobs: seq<Scheduler.Job>, total: nat, n: nat)
    returns (s: State)
    requires Scheduler.Init(scheduler, jobs) && n <= total
    ensures s == StartedUpTo(scheduler, total, n) && Reachable(s)
  {
    if n == 0 {
      s := BeforeLaunch(scheduler, jobs, total);
      assert s.work.consumers == seq(total, k => NotLaunched);
      s := Extend(s, s.(writer := Some(Launching(0)), work := s.work.(wg := 1, launched := true)));
      assert s.work.consumers == StartedUpTo(scheduler, total, n).work.consumers;
    } else {
      s := LaunchFirst(scheduler, jobs, total, n - 1);
      s := Extend(s, s.(writer := Some(Launching(n)),
                        work := s.work.(wg := n + 1, consumers := s.work.consumers[n - 1 := Consuming])));
      assert s.work.consumers == StartedUpTo(scheduler, total, n).work.consumers;
    }
  }

  /** A Start that has set the cancel function and launched nothing yet. */
  lemma BeforeLaunch(scheduler: Scheduler.State, jobs: seq<Scheduler.Job>, total: nat) returns (s: State)
    requires Scheduler.Init(scheduler, jobs)
    ensures Reachable(s)
    ensures s == State(Running, Some(Ready), true, false,
                       Work(0, scheduler, false, false, seq(total, k => NotLaunched)),
                       StopCall(NoStop, seq(total, k => Unborn), 0, 0, false, false))
  {
    s := State(Idle, None, false, false,
               Work(0, scheduler, false, false, seq(total, k => NotLaunched)),
               StopCall(NoStop, seq(total, k => Unborn), 0, 0, false, false));
    assert IsRun([s], jobs, total) && [s][|[s]| - 1] == s;
    s := Extend(s, s.(writer := Some(Locked)));
    s := Extend(s, s.(life := Running, writer := Some(Claimed)));
    s := Extend(s, s.(writer := Some(Ready), cancelSet := true));
  }

  lemma Extend(s: State, s': State) returns (r: State)
    requires Reachable(s) && StartStep(s, s')
    ensures r == s' && Reachable(r)
  {
    var run, jobs, n :| IsRun(run, jobs, n) && run[|run| - 1] == s;
    var longer := run + [s'];
    assert forall i | 0 <= i < |run| :: longer[i] == run[i];
    assert IsRun(longer, jobs, n) && longer[|longer| - 1] == s';
    r := s';
  }

  /** A step that takes the shutdown further: one of the winning Stop or of a consumer's Stop
      call, or the end of a consumer or of something in the scheduler. */
  ghost predicate GoesOn(s: State, s': State) {
    || (StopStep(s, s') && s'.stop.pc != s.stop.pc)
    || (exists k | 0 <= k < |s.stop.tasks| :: TaskStep(s, k, s'))
    || (exists k | 0 <= k < |s.work.consumers| :: ConsumerStep(s, k, s'))
    || (SchedulerStep(s, s') && !Scheduler.FireStep(s.work.scheduler, s'.work.scheduler))
  }

  /** A Stop that has won never gets stuck, with its deadline or without. */
  lemma StopNeverStuck(s: State) returns (s': State)
    requires Reachable(s) && s.stop.pc !in {NoStop, ReturnedStop}
    ensures GoesOn(s, s')
  {
    ReachableInv(s);
    match s.stop.pc
    case Won => s' := s.(cancelled := true, stop := s.stop.(pc := Spawning(0)));
    case Spawning(k) =>
      s' := if k < |s.stop.tasks| then s.(stop := Spawn(s.stop, k)) else s.(stop := s.stop.(pc := Waiting));
    case Waiting =>
      if s.stop.wg == 0 {
        s' := s.(stop := s.stop.(pc := ConsumersStopped));
      } else {
        s' := TaskGoesOn(s);
      }
    case ConsumersStopped =>
      if s.work.wg == 0 {
        s' := s.(stop := s.stop.(pc := Drained));
      } else {
        s' := WorkGoesOn(s);
      }
    case Drained => s' := s.(stop := s.stop.(pc := ReturnedStop, closed := true), life := Stopped);
  }

  lemma TaskGoesOn(s: State) returns (s': State)
    requires Inv(s) && s.stop.wg > 0 && s.stop.pc != ReturnedStop
    ensures exists k | 0 <= k < |s.stop.tasks| :: TaskStep(s, k, s')
  {
    CountZero(IsPending, s.stop.tasks);
    var k :| 0 <= k < |s.stop.tasks| && IsPending(s.stop.tasks[k]);
    if s.stop.tasks[k] == Sending {
      CountZero(MaySend, s.stop.tasks);
      s' := s.(stop := s.stop.(tasks := s.stop.tasks[k := Sent], errors := s.stop.errors + 1));
    } else if s.stop.tasks[k] == Calling {
      s' := s.(stop := s.stop.(tasks := s.stop.tasks[k := Sent]));
    } else {
      s' := s.(stop := s.stop.(tasks := s.stop.tasks[k := Done], wg := s.stop.wg - 1));
    }
    assert TaskStep(s, k, s');
  }

  lemma WorkGoesOn(s: State) returns (s': State)
    requires Inv(s) && s.work.wg > 0 && s.cancelled && s.stop.pc == ConsumersStopped
    ensures GoesOn(s, s')
  {
    CountZero(IsConsuming, s.work.consumers);
    if k :| 0 <= k < |s.work.consumers| && s.work.consumers[k] == Consuming {
      s' := s.(work := s.work.(consumers := s.work.consumers[k := Ended], wg := s.work.wg - 1));
      assert ConsumerStep(s, k, s');
    } else if s.work.scheduler.main == Scheduler.Finished {
      s' := s.(work := s.work.(done := true, wg := s.work.wg - 1));
    } else {
      var scheduler := Scheduler.StopsWhenCancelled(s.work.scheduler);
      s' := s.(work := s.work.(scheduler := scheduler));
    }
  }
}
