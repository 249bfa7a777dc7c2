/** The job scheduler (pkg/worker/job/scheduler.go): registration, the overlap policies and
    the stop that waits for every execution. cron may fire a schedule at any step between its
    start and its stop, and its stop completes once no fired function is running. */
module Scheduler {
  import opened Counting

  // ---------- registration ----------

  /** The overlap policies are numbered from one; every policy but this one skips. */
  const OVERLAP_ALLOW := 2

  datatype Job = Job(name: string, schedule: string, policy: int)

  datatype RegisterError = Registered | AlreadyStarted | InvalidSchedule

  class JobList {
    var started: bool
    var jobs: seq<Job>

    constructor ()
      ensures !started && jobs == []
    {
      started, jobs := false, [];
    }

    method Register(job: Job, valid: string -> bool) returns (r: RegisterError)
      modifies this
      ensures started == old(started)
      ensures r == (if started then AlreadyStarted else if valid(job.schedule) then Registered else InvalidSchedule)
      ensures jobs == if r == Registered then old(jobs) + [job] else old(jobs)
    {
      if started {
        return AlreadyStarted;
      }
      if !valid(job.schedule) {
        return InvalidSchedule;
      }
      jobs := jobs + [job];
      return Registered;
    }

    /** The section of Start under the mutex: a snapshot no later Register can change. */
    method Snapshot() returns (copy: seq<Job>)
      modifies this
      ensures started && jobs == old(jobs) && copy == jobs
    {
      started := true;
      copy := jobs;
    }
  }

  /** The per-job flag. */
  class AtomicBool {
    var value: bool

    constructor ()
      ensures !value
    {
      value := false;
    }

    method CompareAndSwap(from: bool, to: bool) returns (swapped: bool)
      modifies this
      ensures (value, swapped) == Swap(old(value), from, to)
    {
      swapped := value == from;
      if swapped {
        value := to;
      }
    }

    method Store(v: bool)
      modifies this
      ensures value == v
    {
      value := v;
    }
  }

  /** The function cron calls for a job that does not allow overlap: it runs the job exactly if
      the flag was free, and leaves the flag as it was. */
  method FireExclusive(inFlight: AtomicBool) returns (executed: bool)
    modifies inFlight
    ensures executed == !old(inFlight.value)
    ensures inFlight.value == old(inFlight.value)
  {
    var swapped := inFlight.CompareAndSwap(false, true);
    if !swapped {
      return false;
    }
    executed := true;
    inFlight.Store(false);
  }

  function Swap<T(==)>(value: T, from: T, to: T): (r: (T, bool))
    ensures r.1 ==> value == from && r.0 == to
    ensures !r.1 ==> value != from && r.0 == value
  {
    if value == from then (to, true) else (value, false)
  }

  // ---------- the protocol ----------

  datatype Phase =
    | Fired       // cron has called the function
    | Running     // executeJob inside the cron function, flag taken
    | Clearing    // executeJob done, flag not yet cleared
    | Detached    // executeJob in a goroutine of the allow wait group
    | Ended

  datatype Invocation = Invocation(job: nat, phase: Phase)

  /** The goroutine inside Scheduler.Start. */
  datatype MainPc = Idle | CronOn | CronStopped | CronDrained | Finished

  datatype State = State(
    jobs: seq<Job>,
    inFlight: seq<bool>,
    allowWg: int,
    invocations: seq<Invocation>,
    main: MainPc)

  predicate Allows(job: Job) {
    job.policy == OVERLAP_ALLOW
  }

  ghost predicate Init(s: State, jobs: seq<Job>) {
    s == State(jobs, seq(|jobs|, i => false), 0, [], Idle)
  }

  predicate InCron(v: Invocation) {
    v.phase in {Fired, Running, Clearing}
  }

  predicate IsDetached(v: Invocation) {
    v.phase == Detached
  }

  ghost predicate MainStep(s: State, cancelled: bool, s': State) {
    || (s.main == Idle && s' == s.(main := CronOn))
    || (s.main == CronOn && cancelled && s' == s.(main := CronStopped))
    || (s.main == CronStopped && (forall i | 0 <= i < |s.invocations| :: !InCron(s.invocations[i]))
        && s' == s.(main := CronDrained))
    || (s.main == CronDrained && s.allowWg == 0 && s' == s.(main := Finished))
  }

  /** A schedule fires; a job whose AddFunc failed simply never does. */
  ghost predicate FireStep(s: State, s': State) {
    && s.main == CronOn
    && exists job | 0 <= job < |s.jobs| ::
         s' == s.(invocations := s.invocations + [Invocation(job, Fired)])
  }

  ghost predicate InvocationStep(s: State, i: nat, s': State)
    requires i < |s.invocations| && |s.inFlight| == |s.jobs|
  {
    var v := s.invocations[i];
    && v.job < |s.jobs|
    && match v.phase
       case Fired =>
         if Allows(s.jobs[v.job]) then
           s' == s.(allowWg := s.allowWg + 1, invocations := s.invocations[i := v.(phase := Detached)])
         else
           var (flag, swapped) := Swap(s.inFlight[v.job], false, true);
           s' == s.(inFlight := s.inFlight[v.job := flag],
                    invocations := s.invocations[i := v.(phase := if swapped then Running else Ended)])
       case Running => s' == s.(invocations := s.invocations[i := v.(phase := Clearing)])
       case Clearing =>
         s' == s.(inFlight := s.inFlight[v.job := false], invocations := s.invocations[i := v.(phase := Ended)])
       case Detached =>
         s' == s.(allowWg := s.allowWg - 1, invocations := s.invocations[i := v.(phase := Ended)])
       case Ended => false
  }

  ghost predicate Next(s: State, cancelled: bool, s': State) {
    || MainStep(s, cancelled, s')
    || FireStep(s, s')
    || (|s.inFlight| == |s.jobs|
        && exists i | 0 <= i < |s.invocations| :: InvocationStep(s, i, s'))
  }

  // ---------- the invariant ----------

  predicate HoldsFlag(v: Invocation) {
    v.phase in {Running, Clearing}
  }

  ghost predicate InvocationInv(s: State, v: Invocation)
    requires |s.inFlight| == |s.jobs|
  {
    && v.job < |s.jobs|
    && (HoldsFlag(v) ==> !Allows(s.jobs[v.job]) && s.inFlight[v.job])
    && (IsDetached(v) ==> Allows(s.jobs[v.job]))
    && (s.main == CronDrained ==> !InCron(v))
    && (s.main == Finished ==> v.phase == Ended)
  }

  /** The flag of a job is taken exactly while one invocation of it holds it. */
  ghost predicate Held(s: State, job: nat) {
    exists i | 0 <= i < |s.invocations| :: s.invocations[i].job == job && HoldsFlag(s.invocations[i])
  }

  ghost predicate Inv(s: State) {
    && |s.inFlight| == |s.jobs|
    && (forall i | 0 <= i < |s.invocations| :: InvocationInv(s, s.invocations[i]))
    && (forall i, k | 0 <= i < k < |s.invocations| && HoldsFlag(s.invocations[i]) && HoldsFlag(s.invocations[k]) ::
          s.invocations[i].job != s.invocations[k].job)
    && (forall job | 0 <= job < |s.jobs| && s.inFlight[job] :: Held(s, job))
    && s.allowWg == Count(IsDetached, s.invocations)
    && (s.main == Idle ==> s.invocations == [])
  }

  lemma MainPreserves(s: State, cancelled: bool, s': State)
    requires Inv(s) && MainStep(s, cancelled, s')
    ensures Inv(s')
  {
    CountZero(IsDetached, s.invocations);
    forall i | 0 <= i < |s'.invocations|
      ensures InvocationInv(s', s'.invocations[i])
    {
      assert InvocationInv(s, s.invocations[i]);
    }
    HeldStable(s, s');
  }

  lemma HeldStable(s: State, s': State)
    requires |s.invocations| <= |s'.invocations|
    requires forall i | 0 <= i < |s.invocations| && HoldsFlag(s.invocations[i]) ::
               s'.invocations[i].job == s.invocations[i].job && HoldsFlag(s'.invocations[i])
    ensures forall job :: Held(s, job) ==> Held(s', job)
  {
    forall job | Held(s, job)
      ensures Held(s', job)
    {
      var i :| 0 <= i < |s.invocations| && s.invocations[i].job == job && HoldsFlag(s.invocations[i]);
      assert HoldsFlag(s'.invocations[i]);
    }
  }

  lemma FirePreserves(s: State, s': State)
    requires Inv(s) && FireStep(s, s')
    ensures Inv(s')
  {
    var fired := s'.invocations[|s.invocations|];
    assert fired.phase == Fired && fired.job < |s.jobs|;
    CountAppend(IsDetached, s.invocations, fired);
    HeldStable(s, s');
    forall i | 0 <= i < |s'.invocations|
      ensures InvocationInv(s', s'.invocations[i])
    {
      if i < |s.invocations| {
        assert s'.invocations[i] == s.invocations[i] && InvocationInv(s, s.invocations[i]);
      }
    }
  }

  lemma FlagsPreserved(s: State, i: nat, s': State)
    requires Inv(s) && i < |s.invocations| && InvocationStep(s, i, s')
    ensures forall job | 0 <= job < |s'.jobs| && s'.inFlight[job] :: Held(s', job)
  {
    var v, v' := s.invocations[i], s'.invocations[i];
    forall job | 0 <= job < |s'.jobs| && s'.inFlight[job]
      ensures Held(s', job)
    {
      if job == v.job && HoldsFlag(v') {
        assert s'.invocations[i].job == job;
      } else {
        var k :| 0 <= k < |s.invocations| && s.invocations[k].job == job && HoldsFlag(s.invocations[k]);
        assert s'.invocations[k].job == job && HoldsFlag(s'.invocations[k]);
      }
    }
  }

  /** What a step of an invocation does to it and to the counter. */
  lemma InvocationMoves(s: State, i: nat, s': State)
    requires Inv(s) && i < |s.invocations| && InvocationStep(s, i, s')
    ensures |s'.invocations| == |s.invocations| && s'.invocations == s.invocations[i := s'.invocations[i]]
    ensures s'.jobs == s.jobs && s'.main == s.main && |s'.inFlight| == |s.inFlight|
    ensures InvocationInv(s', s'.invocations[i]) && s'.invocations[i].job == s.invocations[i].job
    ensures s'.allowWg - s.allowWg ==
            (if IsDetached(s'.invocations[i]) then 1 else 0) - (if IsDetached(s.invocations[i]) then 1 else 0)
    ensures HoldsFlag(s'.invocations[i]) ==>
              HoldsFlag(s.invocations[i]) || !s.inFlight[s.invocations[i].job]
    ensures forall job | 0 <= job < |s.jobs| && s.inFlight[job] && !s'.inFlight[job] ::
              job == s.invocations[i].job && HoldsFlag(s.invocations[i])
  {
    assert InvocationInv(s, s.invocations[i]);
  }

  lemma OthersPreserved(s: State, i: nat, s': State)
    requires Inv(s) && i < |s.invocations| && InvocationStep(s, i, s')
    ensures |s'.inFlight| == |s'.jobs|
    ensures forall k | 0 <= k < |s'.invocations| :: InvocationInv(s', s'.invocations[k])
    ensures forall a, b |
              && 0 <= a < b < |s'.invocations|
              && HoldsFlag(s'.invocations[a]) && HoldsFlag(s'.invocations[b]) ::
              s'.invocations[a].job != s'.invocations[b].job
  {
    InvocationMoves(s, i, s');
    forall k | 0 <= k < |s'.invocations|
      ensures InvocationInv(s', s'.invocations[k])
    {
      assert InvocationInv(s, s.invocations[k]);
    }
  }

  lemma InvocationPreserves(s: State, i: nat, s': State)
    requires Inv(s) && i < |s.invocations| && InvocationStep(s, i, s')
    ensures Inv(s')
  {
    InvocationMoves(s, i, s');
    OthersPreserved(s, i, s');
    CountUpdate(IsDetached, s.invocations, i, s'.invocations[i]);
    FlagsPreserved(s, i, s');
  }

  lemma StepPreserves(s: State, cancelled: bool, s': State)
    requires Inv(s) && Next(s, cancelled, s')
    ensures Inv(s') && s'.jobs == s.jobs
  {
    if MainStep(s, cancelled, s') {
      MainPreserves(s, cancelled, s');
    } else if FireStep(s, s') {
      FirePreserves(s, s');
    } else {
      var i :| 0 <= i < |s.invocations| && InvocationStep(s, i, s');
      InvocationPreserves(s, i, s');
    }
  }

  /** Once the context has ended, Start goes on until it returns. */
  lemma StopsWhenCancelled(s: State) returns (s': State)
    requires Inv(s) && s.main != Finished
    ensures Next(s, true, s') && !FireStep(s, s')
  {
    match s.main
    case Idle => s' := s.(main := CronOn);
    case CronOn => s' := s.(main := CronStopped);
    case CronStopped =>
      if i :| 0 <= i < |s.invocations| && InCron(s.invocations[i]) {
        s' := InvocationGoesOn(s, i);
      } else {
        s' := s.(main := CronDrained);
      }
    case CronDrained =>
      CountZero(IsDetached, s.invocations);
      if i :| 0 <= i < |s.invocations| && IsDetached(s.invocations[i]) {
        s' := InvocationGoesOn(s, i);
      } else {
        s' := s.(main := Finished);
      }
  }

  lemma InvocationGoesOn(s: State, i: nat) returns (s': State)
    requires Inv(s) && i < |s.invocations| && s.invocations[i].phase != Ended
    ensures InvocationStep(s, i, s')
  {
    var v := s.invocations[i];
    assert InvocationInv(s, v);
    match v.phase
    case Fired =>
      if Allows(s.jobs[v.job]) {
        s' := s.(allowWg := s.allowWg + 1, invocations := s.invocations[i := v.(phase := Detached)]);
      } else {
        var (flag, swapped) := Swap(s.inFlight[v.job], false, true);
        s' := s.(inFlight := s.inFlight[v.job := flag],
                 invocations := s.invocations[i := v.(phase := if swapped then Running else Ended)]);
      }
    case Running => s' := s.(invocations := s.invocations[i := v.(phase := Clearing)]);
    case Clearing =>
      s' := s.(inFlight := s.inFlight[v.job := false], invocations := s.invocations[i := v.(phase := Ended)]);
    case Detached =>
      s' := s.(allowWg := s.allowWg - 1, invocations := s.invocations[i := v.(phase := Ended)]);
  }

  // ---------- what every run guarantees ----------

  /** A run from the launch of Start, with the context ended from some point on. */
  ghost predicate IsRun(run: seq<State>, jobs: seq<Job>, cancelled: nat -> bool) {
    && run != [] && Init(run[0], jobs)
    && forall i | 0 <= i < |run| - 1 :: Next(run[i], cancelled(i), run[i + 1])
  }

  lemma {:induction false} RunInv(run: seq<State>, jobs: seq<Job>, cancelled: nat -> bool, i: nat)
    requires IsRun(run, jobs, cancelled) && i < |run|
    ensures Inv(run[i]) && run[i].jobs == jobs
  {
    if i > 0 {
      RunInv(run, jobs, cancelled, i - 1);
      assert Next(run[i - 1], cancelled(i - 1), run[i - 1 + 1]);
      StepPreserves(run[i - 1], cancelled(i - 1), run[i]);
    }
  }

  /** A job that does not allow overlap has at most one execution in flight, and its flag is
      taken exactly while an invocation holds it, so it never stays taken. */
  lemma NoOverlap(run: seq<State>, jobs: seq<Job>, cancelled: nat -> bool, i: nat, job: nat)
    requires IsRun(run, jobs, cancelled) && i < |run| && job < |jobs| && jobs[job].policy != 2
    ensures forall a, b | 0 <= a < b < |run[i].invocations| ::
              !(&& run[i].invocations[a].job == run[i].invocations[b].job == job
                && run[i].invocations[a].phase in {Running, Detached}
                && run[i].invocations[b].phase in {Running, Detached})
    ensures job < |run[i].inFlight| && (run[i].inFlight[job] <==> Held(run[i], job))
  {
    RunInv(run, jobs, cancelled, i);
    var s := run[i];
    assert forall a | 0 <= a < |s.invocations| :: InvocationInv(s, s.invocations[a]);
  }

  /** What a fired function does next: with overlap allowed it starts the job, and otherwise
      it skips it exactly if another invocation of the job still holds the flag. */
  lemma FiredDecides(run: seq<State>, jobs: seq<Job>, cancelled: nat -> bool, i: nat, a: nat)
    requires IsRun(run, jobs, cancelled) && i + 1 < |run| && a < |run[i].invocations|
    requires run[i].invocations[a].phase == Fired
    ensures a < |run[i + 1].invocations| && run[i].invocations[a].job < |jobs|
    ensures var before, job, phase := run[i].invocations, run[i].invocations[a].job, run[i + 1].invocations[a].phase;
            phase != Fired ==>
              phase == if jobs[job].policy == 2 then Detached
                       else if exists b | 0 <= b < |before| ::
                                 before[b].job == job && before[b].phase in {Running, Clearing}
                            then Ended else Running
  {
    RunInv(run, jobs, cancelled, i);
    var s, s' := run[i], run[i + 1];
    assert Next(s, cancelled(i), s') && InvocationInv(s, s.invocations[a]);
    if !MainStep(s, cancelled(i), s') && !FireStep(s, s') {
      var k :| 0 <= k < |s.invocations| && InvocationStep(s, k, s');
      InvocationMoves(s, k, s');
      if k == a {
        FlagHeld(s, s.invocations[a].job);
      }
    }
  }

  lemma FlagHeld(s: State, job: nat)
    requires Inv(s) && job < |s.jobs|
    ensures s.inFlight[job] <==> exists b | 0 <= b < |s.invocations| ::
              s.invocations[b].job == job && s.invocations[b].phase in {Running, Clearing}
  {
    if b :| 0 <= b < |s.invocations| && s.invocations[b].job == job && HoldsFlag(s.invocations[b]) {
      assert InvocationInv(s, s.invocations[b]);
    }
    if s.inFlight[job] {
      assert Held(s, job);
    }
  }

  /** A job that allows overlap can have any number of executions in flight. */
  lemma {:induction false} OverlapAllowed(jobs: seq<Job>, job: nat, n: nat) returns (run: seq<State>)
    requires job < |jobs| && jobs[job].policy == 2
    ensures IsRun(run, jobs, _ => false) && run[|run| - 1].main == CronOn
    ensures run[|run| - 1].invocations == seq(n, _ => Invocation(job, Detached))
  {
    if n == 0 {
      var s := State(jobs, seq(|jobs|, i => false), 0, [], Idle);
      run := Extend([s], jobs, s.(main := CronOn));
    } else {
      run := OverlapAllowed(jobs, job, n - 1);
      RunInv(run, jobs, _ => false, |run| - 1);
      var s := run[|run| - 1];
      var fired := s.(invocations := s.invocations + [Invocation(job, Fired)]);
      run := Extend(run, jobs, fired);
      var detached := fired.(allowWg := s.allowWg + 1, invocations := s.invocations + [Invocation(job, Detached)]);
      assert detached.invocations == fired.invocations[n - 1 := Invocation(job, Detached)];
      assert InvocationStep(fired, n - 1, detached);
      run := Extend(run, jobs, detached);
    }
  }

  lemma Extend(run: seq<State>, jobs: seq<Job>, s': State) returns (longer: seq<State>)
    requires IsRun(run, jobs, _ => false) && Next(run[|run| - 1], false, s')
    ensures longer == run + [s'] && IsRun(longer, jobs, _ => false)
  {
    longer := run + [s'];
    assert forall i | 0 <= i < |run| :: longer[i] == run[i];
  }

  /** When Start returns, every execution has ended, detached ones included. */
  lemma FinishedMeansEnded(run: seq<State>, jobs: seq<Job>, cancelled: nat -> bool, i: nat, a: nat)
    requires IsRun(run, jobs, cancelled) && i < |run| && run[i].main == Finished && a < |run[i].invocations|
    ensures run[i].invocations[a].phase == Ended && run[i].allowWg == 0
  {
    RunInv(run, jobs, cancelled, i);
    var s := run[i];
    assert forall k | 0 <= k < |s.invocations| :: InvocationInv(s, s.invocations[k]);
    CountZero(IsDetached, s.invocations);
  }
}
