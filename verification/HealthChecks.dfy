/** The concurrent health checks behind one semaphore (pkg/http_server/common/health.go).

    A check may take any number of steps and end with or without an error; the shared context
    may end at any step. */
module HealthChecks {
  import opened Counting
  import opened Options

  datatype CheckResult = Healthy | Unhealthy(error: string)

  const TIMEOUT := Unhealthy("timeout")

  // ---------- the object ----------

  /** The shared results, behind the mutex. */
  class Results {
    var results: map<string, CheckResult>
    var hasErrors: bool

    constructor ()
      ensures results == map[] && !hasErrors
    {
      results, hasErrors := map[], false;
    }

    method Record(name: string, result: CheckResult)
      modifies this
      ensures results == old(results)[name := result]
      ensures hasErrors <==> old(hasErrors) || result != Healthy
      ensures (results, hasErrors) == Recorded(old(results), old(hasErrors), name, result)
    {
      results := results[name := result];
      if result.Unhealthy? {
        hasErrors := true;
      }
    }
  }

  function Recorded(results: map<string, CheckResult>, hasErrors: bool, name: string, result: CheckResult):
    (map<string, CheckResult>, bool)
  {
    (results[name := result], hasErrors || result.Unhealthy?)
  }

  /** How a check that ended with that error is reported. */
  function ResultOf(error: Option<string>): CheckResult {
    match error
    case None => Healthy
    case Some(text) => Unhealthy(text)
  }

  // ---------- the protocol ----------

  datatype Pc =
    | NotLaunched
    | Waiting                          // for a slot or the end of the context
    | Running                          // inside the check function, holding a slot
    | Judged(error: Option<string>)    // the function has returned
    | Written(result: CheckResult)     // result stored, slot still held
    | GaveUp                           // the context ended first
    | Leaving(result: CheckResult)     // result stored, no slot
    | Ended(result: CheckResult)

  datatype State = State(
    names: seq<string>,
    slots: nat,
    pcs: seq<Pc>,
    taken: int,
    wg: int,
    results: map<string, CheckResult>,
    hasErrors: bool,
    cancelled: bool)

  /** The checks come as a map, so their names differ. */
  ghost predicate Init(s: State) {
    && (forall i, k | 0 <= i < k < |s.names| :: s.names[i] != s.names[k])
    && s == State(s.names, s.slots, seq(|s.names|, i => NotLaunched), 0, 0, map[], false, false)
  }

  predicate HoldsSlot(pc: Pc) {
    pc.Running? || pc.Judged? || pc.Written?
  }

  predicate InGroup(pc: Pc) {
    !pc.NotLaunched? && !pc.Ended?
  }

  ghost predicate CheckStep(s: State, k: nat, s': State)
    requires k < |s.pcs| == |s.names|
  {
    match s.pcs[k]
    case NotLaunched => s' == s.(pcs := s.pcs[k := Waiting], wg := s.wg + 1)
    case Waiting =>
      || (s.taken < s.slots && s' == s.(pcs := s.pcs[k := Running], taken := s.taken + 1))
      || (s.cancelled && s' == s.(pcs := s.pcs[k := GaveUp]))
    case Running => exists error :: s' == s.(pcs := s.pcs[k := Judged(error)])
    case Judged(error) =>
      var result := ResultOf(error);
      var (results, hasErrors) := Recorded(s.results, s.hasErrors, s.names[k], result);
      s' == s.(pcs := s.pcs[k := Written(result)], results := results, hasErrors := hasErrors)
    case Written(result) => s' == s.(pcs := s.pcs[k := Leaving(result)], taken := s.taken - 1)
    case GaveUp =>
      var (results, hasErrors) := Recorded(s.results, s.hasErrors, s.names[k], TIMEOUT);
      s' == s.(pcs := s.pcs[k := Leaving(TIMEOUT)], results := results, hasErrors := hasErrors)
    case Leaving(result) => s' == s.(pcs := s.pcs[k := Ended(result)], wg := s.wg - 1)
    case Ended(_) => false
  }

  ghost predicate Next(s: State, s': State) {
    || s' == s.(cancelled := true)
    || (|s.pcs| == |s.names| && exists k | 0 <= k < |s.pcs| :: CheckStep(s, k, s'))
  }

  /** wg.Wait after the launching loop has ended. */
  ghost predicate MayReturn(s: State) {
    s.wg == 0 && forall k | 0 <= k < |s.pcs| :: !s.pcs[k].NotLaunched?
  }

  // ---------- the invariant ----------

  predicate HasResult(pc: Pc) {
    pc.Written? || pc.Leaving? || pc.Ended?
  }

  ghost predicate Inv(s: State) {
    && |s.pcs| == |s.names|
    && (forall i, k | 0 <= i < k < |s.names| :: s.names[i] != s.names[k])
    && s.taken == Count(HoldsSlot, s.pcs) <= s.slots
    && s.wg == Count(InGroup, s.pcs)
    && (forall k | 0 <= k < |s.pcs| ::
          if HasResult(s.pcs[k]) then s.names[k] in s.results && s.results[s.names[k]] == s.pcs[k].result
          else s.names[k] !in s.results)
    && (forall name | name in s.results :: name in s.names)
    && (s.hasErrors <==> exists name | name in s.results :: s.results[name].Unhealthy?)
    && (forall k | 0 <= k < |s.pcs| && s.pcs[k].GaveUp? :: s.cancelled)
  }

  lemma CheckPreserves(s: State, k: nat, s': State)
    requires Inv(s) && k < |s.pcs| && CheckStep(s, k, s')
    ensures Inv(s') && s'.names == s.names
  {
    CountsPreserved(s, k, s');
    if s.pcs[k].Judged? || s.pcs[k].GaveUp? {
      RecordPreserves(s, k, s');
    } else {
      QuietPreserves(s, k, s');
    }
  }

  /** A step that stores no result. */
  lemma QuietPreserves(s: State, k: nat, s': State)
    requires Inv(s) && k < |s.pcs| && CheckStep(s, k, s') && !s.pcs[k].Judged? && !s.pcs[k].GaveUp?
    requires s'.taken == Count(HoldsSlot, s'.pcs) <= s'.slots && s'.wg == Count(InGroup, s'.pcs)
    ensures Inv(s')
  {
    QuietFrame(s, k, s');
  }

  lemma QuietFrame(s: State, k: nat, s': State)
    requires k < |s.pcs| == |s.names| && CheckStep(s, k, s') && !s.pcs[k].Judged? && !s.pcs[k].GaveUp?
    ensures k < |s'.pcs| && s' == s.(pcs := s.pcs[k := s'.pcs[k]], taken := s'.taken, wg := s'.wg)
    ensures HasResult(s'.pcs[k]) <==> HasResult(s.pcs[k])
    ensures HasResult(s.pcs[k]) ==> s'.pcs[k].result == s.pcs[k].result
  {
  }

  lemma CountsPreserved(s: State, k: nat, s': State)
    requires Inv(s) && k < |s.pcs| && CheckStep(s, k, s')
    ensures s'.taken == Count(HoldsSlot, s'.pcs) <= s'.slots && s'.wg == Count(InGroup, s'.pcs)
  {
    PcMoves(s, k, s');
    CountUpdate(HoldsSlot, s.pcs, k, s'.pcs[k]);
    CountUpdate(InGroup, s.pcs, k, s'.pcs[k]);
  }

  /** How a step moves the two counters with the check's position. */
  lemma PcMoves(s: State, k: nat, s': State)
    requires k < |s.pcs| == |s.names| && CheckStep(s, k, s')
    ensures k < |s'.pcs| && s'.pcs == s.pcs[k := s'.pcs[k]] && s'.slots == s.slots
    ensures s'.taken - s.taken == (if HoldsSlot(s'.pcs[k]) then 1 else 0) - (if HoldsSlot(s.pcs[k]) then 1 else 0)
    ensures s'.taken > s.taken ==> s.taken < s.slots
    ensures s'.wg - s.wg == (if InGroup(s'.pcs[k]) then 1 else 0) - (if InGroup(s.pcs[k]) then 1 else 0)
  {
  }

  lemma RecordPreserves(s: State, k: nat, s': State)
    requires Inv(s) && k < |s.pcs| && CheckStep(s, k, s') && (s.pcs[k].Judged? || s.pcs[k].GaveUp?)
    requires s'.taken == Count(HoldsSlot, s'.pcs) <= s'.slots && s'.wg == Count(InGroup, s'.pcs)
    ensures Inv(s')
  {
    var result := s'.results[s.names[k]];
    assert s'.results == s.results[s.names[k] := result];
    ErrorsPreserved(s.results, s.hasErrors, s.names[k], result);
  }

  lemma ErrorsPreserved(results: map<string, CheckResult>, hasErrors: bool, name: string, result: CheckResult)
    requires hasErrors <==> exists n | n in results :: results[n].Unhealthy?
    requires name !in results
    ensures var (results', hasErrors') := Recorded(results, hasErrors, name, result);
            hasErrors' <==> exists n | n in results' :: results'[n].Unhealthy?
  {
    var results' := results[name := result];
    assert name in results';
    if n :| n in results && results[n].Unhealthy? {
      assert results'[n].Unhealthy?;
    }
  }

  lemma StepPreserves(s: State, s': State)
    requires Inv(s) && Next(s, s')
    ensures Inv(s') && s'.names == s.names
  {
    if s' != s.(cancelled := true) {
      var k :| 0 <= k < |s.pcs| && CheckStep(s, k, s');
      CheckPreserves(s, k, s');
    }
  }

  // ---------- what every run guarantees ----------

  ghost predicate IsRun(run: seq<State>) {
    && run != [] && Init(run[0])
    && forall i | 0 <= i < |run| - 1 :: Next(run[i], run[i + 1])
  }

  ghost predicate Reachable(s: State) {
    exists run :: IsRun(run) && run[|run| - 1] == s
  }

  lemma {:induction false} RunInv(run: seq<State>, i: nat)
    requires IsRun(run) && i < |run|
    ensures Inv(run[i]) && run[i].names == run[0].names
  {
    if i == 0 {
      CountZero(HoldsSlot, run[0].pcs);
      CountZero(InGroup, run[0].pcs);
    } else {
      RunInv(run, i - 1);
      assert Next(run[i - 1], run[i - 1 + 1]);
      StepPreserves(run[i - 1], run[i]);
    }
  }

  lemma ReachableInv(s: State)
    requires Reachable(s)
    ensures Inv(s)
  {
    var run :| IsRun(run) && run[|run| - 1] == s;
    RunInv(run, |run| - 1);
  }

  predicate IsRunning(pc: Pc) {
    pc.Running?
  }

  lemma {:induction false} RunningHold(pcs: seq<Pc>)
    ensures Count(IsRunning, pcs) <= Count(HoldsSlot, pcs)
  {
    if pcs != [] {
      RunningHold(pcs[..|pcs| - 1]);
    }
  }

  /** No more check functions run at once than there are slots. */
  lemma BoundedConcurrency(s: State)
    requires Reachable(s)
    ensures Count(IsRunning, s.pcs) <= s.slots
  {
    ReachableInv(s);
    RunningHold(s.pcs);
  }

  /** The first n checks running and the others not launched. */
  function RunningFirst(names: seq<string>, slots: nat, n: nat): (s: State) {
    State(names, slots, seq(|names|, k => if k < n then Running else NotLaunched), n, n, map[], false, false)
  }

  /** And as many can run at once as there are slots and checks. */
  lemma {:induction false} SlotsUsed(names: seq<string>, slots: nat, n: nat) returns (s: State)
    requires forall i, k | 0 <= i < k < |names| :: names[i] != names[k]
    requires n <= slots && n <= |names|
    ensures s == RunningFirst(names, slots, n) && Reachable(s) && Count(IsRunning, s.pcs) == n
  {
    s := RunningFirst(names, slots, n);
    if n == 0 {
      CountZero(IsRunning, s.pcs);
      assert s.pcs == seq(|names|, k => NotLaunched);
      assert IsRun([s]) && [s][|[s]| - 1] == s;
    } else {
      var before := SlotsUsed(names, slots, n - 1);
      var waiting := before.(pcs := before.pcs[n - 1 := Waiting], wg := n);
      Extend(before, n - 1, waiting);
      assert s.pcs == waiting.pcs[n - 1 := Running];
      Extend(waiting, n - 1, s);
      assert s.pcs == before.pcs[n - 1 := Running];
      CountUpdate(IsRunning, before.pcs, n - 1, Running);
    }
  }

  lemma Extend(s: State, k: nat, s': State)
    requires Reachable(s) && k < |s.pcs| == |s.names| && CheckStep(s, k, s')
    ensures Reachable(s')
  {
    var run :| IsRun(run) && run[|run| - 1] == s;
    var longer := run + [s'];
    assert forall i | 0 <= i < |run| :: longer[i] == run[i];
    assert IsRun(longer) && longer[|longer| - 1] == s';
  }

  /** When the call returns, every check has one result, under its own name, and there are
      errors exactly when some result is unhealthy. */
  lemma ResultsComplete(s: State)
    requires Reachable(s) && MayReturn(s)
    ensures s.results.Keys == set name | name in s.names
    ensures |s.pcs| == |s.names|
    ensures forall k | 0 <= k < |s.names| ::
              s.pcs[k].Ended? && s.names[k] in s.results && s.results[s.names[k]] == s.pcs[k].result
    ensures s.hasErrors <==> exists k | 0 <= k < |s.names| :: s.pcs[k] != Ended(Healthy)
  {
    ReachableInv(s);
    CountZero(InGroup, s.pcs);
    if s.hasErrors {
      var name :| name in s.results && s.results[name].Unhealthy?;
      var k :| 0 <= k < |s.names| && s.names[k] == name;
      assert s.pcs[k] != Ended(Healthy);
    }
    if k :| 0 <= k < |s.names| && s.pcs[k] != Ended(Healthy) {
      assert s.results[s.names[k]].Unhealthy?;
    }
  }

  // ---------- where a result comes from ----------

  /** The result a check is going to have, once that is settled. */
  function Settled(pc: Pc): Option<CheckResult> {
    match pc
    case GaveUp => Some(TIMEOUT)
    case Judged(error) => Some(ResultOf(error))
    case Written(result) => Some(result)
    case Leaving(result) => Some(result)
    case Ended(result) => Some(result)
    case _ => None
  }

  lemma {:induction false} SettledStays(run: seq<State>, i: nat, j: nat, k: nat)
    requires IsRun(run) && i <= j < |run| && k < |run[i].pcs|
    ensures |run[j].pcs| == |run[i].pcs| && run[j].names == run[i].names
    ensures Settled(run[i].pcs[k]).Some? ==> Settled(run[j].pcs[k]) == Settled(run[i].pcs[k])
  {
    if i < j {
      SettledStays(run, i, j - 1, k);
      SettledStep(run, j - 1, k);
    }
  }

  lemma SettledStep(run: seq<State>, i: nat, k: nat)
    requires IsRun(run) && i + 1 < |run| && k < |run[i].pcs|
    ensures |run[i + 1].pcs| == |run[i].pcs| && run[i + 1].names == run[i].names
    ensures Settled(run[i].pcs[k]).Some? ==> Settled(run[i + 1].pcs[k]) == Settled(run[i].pcs[k])
    ensures Settled(run[i].pcs[k]).None? && Settled(run[i + 1].pcs[k]).Some? ==>
              run[i + 1].pcs[k].GaveUp? || run[i + 1].pcs[k].Judged?
  {
    var s, s' := run[i], run[i + 1];
    assert Next(s, s');
    if s' != s.(cancelled := true) {
      var c :| 0 <= c < |s.pcs| && CheckStep(s, c, s');
      CheckSettles(s, c, s');
    }
  }

  lemma CheckSettles(s: State, c: nat, s': State)
    requires c < |s.pcs| == |s.names| && CheckStep(s, c, s')
    ensures s'.names == s.names && c < |s'.pcs| && s'.pcs == s.pcs[c := s'.pcs[c]]
    ensures Settled(s.pcs[c]).Some? ==> Settled(s'.pcs[c]) == Settled(s.pcs[c])
    ensures Settled(s.pcs[c]).None? && Settled(s'.pcs[c]).Some? ==> s'.pcs[c].GaveUp? || s'.pcs[c].Judged?
  {
  }

  /** A check that gave up is reported unhealthy with the text "timeout", and one that was run
      as its function ended. */
  lemma ReportedAsJudged(run: seq<State>, i: nat, j: nat, k: nat)
    requires IsRun(run) && i <= j < |run| && k < |run[i].pcs| && MayReturn(run[j])
    ensures k < |run[j].names| && run[j].names[k] in run[j].results
    ensures var result := run[j].results[run[j].names[k]];
            && (run[i].pcs[k] == GaveUp ==> result == Unhealthy("timeout"))
            && (run[i].pcs[k] == Judged(None) ==> result == Healthy)
            && forall text :: run[i].pcs[k] == Judged(Some(text)) ==> result == Unhealthy(text)
  {
    SettledStays(run, i, j, k);
    RunInv(run, j);
    CountZero(InGroup, run[j].pcs);
    assert run[j].pcs[k].Ended?;
  }

  /** Every check either ran to its end or gave up, and it gave up only after the context had
      ended. */
  lemma {:induction false} EachJudged(run: seq<State>, j: nat, k: nat) returns (i: nat)
    requires IsRun(run) && j < |run| && k < |run[j].pcs| && Settled(run[j].pcs[k]).Some?
    ensures i <= j && k < |run[i].pcs|
    ensures run[i].pcs[k].Judged? || (run[i].pcs[k].GaveUp? && run[i].cancelled)
  {
    RunInv(run, j);
    if run[j].pcs[k].Judged? || run[j].pcs[k].GaveUp? {
      i := j;
    } else {
      RunInv(run, j - 1);
      SettledStep(run, j - 1, k);
      i := EachJudged(run, j - 1, k);
    }
  }

  /** With at least one slot, or once the context has ended, the call cannot get stuck. */
  lemma NeverStuck(s: State)
    requires Reachable(s) && !MayReturn(s) && (s.slots > 0 || s.cancelled)
    ensures |s.pcs| == |s.names|
    ensures exists k, s' | 0 <= k < |s.pcs| :: CheckStep(s, k, s')
  {
    ReachableInv(s);
    CountZero(InGroup, s.pcs);
    CountZero(HoldsSlot, s.pcs);
    if k :| 0 <= k < |s.pcs| && HoldsSlot(s.pcs[k]) {
      var s' := Advance(s, k);
    } else {
      assert s.taken == 0;
      var k :| 0 <= k < |s.pcs| && !s.pcs[k].Ended?;
      var s' := Advance(s, k);
    }
  }

  lemma Advance(s: State, k: nat) returns (s': State)
    requires k < |s.pcs| == |s.names| && !s.pcs[k].Ended?
    requires s.pcs[k] == Waiting ==> s.cancelled || s.taken < s.slots
    ensures CheckStep(s, k, s')
  {
    match s.pcs[k]
    case NotLaunched => s' := s.(pcs := s.pcs[k := Waiting], wg := s.wg + 1);
    case Waiting =>
      s' := if s.cancelled then s.(pcs := s.pcs[k := GaveUp])
            else s.(pcs := s.pcs[k := Running], taken := s.taken + 1);
    case Running => s' := s.(pcs := s.pcs[k := Judged(None)]);
    case Judged(error) =>
      var result := ResultOf(error);
      var (results, hasErrors) := Recorded(s.results, s.hasErrors, s.names[k], result);
      s' := s.(pcs := s.pcs[k := Written(result)], results := results, hasErrors := hasErrors);
    case Written(result) => s' := s.(pcs := s.pcs[k := Leaving(result)], taken := s.taken - 1);
    case GaveUp =>
      var (results, hasErrors) := Recorded(s.results, s.hasErrors, s.names[k], TIMEOUT);
      s' := s.(pcs := s.pcs[k := Leaving(TIMEOUT)], results := results, hasErrors := hasErrors);
    case Leaving(result) => s' := s.(pcs := s.pcs[k := Ended(result)], wg := s.wg - 1);
  }
}
