/** The telemetry shutdown coordinator (pkg/observability/otel/shutdown.go): the order of the
    steps, their execution, and concurrent Shutdown calls. */
module ShutdownOrder {
  import opened Filtering

  /** A registered step. Either function may be missing; `id` tells steps of one name apart. */
  datatype Step = Step(name: string, id: nat, hasFlush: bool, hasShutdown: bool)

  /** Where a name stands in the flush order: its first position, or the end. */
  function Rank(order: seq<string>, name: string): (r: nat)
    ensures r <= |order|
    ensures r < |order| ==> order[r] == name
    ensures name !in order[..r]
    ensures r == |order| <==> name !in order
  {
    if order == [] then 0
    else if order[0] == name then 0
    else 1 + Rank(order[1..], name)
  }

  function HasRank(order: seq<string>, r: nat): Step -> bool {
    (step: Step) => Rank(order, step.name) == r
  }

  function HasName(name: string): Step -> bool {
    (step: Step) => step.name == name
  }

  ghost predicate RankSorted(steps: seq<Step>, order: seq<string>) {
    forall i, j | 0 <= i < j < |steps| :: Rank(order, steps[i].name) <= Rank(order, steps[j].name)
  }

  /** Steps of one rank keep their registration order. */
  ghost predicate SameByRank(a: seq<Step>, b: seq<Step>, order: seq<string>) {
    forall r: nat :: Filter(HasRank(order, r), a) == Filter(HasRank(order, r), b)
  }

  /** `ordered` is the stable sort of `steps` by rank. */
  ghost predicate IsStableSort(ordered: seq<Step>, steps: seq<Step>, order: seq<string>) {
    RankSorted(ordered, order) && SameByRank(ordered, steps, order)
  }

  lemma SameMembers(a: seq<Step>, b: seq<Step>, order: seq<string>, x: Step)
    requires SameByRank(a, b, order) && x in a
    ensures x in b
  {
    var r := Rank(order, x.name);
    FilterKeeps(HasRank(order, r), a, x);
    assert Filter(HasRank(order, r), a) == Filter(HasRank(order, r), b);
    FilterMembers(HasRank(order, r), b, x);
  }

  lemma SameLastRank(a: seq<Step>, b: seq<Step>, order: seq<string>)
    requires RankSorted(a, order) && RankSorted(b, order) && SameByRank(a, b, order) && a != [] && b != []
    ensures Rank(order, a[|a| - 1].name) == Rank(order, b[|b| - 1].name)
  {
    SameMembers(a, b, order, a[|a| - 1]);
    SameMembers(b, a, order, b[|b| - 1]);
  }

  lemma SameLast(a: seq<Step>, x: Step, b: seq<Step>, y: Step, order: seq<string>)
    requires SameByRank(a + [x], b + [y], order) && Rank(order, x.name) == Rank(order, y.name)
    ensures x == y && SameByRank(a, b, order)
  {
    forall k: nat
      ensures Filter(HasRank(order, k), a) == Filter(HasRank(order, k), b)
      ensures k == Rank(order, x.name) ==> x == y
    {
      var p := HasRank(order, k);
      assert Filter(p, a + [x]) == Filter(p, b + [y]);
      FilterAppend(p, a, x);
      FilterAppend(p, b, y);
      var f, g := Filter(p, a), Filter(p, b);
      assert p(x) == p(y);
      if !p(x) {
        assert f + [] == f && g + [] == g;
      } else {
        assert f + [x] == g + [y];
        assert (f + [x])[..|f|] == f && (g + [y])[..|g|] == g;
        assert (f + [x])[|f|] == x && (g + [y])[|g|] == y;
      }
    }
    var r := Rank(order, x.name);
    assert Filter(HasRank(order, r), a) == Filter(HasRank(order, r), b);
  }

  lemma SortedPrefix(a: seq<Step>, order: seq<string>)
    requires RankSorted(a, order) && a != []
    ensures RankSorted(a[..|a| - 1], order)
  {
  }

  /** There is only one such sequence. */
  lemma {:induction false} StableSortUnique(a: seq<Step>, b: seq<Step>, order: seq<string>)
    requires RankSorted(a, order) && RankSorted(b, order) && SameByRank(a, b, order)
    ensures a == b
  {
    if a == [] {
      if b != [] {
        SameMembers(b, a, order, b[0]);
      }
    } else {
      SameMembers(a, b, order, a[0]);
      LastSplit(a, b, order);
      var m, n := |a| - 1, |b| - 1;
      SortedPrefix(a, order);
      SortedPrefix(b, order);
      StableSortUnique(a[..m], b[..n], order);
      assert a == a[..m] + [a[m]] && b == b[..n] + [b[n]];
    }
  }

  lemma LastSplit(a: seq<Step>, b: seq<Step>, order: seq<string>)
    requires RankSorted(a, order) && RankSorted(b, order) && SameByRank(a, b, order) && a != [] && b != []
    ensures a[|a| - 1] == b[|b| - 1] && SameByRank(a[..|a| - 1], b[..|b| - 1], order)
  {
    var m, n := |a| - 1, |b| - 1;
    SameLastRank(a, b, order);
    assert a == a[..m] + [a[m]] && b == b[..n] + [b[n]];
    SameLast(a[..m], a[m], b[..n], b[n], order);
  }

  /** A stable sort loses and repeats nothing. */
  lemma StableSortPermutes(ordered: seq<Step>, steps: seq<Step>, order: seq<string>)
    requires IsStableSort(ordered, steps, order)
    ensures multiset(ordered) == multiset(steps)
  {
    forall x
      ensures multiset(ordered)[x] == multiset(steps)[x]
    {
      var r := Rank(order, x.name);
      FilterCount(HasRank(order, r), ordered, x);
      FilterCount(HasRank(order, r), steps, x);
    }
  }

  // ---------- the object ----------

  class ShutdownCoordinator {
    const order: seq<string>
    var steps: seq<Step>
    var stopped: bool

    constructor (order: seq<string>)
      ensures this.order == order && steps == [] && !stopped
    {
      this.order := order;
      steps, stopped := [], false;
    }

    method Register(step: Step)
      modifies this
      ensures stopped == old(stopped)
      ensures steps == old(steps) + if step.name != "" && !stopped then [step] else []
    {
      if step.name == "" {
        return;
      }
      if stopped {
        return;
      }
      steps := steps + [step];
    }

    /** The part of beginShutdown under the mutex, for a caller that finds it running or not. */
    method BeginShutdown() returns (plan: seq<Step>, alreadyStopped: bool)
      modifies this
      ensures stopped && steps == old(steps) && alreadyStopped == old(stopped)
      ensures !alreadyStopped ==> IsStableSort(plan, steps, order)
    {
      if stopped {
        return [], true;
      }
      stopped := true;
      plan := OrderedSteps();
      alreadyStopped := false;
    }

    method OrderedSteps() returns (ordered: seq<Step>)
      ensures IsStableSort(ordered, steps, order)
    {
      if |order| == 0 || |steps| < 2 {
        return steps;
      }
      var byName := GroupByName();
      var seen;
      ordered, seen := TakeListed(byName);
      FinishPlaced(ordered, steps, order);
      ordered := AddUnlisted(ordered, seen);
    }

    method GroupByName() returns (byName: map<string, seq<Step>>)
      ensures forall name :: Group(byName, name) == Filter(HasName(name), steps)
    {
      byName := map[];
      for i := 0 to |steps|
        invariant forall name :: Group(byName, name) == Filter(HasName(name), steps[..i])
      {
        var name := steps[i].name;
        byName := byName[name := Group(byName, name) + [steps[i]]];
        forall other
          ensures Group(byName, other) == Filter(HasName(other), steps[..i + 1])
        {
          FilterAppend(HasName(other), steps[..i], steps[i]);
          assert steps[..i + 1] == steps[..i] + [steps[i]];
        }
      }
      assert steps[..|steps|] == steps;
    }

    /** The loop over the flush order. */
    method TakeListed(groups: map<string, seq<Step>>) returns (ordered: seq<Step>, seen: set<string>)
      requires forall name :: Group(groups, name) == Filter(HasName(name), steps)
      ensures forall name :: name in seen <==> name in order
      ensures Placed(ordered, steps, order, |order|)
    {
      var byName := groups;
      ordered, seen := [], {};
      for k := 0 to |order|
        invariant forall name :: name in seen <==> name in order[..k]
        invariant forall name :: Group(byName, name) == if name in seen then [] else Filter(HasName(name), steps)
        invariant Placed(ordered, steps, order, k)
      {
        var name := order[k];
        ExtendPlaced(ordered, steps, order, k);
        ordered := ordered + Group(byName, name);
        PrefixMembers(order, k);
        RemoveGroup(byName, name);
        seen := seen + {name};
        byName := byName - {name};
      }
      assert order[..|order|] == order;
    }

    /** The loop over the registered steps that skips the listed ones. */
    method AddUnlisted(listed: seq<Step>, seen: set<string>) returns (ordered: seq<Step>)
      requires forall name :: name in seen <==> name in order
      ensures ordered == listed + Filter(HasRank(order, |order|), steps)
    {
      ordered := [];
      ghost var unlisted := HasRank(order, |order|);
      for i := 0 to |steps|
        invariant ordered == Filter(unlisted, steps[..i])
      {
        FilterAppend(unlisted, steps[..i], steps[i]);
        assert steps[..i + 1] == steps[..i] + [steps[i]];
        if steps[i].name in seen {
          continue;
        }
        ordered := ordered + [steps[i]];
      }
      assert steps[..|steps|] == steps;
      ordered := listed + ordered;
    }
  }

  lemma PrefixMembers(order: seq<string>, k: nat)
    requires k < |order|
    ensures forall name :: name in order[..k + 1] <==> name in order[..k] || name == order[k]
  {
    assert order[..k + 1] == order[..k] + [order[k]];
  }

  lemma RemoveGroup(byName: map<string, seq<Step>>, name: string)
    ensures forall other :: Group(byName - {name}, other) == if other == name then [] else Group(byName, other)
  {
  }

  function Group(byName: map<string, seq<Step>>, name: string): seq<Step> {
    if name in byName then byName[name] else []
  }

  /** Exactly the steps of the first k ranks are placed, and as a stable sort. */
  ghost predicate Placed(ordered: seq<Step>, steps: seq<Step>, order: seq<string>, k: nat) {
    && RankSorted(ordered, order)
    && (forall x | x in ordered :: Rank(order, x.name) < k)
    && forall r: nat | r < k :: Filter(HasRank(order, r), ordered) == Filter(HasRank(order, r), steps)
  }

  lemma PlaceRank(ordered: seq<Step>, steps: seq<Step>, order: seq<string>, k: nat)
    requires Placed(ordered, steps, order, k)
    ensures Placed(ordered + Filter(HasRank(order, k), steps), steps, order, k + 1)
  {
    var group := Filter(HasRank(order, k), steps);
    forall x | x in group
      ensures Rank(order, x.name) == k
    {
      FilterMembers(HasRank(order, k), steps, x);
    }
    forall r: nat | r < k + 1
      ensures Filter(HasRank(order, r), ordered + group) == Filter(HasRank(order, r), steps)
    {
      FilterConcat(HasRank(order, r), ordered, group);
      if r < k {
        FilterNone(HasRank(order, r), group);
      } else {
        FilterNone(HasRank(order, r), ordered);
        FilterAll(HasRank(order, r), group);
      }
    }
    var more := ordered + group;
    forall i, j | 0 <= i < j < |more|
      ensures Rank(order, more[i].name) <= Rank(order, more[j].name)
    {
      if j >= |ordered| {
        assert more[j] in group;
      }
      assert i < |ordered| ==> more[i] in ordered;
      assert i >= |ordered| ==> more[i] in group;
    }
  }

  /** The group taken for the k-th name is the k-th rank, which a repeated name leaves empty. */
  lemma ExtendPlaced(ordered: seq<Step>, steps: seq<Step>, order: seq<string>, k: nat)
    requires k < |order| && Placed(ordered, steps, order, k)
    ensures var group := if order[k] in order[..k] then [] else Filter(HasName(order[k]), steps);
            Placed(ordered + group, steps, order, k + 1)
  {
    PlaceRank(ordered, steps, order, k);
    if order[k] in order[..k] {
      FilterNone(HasRank(order, k), steps);
    } else {
      forall x | x in steps
        ensures HasRank(order, k)(x) <==> HasName(order[k])(x)
      {
        RankOfFirst(order, k);
      }
      FilterSame(HasRank(order, k), HasName(order[k]), steps);
    }
  }

  lemma {:induction false} RankOfFirst(order: seq<string>, k: nat)
    requires k < |order| && order[k] !in order[..k]
    ensures Rank(order, order[k]) == k
  {
    if k > 0 {
      assert order[0] in order[..k];
      assert order[1..][..k - 1] == order[1..k];
      RankOfFirst(order[1..], k - 1);
    }
  }

  lemma FinishPlaced(listed: seq<Step>, steps: seq<Step>, order: seq<string>)
    requires Placed(listed, steps, order, |order|)
    ensures IsStableSort(listed + Filter(HasRank(order, |order|), steps), steps, order)
  {
    PlaceRank(listed, steps, order, |order|);
    var ordered := listed + Filter(HasRank(order, |order|), steps);
    forall r: nat
      ensures Filter(HasRank(order, r), ordered) == Filter(HasRank(order, r), steps)
    {
      if r > |order| {
        FilterNone(HasRank(order, r), ordered);
        FilterNone(HasRank(order, r), steps);
      }
    }
  }

  // ---------- execution ----------

  /** A call of a step's function; a failing one adds the same value to the joined error. */
  datatype Call = Flush(step: Step) | Shut(step: Step)

  function Flushes(plan: seq<Step>): seq<Call> {
    if plan == [] then []
    else
      var n := |plan| - 1;
      Flushes(plan[..n]) + if plan[n].hasFlush then [Flush(plan[n])] else []
  }

  function Shuts(plan: seq<Step>): seq<Call> {
    if plan == [] then []
    else
      var n := |plan| - 1;
      Shuts(plan[..n]) + if plan[n].hasShutdown then [Shut(plan[n])] else []
  }

  /** execute: every flush in order, then every shutdown in order, whatever fails. */
  method Execute(plan: seq<Step>, fails: Call -> bool) returns (calls: seq<Call>, errs: seq<Call>)
    ensures calls == Flushes(plan) + Shuts(plan)
    ensures errs == Filter(fails, calls)
  {
    calls, errs := [], [];
    for i := 0 to |plan|
      invariant calls == Flushes(plan[..i])
      invariant errs == Filter(fails, calls)
    {
      assert plan[..i + 1][..i] == plan[..i];
      if !plan[i].hasFlush {
        continue;
      }
      calls, errs := Invoke(Flush(plan[i]), fails, calls, errs);
    }
    assert plan[..|plan|] == plan;
    ghost var flushed := calls;
    for i := 0 to |plan|
      invariant calls == flushed + Shuts(plan[..i])
      invariant errs == Filter(fails, calls)
    {
      assert plan[..i + 1][..i] == plan[..i];
      if !plan[i].hasShutdown {
        continue;
      }
      calls, errs := Invoke(Shut(plan[i]), fails, calls, errs);
    }
  }

  method Invoke(call: Call, fails: Call -> bool, calls: seq<Call>, errs: seq<Call>)
    returns (calls': seq<Call>, errs': seq<Call>)
    requires errs == Filter(fails, calls)
    ensures calls' == calls + [call] && errs' == Filter(fails, calls')
  {
    FilterAppend(fails, calls, call);
    calls' := calls + [call];
    errs' := if fails(call) then errs + [call] else errs;
  }

  lemma FlushesAt(plan: seq<Step>, i: nat)
    requires i < |plan|
    ensures Flushes(plan[..i + 1]) == Flushes(plan[..i]) + if plan[i].hasFlush then [Flush(plan[i])] else []
  {
    assert plan[..i + 1][..i] == plan[..i];
  }

  lemma ShutsAt(plan: seq<Step>, i: nat)
    requires i < |plan|
    ensures Shuts(plan[..i + 1]) == Shuts(plan[..i]) + if plan[i].hasShutdown then [Shut(plan[i])] else []
  {
    assert plan[..i + 1][..i] == plan[..i];
  }

  /** The flushes are those of the steps that have one, in the order of the plan. */
  lemma {:induction false} FlushesInOrder(plan: seq<Step>)
    ensures var flushable := Filter((step: Step) => step.hasFlush, plan);
            Flushes(plan) == seq(|flushable|, i requires 0 <= i < |flushable| => Flush(flushable[i]))
  {
    if plan != [] {
      var n := |plan| - 1;
      FlushesInOrder(plan[..n]);
      FilterAppend((step: Step) => step.hasFlush, plan[..n], plan[n]);
      assert plan == plan[..n] + [plan[n]];
    }
  }

  /** The shutdowns are those of the steps that have one, in the order of the plan. */
  lemma {:induction false} ShutsInOrder(plan: seq<Step>)
    ensures var stoppable := Filter((step: Step) => step.hasShutdown, plan);
            Shuts(plan) == seq(|stoppable|, i requires 0 <= i < |stoppable| => Shut(stoppable[i]))
  {
    if plan != [] {
      var n := |plan| - 1;
      ShutsInOrder(plan[..n]);
      FilterAppend((step: Step) => step.hasShutdown, plan[..n], plan[n]);
      assert plan == plan[..n] + [plan[n]];
    }
  }

  /** Each step is flushed as often as it is registered, if it can be. */
  lemma {:induction false} FlushCount(plan: seq<Step>, step: Step)
    ensures multiset(Flushes(plan))[Flush(step)] == if step.hasFlush then multiset(plan)[step] else 0
  {
    if plan != [] {
      var n := |plan| - 1;
      FlushCount(plan[..n], step);
      assert plan == plan[..n] + [plan[n]];
    }
  }

  /** Each step is shut down as often as it is registered, if it can be. */
  lemma {:induction false} ShutCount(plan: seq<Step>, step: Step)
    ensures multiset(Shuts(plan))[Shut(step)] == if step.hasShutdown then multiset(plan)[step] else 0
  {
    if plan != [] {
      var n := |plan| - 1;
      ShutCount(plan[..n], step);
      assert plan == plan[..n] + [plan[n]];
    }
  }

  // ---------- concurrent calls ----------

  /** A Shutdown call: waiting for the first one, running the plan, or returned with the
      joined failures. */
  datatype CallerPc = Outside | Waiting | Flushing(next: nat) | Shutting(next: nat) | Returned(err: seq<Call>)

  datatype State = State(
    steps: seq<Step>,
    plan: seq<Step>,
    stopped: bool,
    done: bool,
    err: seq<Call>,
    callers: seq<CallerPc>,
    calls: seq<Call>,
    failures: seq<Call>)

  ghost predicate Init(s: State) {
    && s == State([], [], false, false, [], s.callers, [], [])
    && forall c | 0 <= c < |s.callers| :: s.callers[c] == Outside
  }

  ghost predicate RegisterStep(s: State, s': State) {
    !s.stopped && exists step: Step :: step.name != "" && s' == s.(steps := s.steps + [step])
  }

  ghost predicate CallStep(s: State, call: Call, has: bool, s': State, pc: seq<CallerPc>) {
    if !has then s' == s.(callers := pc)
    else
      || s' == s.(callers := pc, calls := s.calls + [call])
      || s' == s.(callers := pc, calls := s.calls + [call], failures := s.failures + [call])
  }

  ghost predicate CallerStep(s: State, order: seq<string>, c: nat, s': State)
    requires c < |s.callers|
  {
    match s.callers[c]
    case Outside =>
      if s.stopped then s' == s.(callers := s.callers[c := Waiting])
      else
        && IsStableSort(s'.plan, s.steps, order)
        && s' == s.(stopped := true, plan := s'.plan, callers := s.callers[c := Flushing(0)])
    case Waiting => s.done && s' == s.(callers := s.callers[c := Returned(s.err)])
    case Flushing(i) =>
      if i < |s.plan| then
        CallStep(s, Flush(s.plan[i]), s.plan[i].hasFlush, s', s.callers[c := Flushing(i + 1)])
      else
        s' == s.(callers := s.callers[c := Shutting(0)])
    case Shutting(i) =>
      if i < |s.plan| then
        CallStep(s, Shut(s.plan[i]), s.plan[i].hasShutdown, s', s.callers[c := Shutting(i + 1)])
      else
        s' == s.(done := true, err := s.failures, callers := s.callers[c := Returned(s.failures)])
    case Returned(_) => false
  }

  ghost predicate Next(s: State, order: seq<string>, s': State) {
    || RegisterStep(s, s')
    || (exists c | 0 <= c < |s.callers| :: CallerStep(s, order, c, s'))
  }

  predicate IsWorking(pc: CallerPc) {
    pc.Flushing? || pc.Shutting?
  }

  /** What has been called when the working caller is at a position. */
  ghost function CallsUpTo(plan: seq<Step>, pc: CallerPc): seq<Call>
    requires IsWorking(pc) && pc.next <= |plan|
  {
    match pc
    case Flushing(i) => Flushes(plan[..i])
    case Shutting(i) => Flushes(plan) + Shuts(plan[..i])
  }

  ghost predicate CallerInv(s: State, pc: CallerPc) {
    match pc
    case Outside => true
    case Waiting => s.stopped
    case Flushing(i) => s.stopped && !s.done && i <= |s.plan| && s.calls == CallsUpTo(s.plan, pc)
    case Shutting(i) => s.stopped && !s.done && i <= |s.plan| && s.calls == CallsUpTo(s.plan, pc)
    case Returned(err) => s.done && err == s.err
  }

  ghost predicate PlanInv(s: State, order: seq<string>) {
    s.stopped ==> IsStableSort(s.plan, s.steps, order)
  }

  ghost predicate Inv(s: State) {
    && (forall c | 0 <= c < |s.callers| :: CallerInv(s, s.callers[c]))
    && (forall c, d | 0 <= c < d < |s.callers| :: !(IsWorking(s.callers[c]) && IsWorking(s.callers[d])))
    && (s.done ==> s.stopped && s.calls == Flushes(s.plan) + Shuts(s.plan) && s.err == s.failures)
    && (!s.stopped ==> s.calls == [] && s.failures == [])
  }

  lemma PlanPreserved(s: State, order: seq<string>, s': State)
    requires PlanInv(s, order) && Next(s, order, s')
    ensures PlanInv(s', order)
  {
    if RegisterStep(s, s') {
      assert !s'.stopped;
    } else {
      var c :| 0 <= c < |s.callers| && CallerStep(s, order, c, s');
      PlanKept(s, order, c, s');
    }
  }

  lemma PlanKept(s: State, order: seq<string>, c: nat, s': State)
    requires PlanInv(s, order) && c < |s.callers| && CallerStep(s, order, c, s')
    ensures PlanInv(s', order)
  {
    match s.callers[c]
    case Outside =>
    case _ =>
      assert s'.plan == s.plan && s'.steps == s.steps && s'.stopped == s.stopped;
  }

  /** A caller's step, without the choice of the plan. */
  ghost predicate Works(s: State, c: nat, s': State)
    requires c < |s.callers|
  {
    && |s'.callers| == |s.callers| && s'.callers == s.callers[c := s'.callers[c]]
    && (s.stopped ==> s'.plan == s.plan)
    && s'.stopped
  }

  lemma WorkingAlone(s: State, c: nat, s': State)
    requires Inv(s) && c < |s.callers| && Works(s, c, s') && IsWorking(s.callers[c])
    requires s'.err == s.err && s'.done == s.done
    requires IsWorking(s'.callers[c]) && CallerInv(s', s'.callers[c])
    ensures Inv(s')
  {
    assert CallerInv(s, s.callers[c]);
    forall d | 0 <= d < |s'.callers|
      ensures CallerInv(s', s'.callers[d])
    {
      assert CallerInv(s, s.callers[d]);
    }
  }

  lemma FlushingPreserves(s: State, order: seq<string>, c: nat, s': State)
    requires Inv(s) && c < |s.callers| && CallerStep(s, order, c, s') && s.callers[c].Flushing?
    ensures Inv(s')
  {
    var i := s.callers[c].next;
    assert CallerInv(s, s.callers[c]);
    if i < |s.plan| {
      FlushesAt(s.plan, i);
    } else {
      assert s.plan[..i] == s.plan;
      assert Flushes(s.plan) + Shuts(s.plan[..0]) == Flushes(s.plan);
    }
    WorkingAlone(s, c, s');
  }

  lemma ShuttingPreserves(s: State, order: seq<string>, c: nat, s': State)
    requires Inv(s) && c < |s.callers| && CallerStep(s, order, c, s')
    requires s.callers[c].Shutting? && s.callers[c].next < |s.plan|
    ensures Inv(s')
  {
    var i := s.callers[c].next;
    assert CallerInv(s, s.callers[c]);
    ShutsAt(s.plan, i);
    assert Flushes(s.plan) + Shuts(s.plan[..i + 1]) ==
           Flushes(s.plan) + Shuts(s.plan[..i]) + if s.plan[i].hasShutdown then [Shut(s.plan[i])] else [];
    WorkingAlone(s, c, s');
  }

  lemma EdgePreserves(s: State, order: seq<string>, c: nat, s': State)
    requires Inv(s) && c < |s.callers| && CallerStep(s, order, c, s')
    requires IsWorking(s.callers[c]) ==> s.callers[c].Shutting? && s.callers[c].next >= |s.plan|
    ensures Inv(s')
  {
    assert CallerInv(s, s.callers[c]);
    assert s.plan[..|s.plan|] == s.plan;
    forall d | 0 <= d < |s'.callers|
      ensures CallerInv(s', s'.callers[d])
    {
      assert CallerInv(s, s.callers[d]);
    }
  }

  lemma StepPreserves(s: State, order: seq<string>, s': State)
    requires Inv(s) && Next(s, order, s')
    ensures Inv(s')
  {
    if c :| 0 <= c < |s.callers| && CallerStep(s, order, c, s') {
      if s.callers[c].Flushing? {
        FlushingPreserves(s, order, c, s');
      } else if s.callers[c].Shutting? && s.callers[c].next < |s.plan| {
        ShuttingPreserves(s, order, c, s');
      } else {
        EdgePreserves(s, order, c, s');
      }
    } else {
      forall d | 0 <= d < |s'.callers|
        ensures CallerInv(s', s'.callers[d])
      {
        assert CallerInv(s, s.callers[d]);
      }
    }
  }

  // ---------- what every run guarantees ----------

  ghost predicate IsRun(run: seq<State>, order: seq<string>) {
    && run != [] && Init(run[0])
    && forall i | 0 <= i < |run| - 1 :: Next(run[i], order, run[i + 1])
  }

  ghost predicate Reachable(s: State, order: seq<string>) {
    exists run :: IsRun(run, order) && run[|run| - 1] == s
  }

  lemma {:induction false} RunInv(run: seq<State>, order: seq<string>, i: nat)
    requires IsRun(run, order) && i < |run|
    ensures Inv(run[i]) && PlanInv(run[i], order)
  {
    if i > 0 {
      RunInv(run, order, i - 1);
      assert Next(run[i - 1], order, run[i - 1 + 1]);
      StepPreserves(run[i - 1], order, run[i]);
      PlanPreserved(run[i - 1], order, run[i]);
    }
  }

  lemma ReachableInv(s: State, order: seq<string>)
    requires Reachable(s, order)
    ensures Inv(s) && PlanInv(s, order)
  {
    var run :| IsRun(run, order) && run[|run| - 1] == s;
    RunInv(run, order, |run| - 1);
  }

  /** Whoever returns from Shutdown finds every registered step flushed and shut down exactly
      as often as it is registered, all flushes before all shutdowns, in the stable order;
      and all callers get the same error. */
  lemma ShutdownOnce(s: State, order: seq<string>, c: nat)
    requires Reachable(s, order) && c < |s.callers| && s.callers[c].Returned?
    ensures IsStableSort(s.plan, s.steps, order)
    ensures s.calls == Flushes(s.plan) + Shuts(s.plan)
    ensures forall step ::
              multiset(Flushes(s.plan))[Flush(step)] == if step.hasFlush then multiset(s.steps)[step] else 0
    ensures forall step ::
              multiset(Shuts(s.plan))[Shut(step)] == if step.hasShutdown then multiset(s.steps)[step] else 0
    ensures s.callers[c].err == s.failures
  {
    ReachableInv(s, order);
    assert CallerInv(s, s.callers[c]);
    StableSortPermutes(s.plan, s.steps, order);
    forall step
      ensures multiset(Flushes(s.plan))[Flush(step)] == if step.hasFlush then multiset(s.steps)[step] else 0
      ensures multiset(Shuts(s.plan))[Shut(step)] == if step.hasShutdown then multiset(s.steps)[step] else 0
    {
      FlushCount(s.plan, step);
      ShutCount(s.plan, step);
    }
  }

  /** At no time do two calls run steps, and what has been called by then is a beginning of
      the one full sequence. */
  lemma OneExecutor(s: State, order: seq<string>, c: nat)
    requires Reachable(s, order) && c < |s.callers| && IsWorking(s.callers[c])
    ensures forall d | 0 <= d < |s.callers| && d != c :: !IsWorking(s.callers[d])
    ensures s.callers[c].next <= |s.plan| && s.calls == CallsUpTo(s.plan, s.callers[c])
  {
    ReachableInv(s, order);
    assert CallerInv(s, s.callers[c]);
  }
}
