/** The per-route gauge of active requests and the request counters
    (pkg/observability/otel/http.go).

    SetRoute, OnError and Finish may be called on the same scope from any goroutines. Each
    metric call is a step of its own, so the gauge is also right between the two halves of a
    route change and while a finished request is still being recorded. */
module RequestGauge {
  import opened Counting
  import opened Options
  import opened Text

  /** The metric labels of a request. */
  datatype Label = Label(verb: string, route: string)

  const UNKNOWN_ROUTE := "unknown"

  function LabelOf(verb: string, route: string): Label {
    Label(verb, if route == "" then UNKNOWN_ROUTE else route)
  }

  type Gauge = map<Label, int>

  function Reading(g: Gauge, l: Label): int {
    if l in g then g[l] else 0
  }

  function Add(g: Gauge, l: Label, delta: int): (g': Gauge)
    ensures forall k :: Reading(g', k) == Reading(g, k) + if k == l then delta else 0
  {
    g[l := Reading(g, l) + delta]
  }

  /** A request counts as an error after OnError or with a status from 500 on. */
  predicate IsFailure(failed: bool, status: int) {
    failed || status >= 500
  }

  // ---------- the object ----------

  class Instruments {
    var active: Gauge
    var requests: nat
    var errors: nat

    constructor ()
      ensures active == map[] && requests == errors == 0
    {
      active, requests, errors := map[], 0, 0;
    }
  }

  class RequestScope {
    const verb: string
    const meters: Instruments
    var route: string
    var fields: Label
    var failed: bool
    var ended: bool

    ghost predicate Valid()
      reads this
    {
      fields == LabelOf(verb, route)
    }

    /** StartRequest with the normalised verb and route. */
    constructor (meters: Instruments, verb: string, route: string)
      modifies meters
      ensures Valid() && !failed && !ended
      ensures this.meters == meters && this.verb == verb && this.route == route
      ensures fields == Label(verb, if route == "" then "unknown" else route)
      ensures forall l :: Reading(meters.active, l) ==
                Reading(old(meters.active), l) + (if l == fields then 1 else 0)
      ensures meters.requests == old(meters.requests) && meters.errors == old(meters.errors)
    {
      this.meters, this.verb, this.route := meters, verb, route;
      fields := LabelOf(verb, route);
      failed, ended := false, false;
      new;
      meters.active := Add(meters.active, fields, 1);
    }

    /** Moves an open request to another route; the gauge moves with it. */
    method SetRoute(newRoute: string)
      requires Valid()
      modifies this, meters
      ensures Valid() && ended == old(ended) && failed == old(failed)
      ensures meters.requests == old(meters.requests) && meters.errors == old(meters.errors)
      ensures route == if ended || TrimSpace(newRoute) == "" then old(route) else TrimSpace(newRoute)
      ensures fields == if route == old(route) then old(fields) else Label(verb, route)
      ensures forall l :: Reading(meters.active, l) ==
                Reading(old(meters.active), l)
                - (if l == old(fields) then 1 else 0) + (if l == fields then 1 else 0)
    {
      var normalized := TrimSpace(newRoute);
      if normalized == "" || normalized == route {
        return;
      }
      if ended {
        return;
      }
      var oldFields := fields;
      route := normalized;
      fields := LabelOf(verb, route);
      meters.active := Add(meters.active, oldFields, -1);
      meters.active := Add(meters.active, fields, 1);
    }

    /** A nil error is ignored. */
    method OnError(error: Option<string>)
      modifies this
      ensures failed == (old(failed) || (error.Some? && !ended))
      ensures ended == old(ended) && route == old(route) && fields == old(fields)
    {
      if error.None? {
        return;
      }
      if ended {
        return;
      }
      failed := true;
    }

    /** Only the first Finish records anything. */
    method Finish(status: int)
      modifies this, meters
      ensures ended && route == old(route) && fields == old(fields) && failed == old(failed)
      ensures old(ended) ==> meters.active == old(meters.active)
                             && meters.requests == old(meters.requests) && meters.errors == old(meters.errors)
      ensures !old(ended) ==>
                && meters.requests == old(meters.requests) + 1
                && meters.errors == old(meters.errors) + (if failed || status >= 500 then 1 else 0)
                && forall l :: Reading(meters.active, l) ==
                     Reading(old(meters.active), l) - (if l == fields then 1 else 0)
    {
      var code := if status <= 0 then 200 else status;
      if ended {
        return;
      }
      ended := true;
      meters.requests := meters.requests + 1;
      meters.active := Add(meters.active, fields, -1);
      if failed || code >= 500 {
        meters.errors := meters.errors + 1;
      }
    }
  }

  // ---------- the protocol ----------

  /** What holds the scope's lock: nothing, or a SetRoute about to take the request off its
      old label, or to put it on the new one. */
  datatype Lock = Free | Leaving(from: Label) | Arriving

  /** The Finish call that got in first, by its next metric call. */
  datatype Finishing =
    | Open
    | Counting(failed: bool)
    | Decrementing(failed: bool)
    | Judging(failed: bool)
    | Done(failed: bool)

  datatype Scope = Scope(verb: string, fields: Label, failed: bool, lock: Lock, finishing: Finishing)

  datatype State = State(scopes: seq<Scope>, active: Gauge, requests: nat, errors: nat)

  ghost predicate Init(s: State) {
    s == State([], map[], 0, 0)
  }

  ghost predicate StartStep(s: State, s': State) {
    exists verb, route ::
      var l := LabelOf(verb, route);
      s' == s.(scopes := s.scopes + [Scope(verb, l, false, Free, Open)], active := Add(s.active, l, 1))
  }

  /** One step of a call on scope i. The route comparison before SetRoute takes the lock may
      read a stale route, so any new route may get here, the current one included. */
  ghost predicate ScopeStep(s: State, i: nat, s': State)
    requires i < |s.scopes|
  {
    var sc := s.scopes[i];
    match sc.lock
    case Leaving(from) =>
      s' == s.(scopes := s.scopes[i := sc.(lock := Arriving)], active := Add(s.active, from, -1))
    case Arriving =>
      s' == s.(scopes := s.scopes[i := sc.(lock := Free)], active := Add(s.active, sc.fields, 1))
    case Free =>
      match sc.finishing
      case Open =>
        || s' == s
        || s' == s.(scopes := s.scopes[i := sc.(failed := true)])
        || (exists route ::
              s' == s.(scopes := s.scopes[i := sc.(fields := LabelOf(sc.verb, route), lock := Leaving(sc.fields))]))
        || (exists status ::
              s' == s.(scopes := s.scopes[i := sc.(finishing := Counting(IsFailure(sc.failed, status)))]))
      case Counting(failed) =>
        s' == s.(scopes := s.scopes[i := sc.(finishing := Decrementing(failed))], requests := s.requests + 1)
      case Decrementing(failed) =>
        s' == s.(scopes := s.scopes[i := sc.(finishing := Judging(failed))], active := Add(s.active, sc.fields, -1))
      case Judging(failed) =>
        s' == s.(scopes := s.scopes[i := sc.(finishing := Done(failed))],
                 errors := if failed then s.errors + 1 else s.errors)
      case Done(_) => s' == s
  }

  ghost predicate Next(s: State, s': State) {
    || StartStep(s, s')
    || (exists i | 0 <= i < |s.scopes| :: ScopeStep(s, i, s'))
  }

  /** The label a request is counted under at this moment, if any. */
  function CountedAt(sc: Scope): Option<Label> {
    match sc.lock
    case Leaving(from) => Some(from)
    case Arriving => None
    case Free => if sc.finishing.Judging? || sc.finishing.Done? then None else Some(sc.fields)
  }

  function IsAt(l: Label): Scope -> bool {
    sc => CountedAt(sc) == Some(l)
  }

  predicate IsRecorded(sc: Scope) {
    sc.finishing.Decrementing? || sc.finishing.Judging? || sc.finishing.Done?
  }

  predicate IsError(sc: Scope) {
    sc.finishing.Done? && sc.finishing.failed
  }

  ghost predicate Inv(s: State) {
    && (forall l :: Reading(s.active, l) == Count(IsAt(l), s.scopes))
    && s.requests == Count(IsRecorded, s.scopes)
    && s.errors == Count(IsError, s.scopes)
    && (forall i | 0 <= i < |s.scopes| :: s.scopes[i].lock != Free ==> s.scopes[i].finishing == Open)
    && (forall i | 0 <= i < |s.scopes| ::
          s.scopes[i].failed && s.scopes[i].finishing != Open ==> s.scopes[i].finishing.failed)
  }

  lemma StepPreserves(s: State, s': State)
    requires Inv(s) && Next(s, s')
    ensures Inv(s')
  {
    if StartStep(s, s') {
      var sc := s'.scopes[|s.scopes|];
      CountAppend(IsRecorded, s.scopes, sc);
      CountAppend(IsError, s.scopes, sc);
      forall l
        ensures Reading(s'.active, l) == Count(IsAt(l), s'.scopes)
      {
        CountAppend(IsAt(l), s.scopes, sc);
      }
    } else {
      var i :| 0 <= i < |s.scopes| && ScopeStep(s, i, s');
      ScopePreserves(s, i, s');
    }
  }

  lemma ScopePreserves(s: State, i: nat, s': State)
    requires Inv(s) && i < |s.scopes| && ScopeStep(s, i, s')
    ensures Inv(s')
  {
    var sc := s'.scopes[i];
    assert s'.scopes == s.scopes[i := sc];
    CountUpdate(IsRecorded, s.scopes, i, sc);
    CountUpdate(IsError, s.scopes, i, sc);
    forall l
      ensures Reading(s'.active, l) == Count(IsAt(l), s'.scopes)
    {
      ReadingPreserved(s, i, s', l);
    }
  }

  lemma ReadingPreserved(s: State, i: nat, s': State, l: Label)
    requires Inv(s) && i < |s.scopes| && ScopeStep(s, i, s')
    ensures Reading(s'.active, l) == Count(IsAt(l), s'.scopes)
  {
    ReadingMoves(s, i, s', l);
    CountUpdate(IsAt(l), s.scopes, i, s'.scopes[i]);
  }

  /** A step moves the reading of a label exactly as it moves the scope to it or from it. */
  lemma ReadingMoves(s: State, i: nat, s': State, l: Label)
    requires i < |s.scopes| && ScopeStep(s, i, s')
    requires s.scopes[i].lock != Free ==> s.scopes[i].finishing == Open
    ensures i < |s'.scopes| && s'.scopes == s.scopes[i := s'.scopes[i]]
    ensures Reading(s'.active, l) - Reading(s.active, l) ==
            (if IsAt(l)(s'.scopes[i]) then 1 else 0) - (if IsAt(l)(s.scopes[i]) then 1 else 0)
  {
  }

  // ---------- what every run guarantees ----------

  ghost predicate IsRun(run: seq<State>) {
    && run != [] && Init(run[0])
    && forall i | 0 <= i < |run| - 1 :: Next(run[i], run[i + 1])
  }

  ghost predicate Reachable(s: State) {
    exists run :: IsRun(run) && run[|run| - 1] == s
  }

  lemma {:induction false} RunInv(run: seq<State>, i: nat)
    requires IsRun(run) && i < |run|
    ensures Inv(run[i])
  {
    if i > 0 {
      RunInv(run, i - 1);
      StepPreserves(run[i - 1], run[i]);
    }
  }

  lemma ReachableInv(s: State)
    requires Reachable(s)
    ensures Inv(s)
  {
    var run :| IsRun(run) && run[|run| - 1] == s;
    RunInv(run, |run| - 1);
  }

  /** At every label the gauge reads the number of requests counted there. */
  lemma GaugeExact(s: State, l: Label)
    requires Reachable(s)
    ensures Reading(s.active, l) == Count(IsAt(l), s.scopes)
  {
    ReachableInv(s);
  }

  predicate IsOpenAt(sc: Scope, l: Label) {
    sc.finishing == Open && sc.fields == l
  }

  /** While no call is under way, a label reads the number of open requests that carry it. */
  lemma GaugeAtRest(s: State, l: Label)
    requires Reachable(s)
    requires forall i | 0 <= i < |s.scopes| ::
               s.scopes[i].lock == Free && (s.scopes[i].finishing.Open? || s.scopes[i].finishing.Done?)
    ensures Reading(s.active, l) == Count((sc: Scope) => IsOpenAt(sc, l), s.scopes)
  {
    ReachableInv(s);
    CountSame(IsAt(l), (sc: Scope) => IsOpenAt(sc, l), s.scopes);
  }

  /** Once every request has finished, every label reads zero, each request has been counted
      exactly once, and each failed one is an error exactly once, those with an OnError before
      their Finish among them. */
  lemma AllFinished(s: State)
    requires Reachable(s) && forall i | 0 <= i < |s.scopes| :: s.scopes[i].finishing.Done?
    ensures forall l :: Reading(s.active, l) == 0
    ensures s.requests == |s.scopes|
    ensures s.errors == Count((sc: Scope) => sc.finishing == Done(true), s.scopes)
    ensures forall i | 0 <= i < |s.scopes| :: s.scopes[i].failed ==> s.scopes[i].finishing == Done(true)
  {
    ReachableInv(s);
    CountAll(IsRecorded, s.scopes);
    CountSame(IsError, (sc: Scope) => sc.finishing == Done(true), s.scopes);
    forall l
      ensures Reading(s.active, l) == 0
    {
      CountZero(IsAt(l), s.scopes);
    }
  }

  /** A finished request's verdict is what OnError and the status said before it finished:
      nothing that comes later changes it. */
  lemma VerdictStable(s: State, s': State, i: nat)
    requires Reachable(s) && Next(s, s') && i < |s.scopes| && s.scopes[i].finishing != Open
    ensures i < |s'.scopes| && s'.scopes[i].finishing != Open
    ensures s'.scopes[i].finishing.failed == s.scopes[i].finishing.failed
    ensures s'.scopes[i].fields == s.scopes[i].fields
  {
    ReachableInv(s);
    if k :| 0 <= k < |s.scopes| && ScopeStep(s, k, s') {
      if k == i {
        FinishingKeeps(s, i, s');
      } else {
        OthersKept(s, k, s', i);
      }
    }
  }

  lemma FinishingKeeps(s: State, i: nat, s': State)
    requires i < |s.scopes| && ScopeStep(s, i, s') && s.scopes[i].lock == Free && s.scopes[i].finishing != Open
    ensures i < |s'.scopes| && s'.scopes[i].finishing != Open
    ensures s'.scopes[i].finishing.failed == s.scopes[i].finishing.failed
    ensures s'.scopes[i].fields == s.scopes[i].fields
  {
  }

  lemma OthersKept(s: State, k: nat, s': State, i: nat)
    requires k < |s.scopes| && ScopeStep(s, k, s') && i < |s.scopes| && i != k
    ensures i < |s'.scopes| && s'.scopes[i] == s.scopes[i]
  {
  }
}
