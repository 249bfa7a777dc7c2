/** The response race of the chi server: a recover wrapper around any number of
    nested timeout wrappers around a handler
    (pkg/http_server/chi_server/middleware.go, pkg/http_server/common/response_writer.go).

    With depth n there are goroutines 0..n. Goroutine 0 is the request goroutine, under
    recoverMiddleware. Goroutine g < n sits in the select of timeout wrapper g+1, and
    goroutine n runs the handler. Writer 0 is the recover wrapper's ResponseWriter, whose
    header map is the wire's own; writer k >= 1 is the timeoutWriter of wrapper k. Goroutine
    g writes to writer g, and every accepted write goes on to writer g-1 with the lock of
    writer g still held. A context may expire at any step. */
module ResponseRace {

  /** Who set a header or sent a byte: a goroutine through its writer, or the recover block. */
  datatype Author = Goroutine(index: nat) | Recovery

  type Headers = map<string, Author>

  /** The fields of timeoutWriter; the recover wrapper's ResponseWriter is the same record
      with `written` for headerWritten and `timedOut` never set. */
  datatype Writer = Writer(headers: Headers, written: bool, timedOut: bool)

  const FRESH_WRITER := Writer(map[], false, false)

  datatype Op = Head(status: int) | Body

  datatype WireEvent = StatusLine(author: Author, status: int) | Bytes(author: Author)

  const REQUEST_TIMEOUT := 408
  const INTERNAL_SERVER_ERROR := 500
  const CONTENT_TYPE := "Content-Type"

  // ---------- critical sections of one writer ----------

  /** The test-and-set a write makes under the writer's lock; `passes` says whether the
      write goes on to the writer below. */
  function Gate(op: Op, w: Writer): (r: (Writer, bool))
    ensures r.0.headers == w.headers && r.0.timedOut == w.timedOut
    ensures r.1 ==> r.0.written && !w.timedOut
    ensures !r.1 ==> r.0 == w && (w.timedOut || (op.Head? && w.written))
    ensures op.Head? && r.1 ==> !w.written
  {
    match op
    case Head(_) => if w.timedOut || w.written then (w, false) else (w.(written := true), true)
    case Body => if w.timedOut then (w, false) else (w.(written := true), true)
  }

  /** The timeout goroutine's section: it wins only against an unwritten response. */
  function Expire(w: Writer): (r: (Writer, bool))
    ensures r.1 <==> !w.written
    ensures r.1 ==> r.0.timedOut && r.0.written
    ensures !r.1 ==> r.0 == w
    ensures r.0.headers == w.headers
  {
    if w.written then (w, false) else (w.(written := true, timedOut := true), true)
  }

  /** The timeoutWriter object. Each method is one section guarded by its mutex. */
  class TimeoutWriter {
    var headers: Headers
    var written: bool
    var timedOut: bool

    function View(): Writer
      reads this
    {
      Writer(headers, written, timedOut)
    }

    constructor ()
      ensures View() == FRESH_WRITER
    {
      headers, written, timedOut := map[], false, false;
    }

    /** The part of WriteHeader before the call on the wrapped writer: `below` is the
        wrapped writer's header map, and `below'` that map after the call. */
    method WriteHeader(status: int, below: Headers) returns (passes: bool, below': Headers)
      modifies this
      ensures (View(), passes) == Gate(Head(status), old(View()))
      ensures below' == if passes then below + old(headers) else below
    {
      passes, below' := false, below;
      if timedOut || written {
        return;
      }
      written := true;
      below' := FlushHeaders(below);
      passes := true;
    }

    /** The part of Write before the call on the wrapped writer. */
    method Write(below: Headers) returns (passes: bool, below': Headers)
      modifies this
      ensures (View(), passes) == Gate(Body, old(View()))
      ensures below' == if passes && !old(written) then below + old(headers) else below
    {
      passes, below' := false, below;
      if timedOut {
        return;
      }
      if !written {
        written := true;
        below' := FlushHeaders(below);
      }
      passes := true;
    }

    /** flushHeadersLocked: the range loop over the private map. */
    method FlushHeaders(below: Headers) returns (below': Headers)
      ensures below' == below + headers
    {
      below' := below;
      var rest := headers.Keys;
      while rest != {}
        invariant rest <= headers.Keys
        invariant below' == below + (headers - rest)
      {
        var k :| k in rest;
        below' := below'[k := headers[k]];
        rest := rest - {k};
      }
    }

    /** The ctx.Done branch of both timeout wrappers. */
    method TimeOut() returns (won: bool)
      modifies this
      ensures (View(), won) == Expire(old(View()))
    {
      won := !written;
      if won {
        written, timedOut := true, true;
      }
    }
  }

  // ---------- the protocol ----------

  datatype Pc =
    | NotStarted
    | Entering                      // code between wrappers, before `go runHandler`
    | Waiting                       // the wrapper's select
    | Handling                      // the user's handler, between writes
    | Writing(op: Op, level: nat)   // about to take the lock of writer `level`
    | TimedOut                      // won the race, about to write the 408
    | Cleanup                       // after the 408, or after losing the race
    | Returned
    | Panicked
    | Sending500                    // recover block, headers not written
    | Sending500Body
    | Recovered

  datatype State = State(writers: seq<Writer>, pcs: seq<Pc>, wire: seq<WireEvent>)
  {
    ghost predicate WellFormed() {
      && |writers| == |pcs| > 0
    }

    /** The nesting depth: the number of timeout wrappers. */
    function Depth(): nat
      requires |pcs| > 0
    {
      |pcs| - 1
    }

    /** A write of goroutine g that is past writer k holds k's lock until it is done. */
    predicate Locked(k: nat) {
      exists g | 0 <= g < |pcs| :: pcs[g].Writing? && pcs[g].level < k <= g
    }
  }

  ghost predicate Init(s: State) {
    && s.WellFormed()
    && (forall k | 0 <= k < |s.writers| :: s.writers[k] == FRESH_WRITER)
    && s.pcs[0] == (if s.Depth() == 0 then Handling else Entering)
    && (forall g | 1 <= g < |s.pcs| :: s.pcs[g] == NotStarted)
    && s.wire == []
  }

  ghost predicate Goto(s: State, g: nat, pc: Pc, s': State)
    requires g < |s.pcs|
  {
    s' == s.(pcs := s.pcs[g := pc])
  }

  /** Code above the wrapper: it installs the wrapper, returns early or panics. */
  ghost predicate EnterStep(s: State, g: nat, s': State)
    requires s.WellFormed() && g < s.Depth()
  {
    && s.pcs[g] == Entering
    && (|| Goto(s, g, Panicked, s')
        || Goto(s, g, Returned, s')
        || s' == s.(pcs := s.pcs[g := Waiting][g + 1 := if g + 1 == s.Depth() then Handling else Entering]))
  }

  ghost predicate HandlerStep(s: State, s': State)
    requires s.WellFormed()
  {
    var n := s.Depth();
    && s.pcs[n] == Handling
    && (|| Goto(s, n, Panicked, s')
        || Goto(s, n, Returned, s')
        || (exists op :: Goto(s, n, Writing(op, n), s'))
        || (exists key :: s' == s.(writers := s.writers[n := WithHeader(s.writers[n], key, Goroutine(n))])))
  }

  function WithHeader(w: Writer, key: string, author: Author): Writer {
    w.(headers := w.headers[key := author])
  }

  /** Where a goroutine goes on once a write call has returned. */
  function AfterWrite(n: nat, g: nat, op: Op): Pc {
    if g == n then Handling
    else if op.Head? then Writing(Body, g)
    else Cleanup
  }

  function Emit(op: Op, g: nat): WireEvent {
    match op
    case Head(status) => StatusLine(Goroutine(g), status)
    case Body => Bytes(Goroutine(g))
  }

  /** The writer after the section, the header map below after the flush, and the goroutine
      either done or on its way to the next writer. */
  function WriteResult(s: State, g: nat): State
    requires s.WellFormed() && g < |s.pcs| && s.pcs[g].Writing? && s.pcs[g].level <= g
  {
    var op, k := s.pcs[g].op, s.pcs[g].level;
    var (w, passes) := Gate(op, s.writers[k]);
    var done := s.pcs[g := AfterWrite(s.Depth(), g, op)];
    if !passes then
      s.(pcs := done)
    else if k == 0 then
      s.(writers := s.writers[0 := w], pcs := done, wire := s.wire + [Emit(op, g)])
    else
      var below := s.writers[k - 1];
      var below' := if s.writers[k].written then below else below.(headers := below.headers + w.headers);
      s.(writers := s.writers[k := w][k - 1 := below'], pcs := s.pcs[g := Writing(op, k - 1)])
  }

  ghost predicate WriteStep(s: State, g: nat, s': State)
    requires s.WellFormed() && g < |s.pcs|
  {
    && s.pcs[g].Writing? && s.pcs[g].level <= g
    && !s.Locked(s.pcs[g].level)
    && s' == WriteResult(s, g)
  }

  /** The select of a timeout wrapper, its 408 and its cleanup window. */
  ghost predicate WrapperStep(s: State, g: nat, s': State)
    requires s.WellFormed() && g < s.Depth()
  {
    || (s.pcs[g] == Waiting && s.pcs[g + 1] == Returned && Goto(s, g, Returned, s'))
    || (s.pcs[g] in {Waiting, Cleanup} && s.pcs[g + 1] == Panicked && Goto(s, g, Panicked, s'))
    || (s.pcs[g] == Waiting && !s.Locked(g + 1) && s' == Deadline(s, g))
    || (s.pcs[g] == TimedOut
        && s' == s.(writers := s.writers[g := WithHeader(s.writers[g], CONTENT_TYPE, Goroutine(g))],
                    pcs := s.pcs[g := Writing(Head(REQUEST_TIMEOUT), g)]))
    || (s.pcs[g] == Cleanup && Goto(s, g, Returned, s'))
  }

  function Deadline(s: State, g: nat): State
    requires s.WellFormed() && g < s.Depth()
  {
    var (w, won) := Expire(s.writers[g + 1]);
    s.(writers := s.writers[g + 1 := w], pcs := s.pcs[g := if won then TimedOut else Cleanup])
  }

  /** The deferred recover block: the flag is read once, and the 500 bypasses the wrapper. */
  ghost predicate RecoverStep(s: State, s': State)
    requires s.WellFormed()
  {
    || (s.pcs[0] == Panicked && Goto(s, 0, if s.writers[0].written then Recovered else Sending500, s'))
    || (s.pcs[0] == Sending500
        && s' == State(s.writers[0 := WithHeader(s.writers[0], CONTENT_TYPE, Recovery)],
                       s.pcs[0 := Sending500Body],
                       s.wire + [StatusLine(Recovery, INTERNAL_SERVER_ERROR)]))
    || (s.pcs[0] == Sending500Body
        && s' == s.(pcs := s.pcs[0 := Recovered], wire := s.wire + [Bytes(Recovery)]))
  }

  ghost predicate StepOf(s: State, g: nat, s': State)
    requires s.WellFormed() && g < |s.pcs|
  {
    || (g < s.Depth() && (EnterStep(s, g, s') || WrapperStep(s, g, s')))
    || (g == s.Depth() && HandlerStep(s, s'))
    || WriteStep(s, g, s')
    || (g == 0 && RecoverStep(s, s'))
  }

  ghost predicate Next(s: State, s': State) {
    s.WellFormed() && exists g | 0 <= g < |s.pcs| :: StepOf(s, g, s')
  }

  // ---------- the invariant ----------

  /** Goroutine j may write, and what it writes has passed every writer above k. */
  ghost predicate Reaches(s: State, j: nat, k: nat)
    requires s.WellFormed()
  {
    && k <= j < |s.pcs|
    && (j < s.Depth() ==> s.writers[j + 1].timedOut)
    && forall i | k < i <= j :: s.writers[i].written && !s.writers[i].timedOut
  }

  ghost predicate WritersInv(s: State)
    requires s.WellFormed()
  {
    && !s.writers[0].timedOut
    && (forall k | 0 <= k < |s.writers| :: s.writers[k].timedOut ==> s.writers[k].written)
    && (forall k, key | 0 <= k < |s.writers| && key in s.writers[k].headers ::
          match s.writers[k].headers[key]
          case Goroutine(j) => Reaches(s, j, k)
          case Recovery => k == 0 && s.pcs[0] in {Sending500Body, Recovered} && !s.writers[0].written)
  }

  ghost predicate PcInv(s: State, g: nat)
    requires s.WellFormed() && g < |s.pcs|
  {
    match s.pcs[g]
    case NotStarted => g > 0
    case Entering => g < s.Depth()
    case Waiting => g < s.Depth()
    case Handling => g == s.Depth()
    case Writing(op, level) => Reaches(s, g, level) && (g < s.Depth() ==> op in {Head(REQUEST_TIMEOUT), Body})
    case TimedOut => g < s.Depth() && s.writers[g + 1].timedOut
    case Cleanup => g < s.Depth()
    case Returned => true
    case Panicked => true
    case _ => g == 0
  }

  predicate Down(pc: Pc) {
    pc in {Panicked, Sending500, Sending500Body, Recovered}
  }

  /** A goroutine starts only after its parent waits, and dies of a panic only after its child. */
  ghost predicate OrderInv(s: State)
    requires s.WellFormed()
  {
    && (forall g | 0 <= g < s.Depth() && s.pcs[g] in {NotStarted, Entering} :: s.pcs[g + 1] == NotStarted)
    && (forall g | 0 <= g < s.Depth() && Down(s.pcs[g]) :: s.pcs[g + 1] in {NotStarted, Panicked})
  }

  ghost predicate EventInv(s: State, e: WireEvent)
    requires s.WellFormed()
  {
    match e.author
    case Goroutine(j) =>
      && Reaches(s, j, 0) && s.writers[0].written
      && (j < s.Depth() && e.StatusLine? ==> e.status == REQUEST_TIMEOUT)
    case Recovery =>
      && s.pcs[0] in {Sending500Body, Recovered} && !s.writers[0].written
      && (e.StatusLine? ==> e.status == INTERNAL_SERVER_ERROR)
  }

  ghost predicate WireInv(s: State)
    requires s.WellFormed()
  {
    && (forall i | 0 <= i < |s.wire| :: EventInv(s, s.wire[i]))
    && (forall i | 0 < i < |s.wire| :: s.wire[i].Bytes?)
    && (s.writers[0].written ==> s.wire != [])
    && (s.pcs[0] == Sending500 ==> !s.writers[0].written)
    && (s.pcs[0] == Sending500Body ==> !s.writers[0].written && s.wire == [StatusLine(Recovery, INTERNAL_SERVER_ERROR)])
    && (s.pcs[0] == Recovered && !s.writers[0].written ==>
          s.wire == [StatusLine(Recovery, INTERNAL_SERVER_ERROR), Bytes(Recovery)])
  }

  /** Below a timeout wrapper the wire's header map is touched only on the way to the wire. */
  ghost predicate FlushInv(s: State)
    requires s.WellFormed()
  {
    forall key | key in s.writers[0].headers && s.writers[0].headers[key].Goroutine? && s.Depth() > 0 ::
      s.writers[0].written || AtWire(s)
  }

  ghost predicate AtWire(s: State) {
    exists g | 0 <= g < |s.pcs| :: s.pcs[g].Writing? && s.pcs[g].level == 0
  }

  ghost predicate Inv(s: State) {
    && s.WellFormed()
    && WritersInv(s)
    && (forall g | 0 <= g < |s.pcs| :: PcInv(s, g))
    && OrderInv(s)
    && WireInv(s)
    && FlushInv(s)
  }

  // ---------- preservation ----------

  /** Writers whose claims only grow: a claim is never withdrawn. */
  ghost predicate Grows(s: State, s': State)
    requires s.WellFormed() && s'.WellFormed()
  {
    && |s.pcs| == |s'.pcs|
    && forall k | 0 <= k < |s.writers| ::
         && (s.writers[k].timedOut ==> s'.writers[k].timedOut)
         && (s.writers[k].written ==> s'.writers[k].written && s'.writers[k].timedOut == s.writers[k].timedOut)
  }

  lemma ReachesStable(s: State, s': State)
    requires s.WellFormed() && s'.WellFormed() && Grows(s, s')
    ensures forall j: nat, k: nat :: Reaches(s, j, k) ==> Reaches(s', j, k)
  {
  }

  /** Two goroutines whose output is past the same point are the same goroutine. */
  lemma ReachesUnique(s: State, j: nat, j': nat, k: nat)
    requires s.WellFormed() && Reaches(s, j, k) && Reaches(s, j', k)
    ensures j == j'
  {
  }

  lemma {:induction false} DownBelow(s: State, g: nat)
    requires s.WellFormed() && OrderInv(s) && Down(s.pcs[0]) && 0 < g < |s.pcs|
    ensures s.pcs[g] in {NotStarted, Panicked}
  {
    if g > 1 {
      DownBelow(s, g - 1);
    }
  }

  /** What a step that leaves a goroutine alone keeps about it. */
  lemma PcStable(s: State, s': State)
    requires Inv(s) && s'.WellFormed() && Grows(s, s')
    ensures forall g | 0 <= g < |s.pcs| && s'.pcs[g] == s.pcs[g] :: PcInv(s', g)
    ensures (forall g | 0 <= g < |s.pcs| && s.pcs[g].Writing? :: s'.pcs[g] == s.pcs[g]) ==> AtWire(s) ==> AtWire(s')
  {
    ReachesStable(s, s');
    forall g | 0 <= g < |s.pcs| && s'.pcs[g] == s.pcs[g]
      ensures PcInv(s', g)
    {
      assert PcInv(s, g);
    }
    if (forall g | 0 <= g < |s.pcs| && s.pcs[g].Writing? :: s'.pcs[g] == s.pcs[g]) && AtWire(s) {
      var g :| 0 <= g < |s.pcs| && s.pcs[g].Writing? && s.pcs[g].level == 0;
      assert s'.pcs[g] == s.pcs[g];
    }
  }

  lemma EnterFrame(s: State, g: nat, s': State)
    requires s.WellFormed() && g < s.Depth() && EnterStep(s, g, s') && s.pcs[g + 1] == NotStarted
    ensures Enters(s, g, s')
  {
  }

  lemma EnterPreserves(s: State, g: nat, s': State)
    requires Inv(s) && g < s.Depth() && EnterStep(s, g, s')
    ensures Inv(s')
  {
    assert s.pcs[g + 1] == NotStarted;
    EnterFrame(s, g, s');
    EnterKeepsPcs(s, g, s');
    EnterKeepsWire(s, g, s');
  }

  /** What code above a wrapper does to the goroutines. */
  ghost predicate Enters(s: State, g: nat, s': State)
    requires s.WellFormed() && g < s.Depth()
  {
    && s.pcs[g] == Entering && s.pcs[g + 1] == NotStarted && |s'.pcs| == |s.pcs|
    && s' == s.(pcs := s.pcs[g + 1 := s'.pcs[g + 1]][g := s'.pcs[g]])
    && s'.pcs[g] in {Panicked, Returned, Waiting}
    && s'.pcs[g + 1] in {NotStarted, if g + 1 == s.Depth() then Handling else Entering}
    && (s'.pcs[g + 1] != NotStarted ==> s'.pcs[g] == Waiting)
  }

  lemma EnterKeepsPcs(s: State, g: nat, s': State)
    requires Inv(s) && g < s.Depth() && Enters(s, g, s')
    ensures WritersInv(s') && (forall h | 0 <= h < |s'.pcs| :: PcInv(s', h)) && OrderInv(s')
  {
    ReachesStable(s, s');
    PcStable(s, s');
    assert forall i | 0 <= i < |s.pcs| && i != g && i != g + 1 :: s'.pcs[i] == s.pcs[i];
    assert PcInv(s', g) && PcInv(s', g + 1);
  }

  lemma EnterKeepsWire(s: State, g: nat, s': State)
    requires Inv(s) && g < s.Depth() && Enters(s, g, s')
    ensures WireInv(s') && FlushInv(s')
  {
    ReachesStable(s, s');
    PcStable(s, s');
    assert forall i | 0 <= i < |s.pcs| && i != g && i != g + 1 :: s'.pcs[i] == s.pcs[i];
    forall i | 0 <= i < |s'.wire|
      ensures EventInv(s', s'.wire[i])
    {
      assert EventInv(s, s.wire[i]);
    }
  }

  lemma HandlerPreserves(s: State, s': State)
    requires Inv(s) && HandlerStep(s, s')
    ensures Inv(s')
  {
    var n := s.Depth();
    ReachesStable(s, s');
    PcStable(s, s');
    assert Reaches(s, n, n);
    assert forall i | 0 <= i < |s.pcs| && i != n :: s'.pcs[i] == s.pcs[i];
    assert PcInv(s', n);
    assert WritersInv(s');
  }

  lemma DeadlinePreserves(s: State, g: nat)
    requires Inv(s) && g < s.Depth() && s.pcs[g] == Waiting
    ensures Inv(Deadline(s, g))
  {
    var s' := Deadline(s, g);
    ReachesStable(s, s');
    PcStable(s, s');
    assert forall i | 0 <= i < |s.pcs| && i != g :: s'.pcs[i] == s.pcs[i];
    assert PcInv(s', g);
  }

  /** The 408's header and the start of its status line. */
  lemma AnswerPreserves(s: State, g: nat, s': State)
    requires Inv(s) && g < s.Depth() && WrapperStep(s, g, s') && s.pcs[g] == TimedOut
    ensures Inv(s')
  {
    ReachesStable(s, s');
    PcStable(s, s');
    assert PcInv(s, g);
    assert Reaches(s, g, g);
    assert forall i | 0 <= i < |s.pcs| && i != g :: s'.pcs[i] == s.pcs[i];
    assert PcInv(s', g);
    if g == 0 {
      assert s'.pcs[0].level == 0;
      assert AtWire(s');
    }
    assert WritersInv(s');
  }

  lemma WrapperPreserves(s: State, g: nat, s': State)
    requires Inv(s) && g < s.Depth() && WrapperStep(s, g, s')
    ensures Inv(s')
  {
    if s.pcs[g] == TimedOut {
      AnswerPreserves(s, g, s');
    } else if s.pcs[g] == Waiting && s' == Deadline(s, g) {
      DeadlinePreserves(s, g);
    } else {
      EndPreserves(s, g, s', s'.pcs[g]);
    }
  }

  /** A wrapper that returns, or passes a panic of its handler on. */
  lemma EndPreserves(s: State, g: nat, s': State, pc: Pc)
    requires Inv(s) && g < s.Depth() && s.pcs[g] in {Waiting, Cleanup}
    requires Goto(s, g, pc, s') && (pc == Returned || (pc == Panicked && s.pcs[g + 1] == Panicked))
    ensures Inv(s')
  {
    ReachesStable(s, s');
    PcStable(s, s');
    assert forall i | 0 <= i < |s.pcs| && i != g :: s'.pcs[i] == s.pcs[i];
    assert PcInv(s', g);
  }

  lemma UnwrittenWire(s: State)
    requires Inv(s) && !s.writers[0].written && s.pcs[0] !in {Sending500Body, Recovered}
    ensures s.wire == []
  {
    assert s.wire == [] || EventInv(s, s.wire[0]);
  }

  lemma RecoverPreserves(s: State, s': State)
    requires Inv(s) && RecoverStep(s, s')
    ensures Inv(s')
  {
    RecoverKeepsPcs(s, s');
    RecoverKeepsWire(s, s');
  }

  lemma RecoverKeepsPcs(s: State, s': State)
    requires Inv(s) && RecoverStep(s, s')
    ensures s'.WellFormed() && WritersInv(s') && (forall h | 0 <= h < |s'.pcs| :: PcInv(s', h)) && OrderInv(s')
  {
    ReachesStable(s, s');
    PcStable(s, s');
    assert forall i | 0 < i < |s.pcs| :: s'.pcs[i] == s.pcs[i];
    assert PcInv(s', 0);
  }

  lemma RecoverKeepsWire(s: State, s': State)
    requires Inv(s) && RecoverStep(s, s')
    ensures s'.WellFormed() && WireInv(s') && FlushInv(s')
  {
    ReachesStable(s, s');
    PcStable(s, s');
    assert forall i | 0 < i < |s.pcs| :: s'.pcs[i] == s.pcs[i];
    if s.pcs[0] == Sending500 {
      UnwrittenWire(s);
    }
  }

  /** A write refused at some level: nothing but the goroutine moves. */
  lemma DroppedPreserves(s: State, g: nat)
    requires Inv(s) && g < |s.pcs| && s.pcs[g].Writing?
    requires s.pcs[g].level <= g && !Gate(s.pcs[g].op, s.writers[s.pcs[g].level]).1
    ensures Inv(WriteResult(s, g))
  {
    var s' := WriteResult(s, g);
    ReachesStable(s, s');
    PcStable(s, s');
    assert PcInv(s, g);
    assert Reaches(s, g, g);
    assert PcInv(s', g);
    assert forall i | 0 <= i < |s.pcs| && i != g :: s'.pcs[i] == s.pcs[i];
    if AtWire(s) && !s.writers[0].written {
      var i :| 0 <= i < |s.pcs| && s.pcs[i].Writing? && s.pcs[i].level == 0;
      assert i != g;
    }
  }

  /** A write that reaches the wire. */
  lemma EmittedPreserves(s: State, g: nat)
    requires Inv(s) && g < |s.pcs| && s.pcs[g].Writing? && s.pcs[g].level == 0
    requires Gate(s.pcs[g].op, s.writers[0]).1
    ensures Inv(WriteResult(s, g))
  {
    var s' := WriteResult(s, g);
    ReachesStable(s, s');
    PcStable(s, s');
    assert PcInv(s, g);
    assert Reaches(s, g, g);
    if Down(s.pcs[0]) && g > 0 {
      DownBelow(s, g);
    }
    assert PcInv(s', g);
    assert forall i | 0 <= i < |s.pcs| && i != g :: s'.pcs[i] == s.pcs[i];
    assert EventInv(s', Emit(s.pcs[g].op, g));
    if !s.writers[0].written {
      UnwrittenWire(s);
    }
  }

  lemma PassedWriters(s: State, g: nat)
    requires Inv(s) && g < |s.pcs| && s.pcs[g].Writing? && 0 < s.pcs[g].level <= g
    requires Gate(s.pcs[g].op, s.writers[s.pcs[g].level]).1
    ensures Grows(s, WriteResult(s, g)) && WritersInv(WriteResult(s, g))
  {
    var s', k := WriteResult(s, g), s.pcs[g].level;
    ReachesStable(s, s');
    assert PcInv(s, g);
    assert s'.pcs[0] in {Sending500Body, Recovered} <==> s.pcs[0] in {Sending500Body, Recovered};
    forall i, key | 0 <= i < |s'.writers| && key in s'.writers[i].headers
      ensures match s'.writers[i].headers[key]
              case Goroutine(j) => Reaches(s', j, i)
              case Recovery => i == 0 && s'.pcs[0] in {Sending500Body, Recovered} && !s'.writers[0].written
    {
      if i == k - 1 && !s.writers[k].written && key in s.writers[k].headers {
        FlushedHeader(s, g, key);
      } else {
        assert key in s.writers[i].headers && s'.writers[i].headers[key] == s.writers[i].headers[key];
      }
    }
  }

  /** What a write does to the flags: it takes the writer it passes. */
  lemma WriteFlags(s: State, g: nat)
    requires s.WellFormed() && g < |s.pcs| && s.pcs[g].Writing? && s.pcs[g].level <= g
    ensures var s', k := WriteResult(s, g), s.pcs[g].level;
            && s'.WellFormed() && Grows(s, s') && |s'.pcs| == |s.pcs| && s'.pcs == s.pcs[g := s'.pcs[g]]
            && (forall i | 0 <= i < |s.writers| && i != k ::
                  s'.writers[i].written == s.writers[i].written && s'.writers[i].timedOut == s.writers[i].timedOut)
            && s'.writers[k].timedOut == s.writers[k].timedOut
            && s'.writers[k].written == (s.writers[k].written || Gate(s.pcs[g].op, s.writers[k]).1)
  {
  }

  /** A header flushed from writer k reaches the writer below it. */
  lemma FlushedHeader(s: State, g: nat, key: string)
    requires Inv(s) && g < |s.pcs| && s.pcs[g].Writing? && 0 < s.pcs[g].level <= g
    requires Gate(s.pcs[g].op, s.writers[s.pcs[g].level]).1
    requires key in s.writers[s.pcs[g].level].headers
    ensures s.writers[s.pcs[g].level].headers[key].Goroutine?
    ensures Reaches(WriteResult(s, g), s.writers[s.pcs[g].level].headers[key].index, s.pcs[g].level - 1)
  {
    var s', k := WriteResult(s, g), s.pcs[g].level;
    var j := s.writers[k].headers[key].index;
    assert Reaches(s, j, k);
    WriteFlags(s, g);
    ReachesBelow(s, s', j, k);
  }

  lemma ReachesBelow(s: State, s': State, j: nat, k: nat)
    requires s.WellFormed() && s'.WellFormed() && Grows(s, s') && Reaches(s, j, k) && k > 0
    requires s'.writers[k].written && !s'.writers[k].timedOut
    ensures Reaches(s', j, k - 1)
  {
  }

  /** A write that passes a timeoutWriter: its headers move one level down. */
  lemma PassedPreserves(s: State, g: nat)
    requires Inv(s) && g < |s.pcs| && s.pcs[g].Writing? && 0 < s.pcs[g].level <= g
    requires Gate(s.pcs[g].op, s.writers[s.pcs[g].level]).1
    ensures Inv(WriteResult(s, g))
  {
    var s', k := WriteResult(s, g), s.pcs[g].level;
    PassedWriters(s, g);
    ReachesStable(s, s');
    PcStable(s, s');
    assert PcInv(s, g);
    assert Reaches(s', g, k - 1);
    assert PcInv(s', g);
    assert forall i | 0 <= i < |s.pcs| && i != g :: s'.pcs[i] == s.pcs[i];
    if k == 1 {
      assert s'.pcs[g].level == 0;
      assert AtWire(s');
    } else if AtWire(s) {
      var i :| 0 <= i < |s.pcs| && s.pcs[i].Writing? && s.pcs[i].level == 0;
      assert s'.pcs[i] == s.pcs[i];
      assert AtWire(s');
    }
  }

  lemma WritePreserves(s: State, g: nat, s': State)
    requires Inv(s) && g < |s.pcs| && WriteStep(s, g, s')
    ensures Inv(s')
  {
    if !Gate(s.pcs[g].op, s.writers[s.pcs[g].level]).1 {
      DroppedPreserves(s, g);
    } else if s.pcs[g].level == 0 {
      EmittedPreserves(s, g);
    } else {
      PassedPreserves(s, g);
    }
  }

  lemma StepPreserves(s: State, s': State)
    requires Inv(s) && Next(s, s')
    ensures Inv(s')
  {
    var g :| 0 <= g < |s.pcs| && StepOf(s, g, s');
    if g < s.Depth() && EnterStep(s, g, s') {
      EnterPreserves(s, g, s');
    } else if g < s.Depth() && WrapperStep(s, g, s') {
      WrapperPreserves(s, g, s');
    } else if g == s.Depth() && HandlerStep(s, s') {
      HandlerPreserves(s, s');
    } else if WriteStep(s, g, s') {
      WritePreserves(s, g, s');
    } else {
      RecoverPreserves(s, s');
    }
  }
}
