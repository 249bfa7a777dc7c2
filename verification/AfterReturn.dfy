/** What may still happen in the response race after the request goroutine has returned. */
module AfterReturn {
  import opened ResponseHeads
  import opened ResponseRace
  import opened ResponseRuns

  /** No timeout has closed the way from goroutine g to the wire. */
  ghost predicate OpenTo(s: State, g: nat)
    requires s.WellFormed() && g < |s.pcs|
  {
    forall i | 0 < i <= g :: !s.writers[i].timedOut
  }

  /** Goroutine g is writing or may come to: the handler is not done, or a timeout wrapper may
      still send a 408. */
  ghost predicate CanWrite(s: State, g: nat)
    requires s.WellFormed() && g < |s.pcs|
  {
    match s.pcs[g]
    case Entering => true
    case Waiting => g < s.Depth() && !s.writers[g + 1].written
    case Handling => true
    case Writing(_, _) => true
    case TimedOut => true
    case _ => false
  }

  ghost predicate StillWriting(s: State)
    requires s.WellFormed()
  {
    exists g | 0 < g < |s.pcs| :: CanWrite(s, g) && OpenTo(s, g)
  }

  ghost predicate IsPath(path: seq<State>) {
    path != [] && forall i | 0 <= i < |path| - 1 :: Next(path[i], path[i + 1])
  }

  ghost predicate LeadsTo(s: State, s': State) {
    exists path :: IsPath(path) && path[0] == s && path[|path| - 1] == s'
  }

  lemma FrozenStep(s: State, s': State)
    requires Inv(s) && s.pcs[0] == Returned && !StillWriting(s) && Next(s, s')
    ensures s'.WellFormed() && s'.pcs[0] == Returned && !StillWriting(s') && s'.wire == s.wire
  {
    var g :| 0 <= g < |s.pcs| && StepOf(s, g, s');
    StepGrows(s, s');
    assert g > 0;
    assert CanWrite(s, g) ==> !OpenTo(s, g);
    forall h | 0 < h < |s'.pcs| && CanWrite(s', h)
      ensures !OpenTo(s', h)
    {
      FrozenGoroutine(s, g, s', h);
    }
    if WriteStep(s, g, s') {
      assert PcInv(s, g);
    }
  }

  /** A goroutine that could not write and be heard cannot after a step. */
  lemma FrozenGoroutine(s: State, g: nat, s': State, h: nat)
    requires Inv(s) && !StillWriting(s) && 0 < g < |s.pcs| && StepOf(s, g, s')
    requires s'.WellFormed() && Grows(s, s') && 0 < h < |s.pcs| && CanWrite(s', h)
    ensures !OpenTo(s', h)
  {
    if CanWrite(s, h) {
      assert !OpenTo(s, h);
    } else {
      assert h == g + 1 && s.pcs[g] == Entering;
      assert CanWrite(s, g) && !OpenTo(s, g);
    }
  }

  lemma {:induction false} FrozenPath(path: seq<State>, i: nat)
    requires IsPath(path) && i < |path| && Inv(path[0]) && path[0].pcs[0] == Returned && !StillWriting(path[0])
    ensures Inv(path[i]) && path[i].pcs[0] == Returned && !StillWriting(path[i]) && path[i].wire == path[0].wire
  {
    if i > 0 {
      FrozenPath(path, i - 1);
      assert Next(path[i - 1], path[i - 1 + 1]);
      StepPreserves(path[i - 1], path[i]);
      FrozenStep(path[i - 1], path[i]);
    }
  }

  lemma LeadsOn(s: State, m: State, s': State)
    requires Next(s, m) && LeadsTo(m, s')
    ensures LeadsTo(s, s')
  {
    var path :| IsPath(path) && path[0] == m && path[|path| - 1] == s';
    var longer := [s] + path;
    forall i | 0 <= i < |longer| - 1
      ensures Next(longer[i], longer[i + 1])
    {
      assert longer[i + 1] == path[i];
      if i > 0 {
        assert longer[i] == path[i - 1] && Next(path[i - 1], path[i - 1 + 1]);
      }
    }
    assert IsPath(longer) && longer[|longer| - 1] == s';
  }

  lemma LeadsByOne(s: State, s': State)
    requires Next(s, s')
    ensures LeadsTo(s, s')
  {
    assert IsPath([s, s']) && [s, s'][0] == s && [s, s'][|[s, s']| - 1] == s';
  }

  lemma WriteNext(s: State, g: nat)
    requires Inv(s) && g < |s.pcs| && s.pcs[g].Writing?
    ensures s.pcs[g].level <= g && Next(s, WriteResult(s, g)) && Inv(WriteResult(s, g))
  {
    Unlocked(s, g);
    assert StepOf(s, g, WriteResult(s, g));
    StepPreserves(s, WriteResult(s, g));
  }

  /** Bytes for which the way is open get to the wire. */
  lemma {:induction false} BodyArrives(s: State, g: nat) returns (s': State)
    requires Inv(s) && g < |s.pcs| && s.pcs[g].Writing? && s.pcs[g].op.Body? && OpenTo(s, g)
    ensures LeadsTo(s, s') && |s'.wire| > |s.wire|
    decreases if s.pcs[g].Writing? then s.pcs[g].level else 0
  {
    WriteNext(s, g);
    WriteFlags(s, g);
    var next := WriteResult(s, g);
    if s.pcs[g].level == 0 {
      s' := next;
      LeadsByOne(s, s');
    } else {
      assert next.pcs[g] == Writing(Body, s.pcs[g].level - 1) && next.wire == s.wire;
      s' := BodyArrives(next, g);
      LeadsOn(s, next, s');
    }
  }

  /** The handler writes some bytes. */
  lemma HandlerArrives(s: State) returns (s': State)
    requires Inv(s) && s.pcs[s.Depth()] == Handling && OpenTo(s, s.Depth())
    ensures LeadsTo(s, s') && |s'.wire| > |s.wire|
  {
    var n := s.Depth();
    var next := s.(pcs := s.pcs[n := Writing(Body, n)]);
    assert Goto(s, n, Writing(Body, n), next);
    assert HandlerStep(s, next) && StepOf(s, n, next);
    StepPreserves(s, next);
    s' := BodyArrives(next, n);
    LeadsOn(s, next, s');
  }

  /** A head gets to the wire, or is refused and what follows it gets there. */
  lemma {:induction false} HeadArrives(s: State, g: nat) returns (s': State)
    requires Inv(s) && g < |s.pcs| && s.pcs[g].Writing? && s.pcs[g].op.Head? && OpenTo(s, g)
    ensures LeadsTo(s, s') && |s'.wire| > |s.wire|
    decreases if s.pcs[g].Writing? then s.pcs[g].level else 0
  {
    WriteNext(s, g);
    WriteFlags(s, g);
    var next, k := WriteResult(s, g), s.pcs[g].level;
    if !Gate(s.pcs[g].op, s.writers[k]).1 {
      assert next.wire == s.wire;
      if g == s.Depth() {
        s' := HandlerArrives(next);
      } else {
        s' := BodyArrives(next, g);
      }
      LeadsOn(s, next, s');
    } else if k == 0 {
      s' := next;
      LeadsByOne(s, s');
    } else {
      assert next.pcs[g] == Writing(s.pcs[g].op, k - 1) && next.wire == s.wire;
      s' := HeadArrives(next, g);
      LeadsOn(s, next, s');
    }
  }

  lemma WritingArrives(s: State, g: nat) returns (s': State)
    requires Inv(s) && g < |s.pcs| && s.pcs[g].Writing? && OpenTo(s, g)
    ensures LeadsTo(s, s') && |s'.wire| > |s.wire|
  {
    if s.pcs[g].op.Body? {
      s' := BodyArrives(s, g);
    } else {
      s' := HeadArrives(s, g);
    }
  }

  /** A wrapper that has won sends its 408. */
  lemma TimedOutArrives(s: State, g: nat) returns (s': State)
    requires Inv(s) && g < s.Depth() && s.pcs[g] == TimedOut && OpenTo(s, g)
    ensures LeadsTo(s, s') && |s'.wire| > |s.wire|
  {
    var next := s.(writers := s.writers[g := WithHeader(s.writers[g], CONTENT_TYPE, Goroutine(g))],
                   pcs := s.pcs[g := Writing(Head(REQUEST_TIMEOUT), g)]);
    assert WrapperStep(s, g, next) && StepOf(s, g, next);
    StepPreserves(s, next);
    s' := WritingArrives(next, g);
    LeadsOn(s, next, s');
  }

  /** A wrapper over an unused writer may time out and win. */
  lemma WaitingArrives(s: State, g: nat) returns (s': State)
    requires Inv(s) && g < s.Depth() && s.pcs[g] == Waiting && !s.writers[g + 1].written && OpenTo(s, g)
    ensures LeadsTo(s, s') && |s'.wire| > |s.wire|
  {
    var next := Deadline(s, g);
    forall h | 0 <= h < |s.pcs| && s.pcs[h].Writing?
      ensures !(s.pcs[h].level < g + 1 <= h)
    {
      assert PcInv(s, h);
    }
    assert WrapperStep(s, g, next) && StepOf(s, g, next);
    StepPreserves(s, next);
    DeadlineFlags(s, g);
    s' := TimedOutArrives(next, g);
    LeadsOn(s, next, s');
  }

  lemma EnteringArrives(s: State, g: nat) returns (s': State)
    requires Inv(s) && HeadInv(s) && g < s.Depth() && s.pcs[g] == Entering && OpenTo(s, g)
    ensures LeadsTo(s, s') && |s'.wire| > |s.wire|
  {
    var next := s.(pcs := s.pcs[g := Waiting][g + 1 := if g + 1 == s.Depth() then Handling else Entering]);
    assert EnterStep(s, g, next) && StepOf(s, g, next);
    StepPreserves(s, next);
    s' := WaitingArrives(next, g);
    LeadsOn(s, next, s');
  }

  /** The request goroutine may return while its handler is still writing: after that the
      wire can still grow exactly if some goroutine may write and no timeout has closed its
      way. In particular it cannot once the outermost wrapper has timed out. */
  lemma WireAfterReturn(s: State)
    requires Reachable(s) && s.pcs[0] == Returned
    ensures (exists s' :: LeadsTo(s, s') && s'.wire != s.wire) <==> StillWriting(s)
    ensures s.Depth() > 0 && s.writers[1].timedOut ==> !StillWriting(s)
  {
    ReachableInv(s);
    if StillWriting(s) {
      var g :| 0 < g < |s.pcs| && CanWrite(s, g) && OpenTo(s, g);
      assert PcInv(s, g);
      var s' := Arrives(s, g);
    }
    if s' :| LeadsTo(s, s') && s'.wire != s.wire && !StillWriting(s) {
      var path :| IsPath(path) && path[0] == s && path[|path| - 1] == s';
      FrozenPath(path, |path| - 1);
    }
  }

  lemma Arrives(s: State, g: nat) returns (s': State)
    requires Inv(s) && HeadInv(s) && g < |s.pcs| && CanWrite(s, g) && OpenTo(s, g)
    ensures LeadsTo(s, s') && |s'.wire| > |s.wire|
  {
    assert PcInv(s, g);
    match s.pcs[g]
    case Entering => s' := EnteringArrives(s, g);
    case Waiting => s' := WaitingArrives(s, g);
    case Handling => s' := HandlerArrives(s);
    case Writing(_, _) => s' := WritingArrives(s, g);
    case TimedOut => s' := TimedOutArrives(s, g);
  }

  /** The handler has begun its response, the wrapper has lost the race and returned without
      waiting, and the handler is still at work. */
  lemma ReturnedTooEarly() returns (s: State)
    ensures Reachable(s) && s.Depth() == 1 && s.pcs == [Returned, Handling]
    ensures s.wire == [Bytes(Goroutine(1))] && StillWriting(s)
  {
    var begun := ResponseBegun();
    var lost := begun.(pcs := [Cleanup, Handling]);
    assert Deadline(begun, 0) == lost;
    ByWrapper(begun, lost);
    s := lost.(pcs := [Returned, Handling]);
    ByWrapper(lost, s);
    assert CanWrite(s, 1) && OpenTo(s, 1);
  }

  const TAKEN_WRITER := Writer(map[], true, false)

  lemma ResponseBegun() returns (s: State)
    ensures Reachable(s) && s == State([TAKEN_WRITER, TAKEN_WRITER], [Waiting, Handling], [Bytes(Goroutine(1))])
  {
    var writing := HandlerWrites();
    var passed := State([FRESH_WRITER, TAKEN_WRITER], [Waiting, Writing(Body, 0)], []);
    ByWrite(writing, passed);
    s := State([TAKEN_WRITER, TAKEN_WRITER], [Waiting, Handling], [Bytes(Goroutine(1))]);
    ByWrite(passed, s);
  }

  lemma HandlerWrites() returns (s: State)
    ensures Reachable(s) && s == State([FRESH_WRITER, FRESH_WRITER], [Waiting, Writing(Body, 1)], [])
  {
    var first := State([FRESH_WRITER, FRESH_WRITER], [Entering, NotStarted], []);
    assert IsRun([first]) && [first][|[first]| - 1] == first;
    var started := first.(pcs := [Waiting, Handling]);
    assert EnterStep(first, 0, started);
    Extend(first, 0, started);
    s := started.(pcs := [Waiting, Writing(Body, 1)]);
    assert Goto(started, 1, Writing(Body, 1), s) && HandlerStep(started, s);
    Extend(started, 1, s);
  }

  lemma ByWrapper(s: State, s': State)
    requires Reachable(s) && s.Depth() == 1 && WrapperStep(s, 0, s') && s'.WellFormed()
    ensures Reachable(s')
  {
    Extend(s, 0, s');
  }

  lemma ByWrite(s: State, s': State)
    requires Reachable(s) && s.Depth() == 1 && s.pcs[1].Writing? && s.pcs[1].level <= 1 && s' == WriteResult(s, 1)
    ensures Reachable(s')
  {
    WritesNeverWait(s, 1);
    assert StepOf(s, 1, s');
    Extend(s, 1, s');
  }
}
