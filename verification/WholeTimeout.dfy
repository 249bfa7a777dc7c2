/** The whole answer of a timed-out request in the response race: status line, body and
    content type. */
module WholeTimeout {
  import opened ResponseHeads
  import opened ResponseRace
  import opened ResponseRuns

  /** How far the answer of the outermost wrapper has got, once that has timed out. */
  ghost predicate OutermostInv(s: State)
    requires s.WellFormed()
  {
    s.Depth() > 0 ==>
      && (s.pcs[0] in {NotStarted, Entering, Waiting} ==> !s.writers[1].timedOut)
      && (s.writers[1].timedOut ==>
            if Answering(s.pcs[0]) then s.wire == []
            else if s.pcs[0].Writing? then s.wire == [StatusLine(Goroutine(0), 408)]
            else s.wire == [StatusLine(Goroutine(0), 408), Bytes(Goroutine(0))])
  }

  lemma OutermostOwnWrite(s: State)
    requires Inv(s) && HeadInv(s) && OutermostInv(s) && s.Depth() > 0 && s.pcs[0].Writing?
    ensures s.pcs[0].level == 0 && OutermostInv(WriteResult(s, 0))
  {
    assert PcInv(s, 0);
    if Answering(s.pcs[0]) {
      assert Untaken(s.writers[0]);
    }
  }

  lemma OutermostStep(s: State, s': State)
    requires Inv(s) && HeadInv(s) && OutermostInv(s) && Next(s, s') && s'.WellFormed() && Grows(s, s')
    ensures OutermostInv(s')
  {
    var g :| 0 <= g < |s.pcs| && StepOf(s, g, s');
    if s.Depth() > 0 {
      if g > 0 {
        OthersLeaveOutermost(s, g, s');
      } else if WriteStep(s, 0, s') {
        OutermostOwnWrite(s);
      } else {
        OutermostMoves(s, s');
      }
    }
  }

  lemma OthersLeaveOutermost(s: State, g: nat, s': State)
    requires Inv(s) && OutermostInv(s) && 0 < g < |s.pcs| && StepOf(s, g, s')
    requires s'.WellFormed() && Grows(s, s')
    ensures OutermostInv(s')
  {
    OthersSame(s, g, s');
  }

  lemma OthersSame(s: State, g: nat, s': State)
    requires Inv(s) && 0 < g < |s.pcs| && StepOf(s, g, s') && s'.WellFormed() && Grows(s, s')
    ensures s'.pcs[0] == s.pcs[0] && s'.writers[1].timedOut == s.writers[1].timedOut
    ensures s.writers[1].timedOut ==> s'.wire == s.wire
  {
    if WriteStep(s, g, s') {
      WriteFlags(s, g);
      WireHeldBack(s, g);
    } else if g < s.Depth() && WrapperStep(s, g, s') {
      if s.pcs[g] == Waiting && s' == Deadline(s, g) && !s.writers[g + 1].written {
        DeadlineFlags(s, g);
      } else {
        QuietWrapper(s, g, s');
      }
    } else if g < s.Depth() && EnterStep(s, g, s') {
      assert s.pcs[g + 1] == NotStarted;
      EnterFrame(s, g, s');
    }
  }

  /** After the outermost timeout the others' writes do not get to the wire. */
  lemma WireHeldBack(s: State, g: nat)
    requires Inv(s) && 0 < g < |s.pcs| && s.pcs[g].Writing? && s.pcs[g].level <= g
    ensures s.writers[1].timedOut ==> WriteResult(s, g).wire == s.wire
  {
    assert PcInv(s, g);
  }

  lemma OutermostMoves(s: State, s': State)
    requires Inv(s) && HeadInv(s) && OutermostInv(s) && s.Depth() > 0 && s'.WellFormed() && Grows(s, s')
    requires EnterStep(s, 0, s') || WrapperStep(s, 0, s') || RecoverStep(s, s')
    ensures OutermostInv(s')
  {
    if s.pcs[0] == Waiting && !s.writers[1].written && s' == Deadline(s, 0) {
      assert Untaken(s.writers[1 - 1]);
      UnwrittenWire(s);
    }
  }

  lemma {:induction false} OutermostAlong(run: seq<State>, i: nat)
    requires IsRun(run) && i < |run|
    ensures run[i].WellFormed() && OutermostInv(run[i])
  {
    if i > 0 {
      OutermostAlong(run, i - 1);
      RunInv(run, i - 1);
      assert Next(run[i - 1], run[i - 1 + 1]);
      StepGrows(run[i - 1], run[i]);
      OutermostStep(run[i - 1], run[i]);
    }
  }

  ghost predicate Typed(s: State)
    requires s.WellFormed()
  {
    "Content-Type" in s.writers[0].headers
  }

  /** Whoever answers in the place of the handler has set the content type before. */
  ghost predicate TypedInv(s: State)
    requires s.WellFormed()
  {
    && (s.Depth() > 0 && s.writers[1].timedOut && s.pcs[0] != TimedOut ==> Typed(s))
    && (s.pcs[0] == Sending500Body || (s.pcs[0] == Recovered && !s.writers[0].written) ==> Typed(s))
  }

  lemma TypedStays(s: State, g: nat, s': State)
    requires Inv(s) && g < |s.pcs| && StepOf(s, g, s') && s'.WellFormed() && Grows(s, s') && Typed(s)
    ensures Typed(s')
  {
    if WriteStep(s, g, s') {
      TypedWrite(s, g);
    } else if g < s.Depth() && EnterStep(s, g, s') {
      EnterFrame(s, g, s');
    }
  }

  lemma TypedWrite(s: State, g: nat)
    requires s.WellFormed() && g < |s.pcs| && s.pcs[g].Writing? && s.pcs[g].level <= g && Typed(s)
    ensures WriteResult(s, g).WellFormed() && Typed(WriteResult(s, g))
  {
  }

  lemma TypedStep(s: State, s': State)
    requires Inv(s) && OutermostInv(s) && TypedInv(s) && Next(s, s') && s'.WellFormed() && Grows(s, s')
    ensures TypedInv(s')
  {
    var g :| 0 <= g < |s.pcs| && StepOf(s, g, s');
    if Typed(s) {
      TypedStays(s, g, s');
    } else if s.Depth() > 0 && g > 0 {
      OthersSame(s, g, s');
    } else if WriteStep(s, 0, s') {
      WriteFlags(s, 0);
    } else {
      UntypedMoves(s, s');
    }
  }

  /** The steps of the request goroutine that lead to an answer of its own set the type. */
  lemma UntypedMoves(s: State, s': State)
    requires Inv(s) && OutermostInv(s) && TypedInv(s) && StepOf(s, 0, s') && s'.WellFormed() && Grows(s, s')
    requires !Typed(s) && !WriteStep(s, 0, s')
    ensures TypedInv(s')
  {
  }

  lemma {:induction false} TypedAlong(run: seq<State>, i: nat)
    requires IsRun(run) && i < |run|
    ensures run[i].WellFormed() && TypedInv(run[i])
  {
    if i > 0 {
      TypedAlong(run, i - 1);
      OutermostAlong(run, i - 1);
      RunInv(run, i - 1);
      assert Next(run[i - 1], run[i - 1 + 1]);
      StepGrows(run[i - 1], run[i]);
      TypedStep(run[i - 1], run[i]);
    }
  }

  /** Once the outermost wrapper has timed out and is done, the response is the 408 and its
      body, and nothing else, under the content type the wrapper has set. */
  lemma TimeoutWhole(s: State)
    requires Reachable(s) && s.Depth() > 0 && s.writers[1].timedOut
    requires s.pcs[0] != TimedOut && !s.pcs[0].Writing?
    ensures s.wire == [StatusLine(Goroutine(0), 408), Bytes(Goroutine(0))]
    ensures "Content-Type" in s.writers[0].headers && s.writers[0].headers["Content-Type"] == Goroutine(0)
  {
    var run :| IsRun(run) && run[|run| - 1] == s;
    OutermostAlong(run, |run| - 1);
    TypedAlong(run, |run| - 1);
    HeadersOfAuthor(s, "Content-Type");
  }

  /** The 500 of the recover block goes out with a content type. */
  lemma RecoveredTyped(s: State)
    requires Reachable(s) && s.pcs[0] == Recovered && !s.writers[0].written
    ensures "Content-Type" in s.writers[0].headers
    ensures s.Depth() > 0 ==> s.writers[0].headers["Content-Type"] == Recovery
  {
    var run :| IsRun(run) && run[|run| - 1] == s;
    TypedAlong(run, |run| - 1);
    PanicAnswered(s);
    if s.Depth() > 0 {
      HeadersOfAuthor(s, "Content-Type");
    }
  }
}
