/** Middlewares of the response race that answer by themselves instead of calling on. */
module EarlyAnswer {
  import opened ResponseHeads
  import opened ResponseRace
  import opened ResponseRuns

  /** Code above wrapper g + 1 that does not call on is the handler of a request with g
      wrappers: the wrappers further in do not exist for it. */
  function Cut(s: State, g: nat): State
    requires s.WellFormed() && g < |s.pcs|
  {
    State(s.writers[..g + 1], s.pcs[..g + 1][g := if s.pcs[g] == Entering then Handling else s.pcs[g]], s.wire)
  }

  ghost predicate NotPast(s: State, g: nat) {
    s.WellFormed() && OrderInv(s) && g < s.Depth() && s.pcs[g] in {NotStarted, Entering}
  }

  lemma CutLocked(s: State, g: nat, k: nat)
    requires NotPast(s, g)
    ensures Cut(s, g).WellFormed() && (Cut(s, g).Locked(k) ==> s.Locked(k))
  {
    var c := Cut(s, g);
    if h :| 0 <= h < |c.pcs| && c.pcs[h].Writing? && c.pcs[h].level < k <= h {
      assert s.pcs[h] == c.pcs[h];
    }
  }

  /** Only goroutines outside g move while g is not past its entry. */
  lemma CutMover(s: State, g: nat, h: nat, s': State)
    requires NotPast(s, g) && NotPast(s', g) && h < |s.pcs| && StepOf(s, h, s') && |s'.pcs| == |s.pcs|
    ensures h < g
  {
    if h > g {
      NotStartedAbove(s, g, h);
    }
    EntryLeaves(s, h, s');
  }

  /** A goroutine that has not started takes no step, and one at its entry leaves it. */
  lemma EntryLeaves(s: State, h: nat, s': State)
    requires s.WellFormed() && h < |s.pcs| == |s'.pcs| && StepOf(s, h, s')
    ensures s.pcs[h] != NotStarted
    ensures s.pcs[h] == Entering ==> s'.pcs[h] in {Waiting, Returned, Panicked}
  {
  }

  lemma CutEnter(s: State, g: nat, h: nat, s': State)
    requires NotPast(s, g) && NotPast(s', g) && h < g && EnterStep(s, h, s') && |s'.pcs| == |s.pcs|
    ensures EnterStep(Cut(s, g), h, Cut(s', g))
  {
    var c, c' := Cut(s, g), Cut(s', g);
    assert s'.writers == s.writers && s'.wire == s.wire;
    if s'.pcs[h] == Waiting {
      assert c'.pcs == c.pcs[h := Waiting][h + 1 := if h + 1 == g then Handling else Entering];
    } else {
      assert s' == s.(pcs := s.pcs[h := s'.pcs[h]]);
      assert c'.pcs == c.pcs[h := s'.pcs[h]];
    }
  }

  lemma CutWrapper(s: State, g: nat, h: nat, s': State)
    requires NotPast(s, g) && NotPast(s', g) && h < g && WrapperStep(s, h, s') && |s'.pcs| == |s.pcs|
    ensures WrapperStep(Cut(s, g), h, Cut(s', g))
  {
    var c, c' := Cut(s, g), Cut(s', g);
    CutLocked(s, g, h + 1);
    assert s'.pcs == s.pcs[h := s'.pcs[h]];
    assert c'.pcs == c.pcs[h := s'.pcs[h]];
    assert c.pcs[h] == s.pcs[h] && (s.pcs[h + 1] in {Returned, Panicked} ==> c.pcs[h + 1] == s.pcs[h + 1]);
    if s.pcs[h] == TimedOut {
      assert c'.writers == c.writers[h := WithHeader(c.writers[h], CONTENT_TYPE, Goroutine(h))];
    } else if s'.writers == s.writers {
      assert c'.writers == c.writers;
    } else {
      assert c'.writers == c.writers[h + 1 := Expire(c.writers[h + 1]).0];
    }
  }

  lemma CutWrite(s: State, g: nat, h: nat, s': State)
    requires NotPast(s, g) && NotPast(s', g) && h < g && WriteStep(s, h, s') && |s'.pcs| == |s.pcs|
    ensures WriteStep(Cut(s, g), h, Cut(s', g))
  {
    var c, c', k := Cut(s, g), Cut(s', g), s.pcs[h].level;
    CutLocked(s, g, k);
    var done := WriteResult(c, h);
    assert c.pcs[h] == s.pcs[h] && c.writers[k] == s.writers[k];
    assert c'.pcs == c.pcs[h := s'.pcs[h]] == done.pcs;
    assert c'.writers == done.writers;
  }

  lemma CutRecover(s: State, g: nat, s': State)
    requires NotPast(s, g) && NotPast(s', g) && 0 < g && RecoverStep(s, s') && |s'.pcs| == |s.pcs|
    ensures RecoverStep(Cut(s, g), Cut(s', g))
  {
    var c, c' := Cut(s, g), Cut(s', g);
    assert s'.pcs == s.pcs[0 := s'.pcs[0]];
    assert c'.pcs == c.pcs[0 := s'.pcs[0]];
    if s.pcs[0] == Sending500 {
      assert c'.writers == c.writers[0 := WithHeader(c.writers[0], CONTENT_TYPE, Recovery)];
    }
  }

  lemma CutStep(s: State, g: nat, s': State)
    requires NotPast(s, g) && NotPast(s', g) && Next(s, s') && |s'.pcs| == |s.pcs|
    ensures Next(Cut(s, g), Cut(s', g))
  {
    var h :| 0 <= h < |s.pcs| && StepOf(s, h, s');
    CutMover(s, g, h, s');
    if EnterStep(s, h, s') {
      CutEnter(s, g, h, s');
    } else if WrapperStep(s, h, s') {
      CutWrapper(s, g, h, s');
    } else if WriteStep(s, h, s') {
      CutWrite(s, g, h, s');
    } else {
      CutRecover(s, g, s');
    }
    assert StepOf(Cut(s, g), h, Cut(s', g));
  }

  /** Nothing goes back to before its entry. */
  lemma NotPastBefore(s: State, g: nat, s': State)
    requires Next(s, s') && OrderInv(s) && g < |s.pcs| == |s'.pcs| && s'.pcs[g] in {NotStarted, Entering}
    ensures s.pcs[g] in {NotStarted, Entering}
  {
    var h :| 0 <= h < |s.pcs| && StepOf(s, h, s');
    if h < s.Depth() && EnterStep(s, h, s') {
      assert s.pcs[h + 1] == NotStarted;
      EnterFrame(s, h, s');
    } else {
      OneMoves(s, h, s');
    }
  }

  lemma OneMoves(s: State, h: nat, s': State)
    requires s.WellFormed() && h < |s.pcs| && StepOf(s, h, s') && !(h < s.Depth() && EnterStep(s, h, s'))
    ensures |s'.pcs| == |s.pcs| && s'.pcs == s.pcs[h := s'.pcs[h]] && s'.pcs[h] !in {NotStarted, Entering}
  {
  }

  lemma CutInit(s: State, g: nat)
    requires Init(s) && NotPast(s, g)
    ensures Reachable(Cut(s, g))
  {
    var c := Cut(s, g);
    assert Init(c);
    assert IsRun([c]) && [c][|[c]| - 1] == c;
  }

  lemma BeforeEntry(s: State, s': State, g: nat)
    requires Inv(s) && Inv(s') && Next(s, s') && g < s'.Depth() && s'.pcs[g] in {NotStarted, Entering}
    ensures |s.pcs| == |s'.pcs| && NotPast(s, g) && NotPast(s', g)
  {
    StepGrows(s, s');
    NotPastBefore(s, g, s');
  }

  lemma CutExtends(s: State, s': State, g: nat)
    requires NotPast(s, g) && NotPast(s', g) && |s.pcs| == |s'.pcs| && Next(s, s')
    requires Reachable(Cut(s, g))
    ensures Reachable(Cut(s', g))
  {
    CutStep(s, g, s');
    ExtendNext(Cut(s, g), Cut(s', g));
  }

  lemma {:induction false} CutRun(run: seq<State>, g: nat)
    requires IsRun(run) && NotPast(run[|run| - 1], g)
    ensures Reachable(Cut(run[|run| - 1], g))
  {
    if |run| == 1 {
      CutInit(run[0], g);
    } else {
      var n := |run| - 1;
      RunInv(run, n - 1);
      RunInv(run, n);
      BeforeEntry(run[n - 1], run[n], g);
      assert IsRun(run[..n]);
      CutRun(run[..n], g);
      CutExtends(run[n - 1], run[n], g);
    }
  }

  /** Whenever code above a wrapper answers by itself instead of calling on, what follows is a
      run with fewer wrappers in which that code is the handler, so that everything proved of
      handlers is proved of it. */
  lemma EarlyAnswerCovered(s: State, g: nat)
    requires Reachable(s) && g < s.Depth() && s.pcs[g] == Entering
    ensures Reachable(Cut(s, g)) && Cut(s, g).Depth() == g && Cut(s, g).pcs[g] == Handling
    ensures Cut(s, g).wire == s.wire && forall k | 0 <= k <= g :: Cut(s, g).writers[k] == s.writers[k]
  {
    var run :| IsRun(run) && run[|run| - 1] == s;
    RunInv(run, |run| - 1);
    CutRun(run, g);
  }
}
