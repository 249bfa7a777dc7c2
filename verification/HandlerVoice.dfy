/** The handler's own writes in the response race: what stands on the wire in its name it has
    said, and what it says in time is heard. */
module HandlerVoice {
  import opened ResponseHeads
  import opened ResponseRace
  import opened ResponseRuns

  /** The handler has been about to write this at some time up to i. */
  ghost predicate Said(run: seq<State>, i: nat, op: Op) {
    exists k | 0 <= k <= i && k < |run| ::
      run[k].WellFormed() && run[k].pcs[run[k].Depth()] == Writing(op, run[k].Depth())
  }

  /** What the handler's goroutine carries, and what stands on the wire in its name. */
  ghost predicate Carried(s: State, op: Op)
    requires s.WellFormed()
  {
    || (s.pcs[s.Depth()].Writing? && s.pcs[s.Depth()].op == op)
    || match op
       case Head(status) => StatusLine(Goroutine(s.Depth()), status) in s.wire
       case Body => Bytes(Goroutine(s.Depth())) in s.wire
  }

  lemma CarriedBefore(s: State, s': State, op: Op)
    requires Inv(s) && Next(s, s') && s'.WellFormed() && |s'.pcs| == |s.pcs| && Carried(s', op)
    ensures Carried(s, op) || s'.pcs[s'.Depth()] == Writing(op, s'.Depth())
  {
    var g :| 0 <= g < |s.pcs| && StepOf(s, g, s');
    if g < s.Depth() {
      OthersCarryNothing(s, g, s', op);
    } else if WriteStep(s, g, s') {
      WriteCarries(s, op);
    } else {
      OwnMove(s, s', op);
    }
  }

  lemma OwnMove(s: State, s': State, op: Op)
    requires s.WellFormed() && s'.WellFormed() && |s'.pcs| == |s.pcs| && Carried(s', op)
    requires HandlerStep(s, s') || (s.Depth() == 0 && RecoverStep(s, s'))
    ensures Carried(s, op) || s'.pcs[s'.Depth()] == Writing(op, s'.Depth())
  {
  }

  lemma OthersCarryNothing(s: State, g: nat, s': State, op: Op)
    requires Inv(s) && g < s.Depth() && StepOf(s, g, s') && s'.WellFormed() && |s'.pcs| == |s.pcs|
    requires Carried(s', op)
    ensures Carried(s, op)
  {
    if WriteStep(s, g, s') {
      WriteFlags(s, g);
      WireOfWrite(s, g);
    } else if WrapperStep(s, g, s') {
      if s.pcs[g] == Waiting && s' == Deadline(s, g) && !s.writers[g + 1].written {
        DeadlineFlags(s, g);
      } else {
        QuietWrapper(s, g, s');
      }
    } else if EnterStep(s, g, s') {
      assert s.pcs[g + 1] == NotStarted;
      EnterFrame(s, g, s');
    }
  }

  lemma WireOfWrite(s: State, g: nat)
    requires s.WellFormed() && g < |s.pcs| && s.pcs[g].Writing? && s.pcs[g].level <= g
    ensures var s' := WriteResult(s, g);
            s'.wire == s.wire || exists e: WireEvent :: e.author == Goroutine(g) && s'.wire == s.wire + [e]
  {
    assert Emit(s.pcs[g].op, g).author == Goroutine(g);
  }

  lemma WriteCarries(s: State, op: Op)
    requires Inv(s) && s.pcs[s.Depth()].Writing? && s.pcs[s.Depth()].level <= s.Depth()
    requires WriteResult(s, s.Depth()).WellFormed() && |WriteResult(s, s.Depth()).pcs| == |s.pcs|
    requires Carried(WriteResult(s, s.Depth()), op)
    ensures Carried(s, op)
  {
  }

  lemma {:induction false} OnlySaid(run: seq<State>, j: nat, op: Op)
    requires IsRun(run) && j < |run| && run[j].WellFormed() && Carried(run[j], op)
    ensures Said(run, j, op)
  {
    RunInv(run, j);
    if j > 0 {
      RunInv(run, j - 1);
      assert Next(run[j - 1], run[j - 1 + 1]);
      StepGrows(run[j - 1], run[j]);
      CarriedBefore(run[j - 1], run[j], op);
      if Carried(run[j - 1], op) {
        OnlySaid(run, j - 1, op);
      }
    }
  }

  /** Whatever stands on the wire in the handler's name, its status line included, the handler
      has written. */
  lemma HandlerSaidIt(run: seq<State>, j: nat, a: nat)
    requires IsRun(run) && j < |run| && run[j].WellFormed() && a < |run[j].wire|
    requires run[j].wire[a].author == Goroutine(run[j].Depth())
    ensures match run[j].wire[a]
            case StatusLine(_, status) => Said(run, j, Head(status))
            case Bytes(_) => Said(run, j, Body)
  {
    match run[j].wire[a]
    case StatusLine(_, status) => OnlySaid(run, j, Head(status));
    case Bytes(_) => OnlySaid(run, j, Body);
  }

  /** Every wrapper waiting over a fresh writer, and the handler at work. */
  function AllWaiting(depth: nat, entered: nat, pc: Pc): State
    requires entered <= depth
  {
    State(seq(depth + 1, k => FRESH_WRITER),
          seq(depth + 1, k => if k < entered then Waiting else if k == entered then pc else NotStarted), [])
  }

  lemma {:induction false} HandlerReached(depth: nat, entered: nat)
    requires entered <= depth
    ensures Reachable(AllWaiting(depth, entered, if entered == depth then Handling else Entering))
  {
    var s := AllWaiting(depth, entered, if entered == depth then Handling else Entering);
    if entered == 0 {
      assert IsRun([s]) && [s][|[s]| - 1] == s;
    } else {
      HandlerReached(depth, entered - 1);
      var before := AllWaiting(depth, entered - 1, Entering);
      assert s.pcs == before.pcs[entered - 1 := Waiting][entered := s.pcs[entered]];
      assert EnterStep(before, entered - 1, s);
      Extend(before, entered - 1, s);
    }
  }

  /** The handler's one header and its status line, past the writers above `level`. */
  function HeadAt(depth: nat, status: int, key: string, level: nat): State
    requires level <= depth
  {
    var own := map[key := Goroutine(depth)];
    State(seq(depth + 1, k => if k > level then Writer(own, true, false)
                              else if k == level then Writer(own, false, false)
                              else FRESH_WRITER),
          seq(depth + 1, k => if k < depth then Waiting else Writing(Head(status), level)), [])
  }

  lemma HeadSent(depth: nat, status: int, key: string)
    ensures Reachable(HeadAt(depth, status, key, depth))
  {
    HandlerReached(depth, depth);
    var before := AllWaiting(depth, depth, Handling);
    var headed := before.(writers := before.writers[depth := WithHeader(before.writers[depth], key, Goroutine(depth))]);
    assert HandlerStep(before, headed);
    Extend(before, depth, headed);
    var s := HeadAt(depth, status, key, depth);
    assert s.writers == headed.writers;
    assert s.pcs == headed.pcs[depth := Writing(Head(status), depth)];
    assert Goto(headed, depth, Writing(Head(status), depth), s) && HandlerStep(headed, s);
    Extend(headed, depth, s);
  }

  lemma HeadMovesOn(depth: nat, status: int, key: string, level: nat)
    requires level < depth
    ensures WriteResult(HeadAt(depth, status, key, level + 1), depth) == HeadAt(depth, status, key, level)
  {
    var next := WriteResult(HeadAt(depth, status, key, level + 1), depth);
    var s := HeadAt(depth, status, key, level);
    assert map[] + map[key := Goroutine(depth)] == map[key := Goroutine(depth)];
    assert next.writers == s.writers && next.pcs == s.pcs;
  }

  lemma {:induction false} HeadPasses(depth: nat, status: int, key: string, level: nat)
    requires level <= depth
    ensures Reachable(HeadAt(depth, status, key, level))
    decreases depth - level
  {
    if level == depth {
      HeadSent(depth, status, key);
    } else {
      HeadPasses(depth, status, key, level + 1);
      var before, s := HeadAt(depth, status, key, level + 1), HeadAt(depth, status, key, level);
      WritesNeverWait(before, depth);
      HeadMovesOn(depth, status, key, level);
      assert StepOf(before, depth, s);
      Extend(before, depth, s);
    }
  }

  /** At every depth a handler that is in time gets every status to the wire as its own, and
      every header with it. */
  lemma HandlerHeard(depth: nat, status: int, key: string) returns (s: State)
    ensures Reachable(s) && s.Depth() == depth && s.wire == [StatusLine(Goroutine(depth), status)]
    ensures s.writers[0].headers == map[key := Goroutine(depth)]
  {
    HeadPasses(depth, status, key, 0);
    var before := HeadAt(depth, status, key, 0);
    WritesNeverWait(before, depth);
    s := WriteResult(before, depth);
    assert StepOf(before, depth, s);
    Extend(before, depth, s);
  }
}
