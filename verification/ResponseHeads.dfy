/** The way of a 408 to the wire, in the response race: its head meets only writers that nobody
    has taken (pkg/http_server/chi_server/middleware.go). */
module ResponseHeads {
  import opened ResponseRace

  /** Nothing has gone through this writer, or nothing can any more. */
  predicate Untaken(w: Writer) {
    !w.written || w.timedOut
  }

  /** From writer k down, each writer is taken, as far as the wire or the first one that has
      timed out. */
  ghost predicate Sunk(s: State, k: nat)
    requires k < |s.writers|
  {
    s.writers[k].written && (s.writers[k].timedOut || k == 0 || Sunk(s, k - 1))
  }

  /** Output goes through the inner writers first. */
  ghost predicate ChainInv(s: State) {
    forall k | 0 < k < |s.writers| && !s.writers[k].written :: Untaken(s.writers[k - 1])
  }

  /** The head of a 408 is still to go through the writer it is at. */
  ghost predicate FrontierInv(s: State)
    requires s.WellFormed()
  {
    forall j | 0 <= j < s.Depth() ::
      && (s.pcs[j] == TimedOut ==> Untaken(s.writers[j]))
      && (s.pcs[j].Writing? && s.pcs[j].op.Head? && s.pcs[j].level < |s.writers| ==>
            Untaken(s.writers[s.pcs[j].level]))
  }

  predicate Answering(pc: Pc) {
    pc == TimedOut || (pc.Writing? && pc.op.Head?)
  }

  /** A declared timeout is being answered, or its answer has gone as far as it can. */
  ghost predicate DeliveryInv(s: State)
    requires s.WellFormed()
  {
    forall j | 0 <= j < s.Depth() && s.writers[j + 1].timedOut && !Answering(s.pcs[j]) :: Sunk(s, j)
  }

  /** The writer of a wrapper that is not installed yet is unused. */
  ghost predicate StartInv(s: State)
    requires s.WellFormed()
  {
    forall g | 0 <= g < s.Depth() && s.pcs[g] in {NotStarted, Entering} :: !s.writers[g + 1].written
  }

  /** What a timeout wrapper sends begins with its 408. */
  ghost predicate FirstInv(s: State)
    requires s.WellFormed()
  {
    s.wire != [] && s.wire[0].author.Goroutine? && s.wire[0].author.index < s.Depth() ==>
      s.wire[0] == StatusLine(s.wire[0].author, REQUEST_TIMEOUT)
  }

  ghost predicate HeadInv(s: State) {
    s.WellFormed() && ChainInv(s) && FrontierInv(s) && DeliveryInv(s) && StartInv(s) && FirstInv(s)
  }

  lemma {:induction false} SunkStable(s: State, s': State, k: nat)
    requires s.WellFormed() && s'.WellFormed() && Grows(s, s') && k < |s.writers| && Sunk(s, k)
    ensures Sunk(s', k)
  {
    if k > 0 && !s.writers[k].timedOut {
      SunkStable(s, s', k - 1);
    }
  }

  lemma {:induction false} SunkUp(s: State, k: nat, j: nat)
    requires k <= j < |s.writers| && Sunk(s, k) && forall i | k < i <= j :: s.writers[i].written
    ensures Sunk(s, j)
  {
    if k < j {
      SunkUp(s, k, j - 1);
    }
  }

  lemma {:induction false} SunkDown(s: State, k: nat, j: nat)
    requires k <= j < |s.writers| && Sunk(s, j) && forall i | k < i <= j :: !s.writers[i].timedOut
    ensures Sunk(s, k)
  {
    if k < j {
      SunkDown(s, k, j - 1);
    }
  }

  lemma {:induction false} NotStartedAbove(s: State, g: nat, h: nat)
    requires s.WellFormed() && OrderInv(s) && g < h < |s.pcs|
    ensures s.pcs[g] in {NotStarted, Entering} ==> s.pcs[h] == NotStarted
  {
    if g < h - 1 {
      NotStartedAbove(s, g, h - 1);
    }
  }

  /** No writer is taken. */
  ghost predicate SameFlags(s: State, s': State) {
    && |s'.writers| == |s.writers|
    && forall k | 0 <= k < |s.writers| ::
         s'.writers[k].written == s.writers[k].written && s'.writers[k].timedOut == s.writers[k].timedOut
  }

  /** Goroutine g may go on to pc without taking a writer: to write its 408, or to something
      else when the answer has gone as far as it can. */
  ghost predicate MayMove(s: State, g: nat, pc: Pc)
    requires s.WellFormed() && g < |s.pcs|
  {
    && (pc in {NotStarted, Entering} ==> s.pcs[g] in {NotStarted, Entering})
    && (g < s.Depth() ==>
          || (s.pcs[g] == TimedOut && pc == Writing(Head(REQUEST_TIMEOUT), g))
          || (!Answering(pc) && (Answering(s.pcs[g]) && s.writers[g + 1].timedOut ==> Sunk(s, g))))
  }

  lemma MoveKeepsFrontier(s: State, s': State, g: nat)
    requires HeadInv(s) && s'.WellFormed() && SameFlags(s, s') && g < |s.pcs|
    requires s'.pcs == s.pcs[g := s'.pcs[g]] && MayMove(s, g, s'.pcs[g])
    ensures ChainInv(s') && FrontierInv(s') && StartInv(s')
  {
    assert forall k | 0 <= k < |s.writers| :: Untaken(s'.writers[k]) == Untaken(s.writers[k]);
    assert forall j | 0 <= j < |s.pcs| && j != g :: s'.pcs[j] == s.pcs[j];
  }

  lemma MoveKeepsHeads(s: State, s': State, g: nat)
    requires HeadInv(s) && s'.WellFormed() && SameFlags(s, s') && g < |s.pcs|
    requires s'.pcs == s.pcs[g := s'.pcs[g]] && MayMove(s, g, s'.pcs[g]) && FirstInv(s')
    ensures HeadInv(s')
  {
    MoveKeepsFrontier(s, s', g);
    MoveKeepsDelivery(s, s', g);
  }

  lemma MoveKeepsDelivery(s: State, s': State, g: nat)
    requires s.WellFormed() && DeliveryInv(s) && s'.WellFormed() && SameFlags(s, s') && g < |s.pcs|
    requires s'.pcs == s.pcs[g := s'.pcs[g]] && MayMove(s, g, s'.pcs[g])
    ensures DeliveryInv(s')
  {
    forall j | 0 <= j < s.Depth() && s'.writers[j + 1].timedOut && !Answering(s'.pcs[j])
      ensures Sunk(s', j)
    {
      assert s.writers[j + 1].timedOut;
      assert j != g ==> s'.pcs[j] == s.pcs[j];
      SunkStable(s, s', j);
    }
  }

  lemma DeadlineFlags(s: State, g: nat)
    requires s.WellFormed() && g < s.Depth() && !s.writers[g + 1].written
    ensures var s' := Deadline(s, g);
            && s'.WellFormed() && Grows(s, s') && s'.pcs == s.pcs[g := TimedOut] && s'.wire == s.wire
            && s'.writers[g + 1].written && s'.writers[g + 1].timedOut
            && forall k | 0 <= k < |s.writers| && k != g + 1 :: s'.writers[k] == s.writers[k]
  {
  }

  lemma DeadlineKeepsHeads(s: State, g: nat)
    requires Inv(s) && HeadInv(s) && g < s.Depth() && s.pcs[g] == Waiting && !s.writers[g + 1].written
    ensures HeadInv(Deadline(s, g))
  {
    var s' := Deadline(s, g);
    DeadlineFlags(s, g);
    assert Untaken(s.writers[g + 1 - 1]);
    assert forall k | 0 <= k < |s.writers| :: Untaken(s.writers[k]) ==> Untaken(s'.writers[k]);
    FrontierStable(s, s', g);
    DeadlineKeepsChain(s, g);
    DeadlineKeepsDelivery(s, g);
  }

  lemma DeadlineKeepsChain(s: State, g: nat)
    requires HeadInv(s) && g < s.Depth() && s.pcs[g] == Waiting && !s.writers[g + 1].written
    ensures ChainInv(Deadline(s, g)) && StartInv(Deadline(s, g))
  {
    DeadlineFlags(s, g);
  }

  lemma DeadlineKeepsDelivery(s: State, g: nat)
    requires s.WellFormed() && DeliveryInv(s) && g < s.Depth() && !s.writers[g + 1].written
    ensures DeliveryInv(Deadline(s, g))
  {
    var s' := Deadline(s, g);
    DeadlineFlags(s, g);
    forall j | 0 <= j < s.Depth() && s'.writers[j + 1].timedOut && !Answering(s'.pcs[j])
      ensures Sunk(s', j)
    {
      assert j != g && s.pcs[j] == s'.pcs[j];
      StaysDelivered(s, s', j);
    }
  }

  /** The frontier after a deadline has made goroutine g the one to answer. */
  lemma FrontierStable(s: State, s': State, g: nat)
    requires HeadInv(s) && s'.WellFormed() && g < s.Depth() && s'.pcs == s.pcs[g := TimedOut]
    requires Untaken(s.writers[g])
    requires forall k | 0 <= k < |s.writers| :: Untaken(s.writers[k]) ==> Untaken(s'.writers[k])
    ensures FrontierInv(s')
  {
    forall j | 0 <= j < s.Depth()
      ensures s'.pcs[j] == TimedOut ==> Untaken(s'.writers[j])
      ensures s'.pcs[j].Writing? && s'.pcs[j].op.Head? && s'.pcs[j].level < |s'.writers| ==>
                Untaken(s'.writers[s'.pcs[j].level])
    {
      if j != g {
        assert s'.pcs[j] == s.pcs[j];
      }
    }
  }

  /** The head of a 408 that is refused has met a writer that has timed out. */
  lemma RefusedHead(s: State, g: nat)
    requires Inv(s) && HeadInv(s) && g < s.Depth() && s.pcs[g].Writing? && s.pcs[g].op.Head? && s.pcs[g].level <= g
    requires !Gate(s.pcs[g].op, s.writers[s.pcs[g].level]).1
    ensures Sunk(s, g)
  {
    assert PcInv(s, g);
    assert s.writers[s.pcs[g].level].timedOut;
    SunkUp(s, s.pcs[g].level, g);
  }

  lemma DroppedKeepsHeads(s: State, g: nat)
    requires Inv(s) && HeadInv(s) && g < |s.pcs| && s.pcs[g].Writing? && s.pcs[g].level <= g
    requires !Gate(s.pcs[g].op, s.writers[s.pcs[g].level]).1
    ensures HeadInv(WriteResult(s, g))
  {
    if g < s.Depth() && s.pcs[g].op.Head? {
      RefusedHead(s, g);
    }
    var s' := WriteResult(s, g);
    assert s' == s.(pcs := s.pcs[g := AfterWrite(s.Depth(), g, s.pcs[g].op)]);
    MoveKeepsHeads(s, s', g);
  }

  /** Only the goroutine that passes a writer was at it. */
  lemma TakenByOne(s: State, g: nat, j: nat)
    requires Inv(s) && g < |s.pcs| && s.pcs[g].Writing? && s.pcs[g].level <= g && j < s.Depth() && j != g
    ensures s.pcs[j] == TimedOut ==> s.pcs[g].level != j
    ensures s.pcs[j].Writing? ==> s.pcs[j].level != s.pcs[g].level
  {
    assert PcInv(s, g) && PcInv(s, j);
  }

  lemma PassedKeepsChain(s: State, g: nat)
    requires Inv(s) && HeadInv(s) && g < |s.pcs| && s.pcs[g].Writing? && s.pcs[g].level <= g
    requires Gate(s.pcs[g].op, s.writers[s.pcs[g].level]).1
    ensures ChainInv(WriteResult(s, g)) && StartInv(WriteResult(s, g))
  {
    var s', k := WriteResult(s, g), s.pcs[g].level;
    WriteFlags(s, g);
    assert PcInv(s, g);
    assert k + 1 < |s.writers| ==> s.writers[k + 1].written;
    forall j | 0 <= j < s.Depth()
      ensures s'.pcs[j] in {NotStarted, Entering} ==> !s'.writers[j + 1].written
    {
      if j + 1 == k {
        NotStartedAbove(s, j, g);
      }
    }
  }

  lemma PassedKeepsFrontier(s: State, g: nat)
    requires Inv(s) && HeadInv(s) && g < |s.pcs| && s.pcs[g].Writing? && s.pcs[g].level <= g
    requires Gate(s.pcs[g].op, s.writers[s.pcs[g].level]).1
    ensures FrontierInv(WriteResult(s, g))
  {
    var s', k := WriteResult(s, g), s.pcs[g].level;
    WriteFlags(s, g);
    forall j | 0 <= j < s.Depth()
      ensures s'.pcs[j] == TimedOut ==> Untaken(s'.writers[j])
      ensures s'.pcs[j].Writing? && s'.pcs[j].op.Head? && s'.pcs[j].level < |s'.writers| ==>
                Untaken(s'.writers[s'.pcs[j].level])
    {
      if j != g {
        OtherFrontier(s, g, j);
      } else {
        PassedHeadNext(s, g);
      }
    }
  }

  lemma OtherFrontier(s: State, g: nat, j: nat)
    requires Inv(s) && HeadInv(s) && g < |s.pcs| && s.pcs[g].Writing? && s.pcs[g].level <= g
    requires j < s.Depth() && j != g
    ensures var s' := WriteResult(s, g);
            && (s'.pcs[j] == TimedOut ==> Untaken(s'.writers[j]))
            && (s'.pcs[j].Writing? && s'.pcs[j].op.Head? && s'.pcs[j].level < |s'.writers| ==>
                  Untaken(s'.writers[s'.pcs[j].level]))
  {
    WriteFlags(s, g);
    TakenByOne(s, g, j);
    assert WriteResult(s, g).pcs[j] == s.pcs[j];
  }

  /** The next writer of a head that has passed one is untaken as well. */
  lemma PassedHeadNext(s: State, g: nat)
    requires Inv(s) && HeadInv(s) && g < s.Depth() && s.pcs[g].Writing? && s.pcs[g].level <= g
    requires Gate(s.pcs[g].op, s.writers[s.pcs[g].level]).1
    ensures var s' := WriteResult(s, g);
            && s'.pcs[g] != TimedOut
            && (s'.pcs[g].Writing? && s'.pcs[g].op.Head? && s'.pcs[g].level < |s'.writers| ==>
                  Untaken(s'.writers[s'.pcs[g].level]))
  {
    var k := s.pcs[g].level;
    WriteFlags(s, g);
    if k > 0 && s.pcs[g].op.Head? {
      assert Untaken(s.writers[k - 1]);
    }
  }

  lemma PassedKeepsDelivery(s: State, g: nat)
    requires Inv(s) && HeadInv(s) && g < |s.pcs| && s.pcs[g].Writing? && s.pcs[g].level <= g
    requires Gate(s.pcs[g].op, s.writers[s.pcs[g].level]).1
    ensures DeliveryInv(WriteResult(s, g))
  {
    var s' := WriteResult(s, g);
    WriteFlags(s, g);
    forall j | 0 <= j < s.Depth() && s'.writers[j + 1].timedOut && !Answering(s'.pcs[j])
      ensures Sunk(s', j)
    {
      DeliveredAt(s, g, s', j);
    }
  }

  lemma DeliveredAt(s: State, g: nat, s': State, j: nat)
    requires Inv(s) && HeadInv(s) && g < |s.pcs| && s.pcs[g].Writing? && s.pcs[g].level <= g
    requires Gate(s.pcs[g].op, s.writers[s.pcs[g].level]).1 && s' == WriteResult(s, g)
    requires s'.WellFormed() && Grows(s, s') && s'.pcs == s.pcs[g := s'.pcs[g]]
    requires forall i | 0 <= i < |s.writers| :: s'.writers[i].timedOut == s.writers[i].timedOut
    requires j < s.Depth() && s'.writers[j + 1].timedOut && !Answering(s'.pcs[j])
    ensures Sunk(s', j)
  {
    if Answering(s.pcs[j]) {
      DeliveredHead(s, g);
    } else {
      StaysDelivered(s, s', j);
    }
  }

  lemma StaysDelivered(s: State, s': State, j: nat)
    requires s.WellFormed() && DeliveryInv(s) && s'.WellFormed() && Grows(s, s')
    requires j < s.Depth() && s.writers[j + 1].timedOut && !Answering(s.pcs[j])
    ensures Sunk(s', j)
  {
    SunkStable(s, s', j);
  }

  /** A head that is done has taken every writer down to the wire. */
  lemma DeliveredHead(s: State, g: nat)
    requires Inv(s) && g < s.Depth() && s.pcs[g].Writing? && s.pcs[g].level <= g
    requires Gate(s.pcs[g].op, s.writers[s.pcs[g].level]).1
    requires Answering(s.pcs[g]) && !Answering(WriteResult(s, g).pcs[g])
    ensures Sunk(WriteResult(s, g), g)
  {
    WriteFlags(s, g);
    assert PcInv(s, g);
    assert s.pcs[g].level == 0;
    SunkUp(WriteResult(s, g), 0, g);
  }

  lemma EmittedFirst(s: State, g: nat)
    requires Inv(s) && HeadInv(s) && g < |s.pcs| && s.pcs[g].Writing? && s.pcs[g].level == 0
    requires Gate(s.pcs[g].op, s.writers[0]).1
    ensures FirstInv(WriteResult(s, g))
  {
    assert PcInv(s, g);
    if s.wire == [] && g < s.Depth() && s.pcs[g].op.Body? {
      SunkDown(s, 0, g);
      assert false;
    }
  }

  lemma WriteKeepsHeads(s: State, g: nat)
    requires Inv(s) && HeadInv(s) && g < |s.pcs| && s.pcs[g].Writing? && s.pcs[g].level <= g
    ensures HeadInv(WriteResult(s, g))
  {
    if !Gate(s.pcs[g].op, s.writers[s.pcs[g].level]).1 {
      DroppedKeepsHeads(s, g);
    } else {
      WriteFlags(s, g);
      PassedKeepsChain(s, g);
      PassedKeepsFrontier(s, g);
      PassedKeepsDelivery(s, g);
      if s.pcs[g].level == 0 {
        EmittedFirst(s, g);
      }
    }
  }

  lemma RecoverKeepsFirst(s: State, s': State)
    requires Inv(s) && HeadInv(s) && RecoverStep(s, s')
    ensures s'.WellFormed() && FirstInv(s')
  {
    if s.pcs[0] == Sending500 {
      UnwrittenWire(s);
    }
  }

  lemma RecoverKeepsHeads(s: State, s': State)
    requires Inv(s) && HeadInv(s) && RecoverStep(s, s')
    ensures HeadInv(s')
  {
    RecoverKeepsFirst(s, s');
    assert s'.pcs == s.pcs[0 := s'.pcs[0]];
    MoveKeepsHeads(s, s', 0);
  }

  lemma EnterKeepsHeads(s: State, g: nat, s': State)
    requires Inv(s) && HeadInv(s) && g < s.Depth() && EnterStep(s, g, s')
    ensures HeadInv(s')
  {
    assert s.pcs[g + 1] == NotStarted;
    EnterFrame(s, g, s');
    var child := s.(pcs := s.pcs[g + 1 := s'.pcs[g + 1]]);
    MoveKeepsHeads(s, child, g + 1);
    MoveKeepsHeads(child, s', g);
  }

  lemma WrapperKeepsHeads(s: State, g: nat, s': State)
    requires Inv(s) && HeadInv(s) && g < s.Depth() && WrapperStep(s, g, s')
    ensures HeadInv(s')
  {
    if s.pcs[g] == Waiting && s' == Deadline(s, g) && !s.writers[g + 1].written {
      DeadlineKeepsHeads(s, g);
    } else {
      QuietWrapper(s, g, s');
      MoveKeepsHeads(s, s', g);
    }
  }

  /** A wrapper's step that is not a won race takes no writer. */
  lemma QuietWrapper(s: State, g: nat, s': State)
    requires s.WellFormed() && g < s.Depth() && WrapperStep(s, g, s')
    requires !(s.pcs[g] == Waiting && s' == Deadline(s, g) && !s.writers[g + 1].written)
    ensures |s'.pcs| == |s.pcs| && s'.wire == s.wire && s'.pcs == s.pcs[g := s'.pcs[g]]
    ensures SameFlags(s, s')
    ensures s'.pcs[g] == (if s.pcs[g] == TimedOut then Writing(Head(REQUEST_TIMEOUT), g) else s'.pcs[g])
    ensures s.pcs[g] != TimedOut ==> s'.pcs[g] in {Returned, Panicked, Cleanup} && s.pcs[g] in {Waiting, Cleanup}
  {
  }

  lemma HandlerKeepsHeads(s: State, s': State)
    requires Inv(s) && HeadInv(s) && HandlerStep(s, s')
    ensures HeadInv(s')
  {
    var n := s.Depth();
    assert s'.wire == s.wire && s'.pcs == s.pcs[n := s'.pcs[n]];
    MoveKeepsHeads(s, s', n);
  }

  lemma StepKeepsHeads(s: State, s': State)
    requires Inv(s) && HeadInv(s) && Next(s, s')
    ensures HeadInv(s')
  {
    var g :| 0 <= g < |s.pcs| && StepOf(s, g, s');
    if g < s.Depth() && EnterStep(s, g, s') {
      EnterKeepsHeads(s, g, s');
    } else if g < s.Depth() && WrapperStep(s, g, s') {
      WrapperKeepsHeads(s, g, s');
    } else if g == s.Depth() && HandlerStep(s, s') {
      HandlerKeepsHeads(s, s');
    } else if WriteStep(s, g, s') {
      WriteKeepsHeads(s, g);
    } else {
      RecoverKeepsHeads(s, s');
    }
  }
}
