/** What every run of the response race guarantees: one author, its status and headers, an
    answer for every timeout and panic, and no deadlock. */
module ResponseRuns {
  import opened ResponseHeads
  import opened ResponseRace

  ghost predicate IsRun(run: seq<State>) {
    && run != [] && Init(run[0])
    && forall i | 0 <= i < |run| - 1 :: Next(run[i], run[i + 1])
  }

  ghost predicate Reachable(s: State) {
    s.WellFormed() && exists run :: IsRun(run) && run[|run| - 1] == s
  }

  lemma {:induction false} RunInv(run: seq<State>, i: nat)
    requires IsRun(run) && i < |run|
    ensures Inv(run[i]) && HeadInv(run[i])
  {
    if i > 0 {
      RunInv(run, i - 1);
      StepPreserves(run[i - 1], run[i]);
      StepKeepsHeads(run[i - 1], run[i]);
    }
  }

  lemma Extend(s: State, g: nat, s': State)
    requires Reachable(s) && g < |s.pcs| && StepOf(s, g, s') && s'.WellFormed()
    ensures Reachable(s')
  {
    var run :| IsRun(run) && run[|run| - 1] == s;
    var longer := run + [s'];
    assert forall i | 0 <= i < |run| :: longer[i] == run[i];
    assert IsRun(longer) && longer[|longer| - 1] == s';
  }

  lemma ExtendNext(s: State, s': State)
    requires Reachable(s) && Next(s, s') && s'.WellFormed()
    ensures Reachable(s')
  {
    var g :| 0 <= g < |s.pcs| && StepOf(s, g, s');
    Extend(s, g, s');
  }

  lemma ReachableInv(s: State)
    requires Reachable(s)
    ensures Inv(s) && HeadInv(s)
  {
    var run :| IsRun(run) && run[|run| - 1] == s;
    RunInv(run, |run| - 1);
  }

  /** Nobody else's bytes are mixed in: the whole response has one author, with at most one
      status line and nothing before it. */
  lemma SingleAuthor(s: State)
    requires Reachable(s)
    ensures forall a, b | 0 <= a < b < |s.wire| :: s.wire[a].author == s.wire[b].author
    ensures forall a | 0 < a < |s.wire| :: s.wire[a].Bytes?
  {
    ReachableInv(s);
    forall a, b | 0 <= a < b < |s.wire|
      ensures s.wire[a].author == s.wire[b].author
    {
      assert EventInv(s, s.wire[a]) && EventInv(s, s.wire[b]);
      if s.writers[0].written {
        ReachesUnique(s, s.wire[a].author.index, s.wire[b].author.index, 0);
      }
    }
  }

  /** The author decides the status: a timeout wrapper sends 408 and the recover block 500.
      Either of them is the author only if the handler is not. */
  lemma StatusByAuthor(s: State, a: nat)
    requires Reachable(s) && a < |s.wire|
    ensures s.wire[a].author == Recovery || s.wire[a].author.index <= s.Depth()
    ensures s.wire[a].author == Recovery && s.wire[a].StatusLine? ==> s.wire[a].status == 500
    ensures s.wire[a].author.Goroutine? && s.wire[a].author.index < s.Depth() && s.wire[a].StatusLine? ==>
              s.wire[a].status == 408
    ensures s.wire[a].author == Goroutine(s.Depth()) ==>
              forall b | 0 <= b < |s.wire| :: s.wire[b].author == Goroutine(s.Depth())
  {
    ReachableInv(s);
    assert EventInv(s, s.wire[a]);
    SingleAuthor(s);
  }

  /** Under at least one timeout wrapper, the header map of a response that has been started
      holds headers of its author only. */
  lemma HeadersOfAuthor(s: State, key: string)
    requires Reachable(s) && s.Depth() > 0 && s.wire != [] && key in s.writers[0].headers
    ensures s.writers[0].headers[key] == s.wire[0].author
  {
    ReachableInv(s);
    assert EventInv(s, s.wire[0]);
    match s.writers[0].headers[key]
    case Recovery =>
    case Goroutine(j) =>
      assert Reaches(s, j, 0);
      if s.writers[0].written {
        ReachesUnique(s, j, s.wire[0].author.index, 0);
      } else {
        var g :| 0 <= g < |s.pcs| && s.pcs[g].Writing? && s.pcs[g].level == 0;
        DownBelow(s, g);
        assert false;
      }
  }

  /** Under a response that has begun, the wire's map holds a header of somebody else. */
  ghost predicate ForeignHeader(s: State, key: string) {
    && Reachable(s) && s.wire != [] && key in s.writers[0].headers
    && s.writers[0].headers[key] != s.wire[0].author
  }

  /** That takes a request without any timeout wrapper: there the handler's headers go straight
      into the wire's map, and a panic sends them with the 500. */
  lemma ForeignHeaderExactly(depth: nat)
    ensures (exists s, key :: ForeignHeader(s, key) && s.Depth() == depth) <==> depth == 0
  {
    if depth == 0 {
      assert "Cache-Control"[1] != CONTENT_TYPE[1];
      var s := HeaderUnder500("Cache-Control");
      assert ForeignHeader(s, "Cache-Control");
    }
    if s, key :| ForeignHeader(s, key) && s.Depth() == depth && depth > 0 {
      HeadersOfAuthor(s, key);
    }
  }

  /** A handler that sets a header and panics. */
  lemma HeaderUnder500(key: string) returns (s: State)
    requires key != CONTENT_TYPE
    ensures Reachable(s) && s.Depth() == 0 && s.wire == [StatusLine(Recovery, INTERNAL_SERVER_ERROR)]
    ensures key in s.writers[0].headers && s.writers[0].headers[key] == Goroutine(0)
  {
    var headed := HeaderSet(key);
    var panicked := headed.(pcs := [Panicked]);
    assert Goto(headed, 0, Panicked, panicked);
    ByHandler(headed, panicked);
    var sending := panicked.(pcs := [Sending500]);
    assert Goto(panicked, 0, Sending500, sending);
    ByRecover(panicked, sending);
    s := State(sending.writers[0 := WithHeader(sending.writers[0], CONTENT_TYPE, Recovery)],
               sending.pcs[0 := Sending500Body], sending.wire + [StatusLine(Recovery, INTERNAL_SERVER_ERROR)]);
    ByRecover(sending, s);
  }

  lemma HeaderSet(key: string) returns (s: State)
    ensures Reachable(s) && s == State([WithHeader(FRESH_WRITER, key, Goroutine(0))], [Handling], [])
  {
    var first := State([FRESH_WRITER], [Handling], []);
    assert IsRun([first]) && [first][|[first]| - 1] == first;
    s := first.(writers := first.writers[0 := WithHeader(first.writers[0], key, Goroutine(0))]);
    ByHandler(first, s);
  }

  lemma ByHandler(s: State, s': State)
    requires Reachable(s) && s.Depth() == 0 && HandlerStep(s, s') && s'.WellFormed()
    ensures Reachable(s')
  {
    Extend(s, 0, s');
  }

  lemma ByRecover(s: State, s': State)
    requires Reachable(s) && RecoverStep(s, s') && s'.WellFormed()
    ensures Reachable(s')
  {
    Extend(s, 0, s');
  }

  lemma StepGrows(s: State, s': State)
    requires Next(s, s')
    ensures s'.WellFormed() && Grows(s, s')
  {
    var g :| 0 <= g < |s.pcs| && StepOf(s, g, s');
    if WriteStep(s, g, s') {
      WriteFlags(s, g);
    } else if g < s.Depth() && WrapperStep(s, g, s') {
      if s.pcs[g] == Waiting && s' == Deadline(s, g) && !s.writers[g + 1].written {
        DeadlineFlags(s, g);
      } else {
        QuietWrapper(s, g, s');
      }
    } else {
      OtherGrows(s, g, s');
    }
  }

  lemma OtherGrows(s: State, g: nat, s': State)
    requires s.WellFormed() && g < |s.pcs|
    requires || (g < s.Depth() && EnterStep(s, g, s'))
             || (g == s.Depth() && HandlerStep(s, s'))
             || (g == 0 && RecoverStep(s, s'))
    ensures s'.WellFormed() && Grows(s, s')
  {
  }

  ghost predicate GrowsNext(s: State, s': State) {
    s.WellFormed() && s'.WellFormed() && Grows(s, s')
  }

  lemma {:induction false} GrowsAlong(run: seq<State>, i: nat, j: nat)
    requires forall k | 0 <= k < |run| - 1 :: GrowsNext(run[k], run[k + 1])
    requires i <= j < |run| && run[i].WellFormed()
    ensures GrowsNext(run[i], run[j])
  {
    if i < j {
      GrowsAlong(run, i, j - 1);
      assert GrowsNext(run[j - 1], run[j - 1 + 1]);
    }
  }

  lemma RunGrows(run: seq<State>, i: nat, j: nat)
    requires IsRun(run) && i <= j < |run|
    ensures GrowsNext(run[i], run[j])
  {
    forall k | 0 <= k < |run| - 1
      ensures GrowsNext(run[k], run[k + 1])
    {
      StepGrows(run[k], run[k + 1]);
    }
    RunInv(run, i);
    GrowsAlong(run, i, j);
  }

  /** No header map is ever written by two goroutines, at any two moments of a run, which is
      why flushing the headers and writing the 408 need no common lock. */
  lemma PrivateHeaders(run: seq<State>, i: nat, j: nat, k: nat, key: string, key': string)
    requires IsRun(run) && i <= j < |run| && k < |run[i].writers| && k < |run[j].writers|
    requires key in run[i].writers[k].headers && key' in run[j].writers[k].headers
    requires run[i].writers[k].headers[key].Goroutine? && run[j].writers[k].headers[key'].Goroutine?
    ensures run[i].writers[k].headers[key] == run[j].writers[k].headers[key']
  {
    RunInv(run, i);
    RunInv(run, j);
    RunGrows(run, i, j);
    ReachesStable(run[i], run[j]);
    ReachesUnique(run[j], run[i].writers[k].headers[key].index, run[j].writers[k].headers[key'].index, k);
  }

  lemma WireStep(s: State, s': State)
    requires Next(s, s')
    ensures s.wire <= s'.wire
  {
    var g :| 0 <= g < |s.pcs| && StepOf(s, g, s');
  }

  /** The wire is only ever appended to, so a response that has begun keeps its author for
      the rest of the run. */
  lemma {:induction false} WireGrows(run: seq<State>, i: nat, j: nat)
    requires IsRun(run) && i <= j < |run|
    ensures run[i].wire <= run[j].wire
  {
    if i < j {
      WireGrows(run, i, j - 1);
      assert Next(run[j - 1], run[j - 1 + 1]);
      WireStep(run[j - 1], run[j]);
    }
  }

  /** A timed-out request is answered. Take a wrapper that has timed out, with none outside it
      that has: once its goroutine is past the head of its 408, that is how the wire begins,
      and nothing on the wire is ever anybody else's. */
  lemma TimeoutAnswered(s: State, j: nat)
    requires Reachable(s) && j < s.Depth() && s.writers[j + 1].timedOut
    requires forall i | 0 < i <= j :: !s.writers[i].timedOut
    requires !Answering(s.pcs[j])
    ensures s.wire != [] && s.wire[0] == StatusLine(Goroutine(j), 408)
    ensures forall a | 0 <= a < |s.wire| :: s.wire[a].author == Goroutine(j)
  {
    ReachableInv(s);
    SunkDown(s, 0, j);
    forall a | 0 <= a < |s.wire|
      ensures s.wire[a].author == Goroutine(j)
    {
      assert EventInv(s, s.wire[a]);
      assert s.wire[a].author.Goroutine? && Reaches(s, s.wire[a].author.index, 0);
    }
  }

  /** A panic that reaches the recover block never leaves the client without an answer, and
      every goroutine below has ended by then, so nothing can follow the 500. */
  lemma PanicAnswered(s: State)
    requires Reachable(s) && s.pcs[0] == Recovered
    ensures s.wire != []
    ensures forall g | 0 < g < |s.pcs| :: s.pcs[g] in {NotStarted, Panicked}
    ensures !s.writers[0].written ==> s.wire == [StatusLine(Recovery, 500), Bytes(Recovery)]
  {
    ReachableInv(s);
    forall g | 0 < g < |s.pcs|
      ensures s.pcs[g] in {NotStarted, Panicked}
    {
      DownBelow(s, g);
    }
  }

  /** Locks are taken from the inner writer outwards, so some write can always go on. */
  lemma {:induction false} NoDeadlock(s: State, g: nat)
    requires s.WellFormed() && g < |s.pcs| && s.pcs[g].Writing?
    ensures exists h | 0 <= h < |s.pcs| :: s.pcs[h].Writing? && !s.Locked(s.pcs[h].level)
    decreases if s.pcs[g].Writing? then s.pcs[g].level else 0
  {
    if s.Locked(s.pcs[g].level) {
      var h :| 0 <= h < |s.pcs| && s.pcs[h].Writing? && s.pcs[h].level < s.pcs[g].level <= h;
      NoDeadlock(s, h);
    }
  }

  /** In fact no write ever waits for another one: the goroutines that hold locks are never at
      the writer of somebody else's output. */
  lemma WritesNeverWait(s: State, g: nat)
    requires Reachable(s) && g < |s.pcs| && s.pcs[g].Writing?
    ensures !s.Locked(s.pcs[g].level)
  {
    ReachableInv(s);
    Unlocked(s, g);
  }

  lemma Unlocked(s: State, g: nat)
    requires Inv(s) && g < |s.pcs| && s.pcs[g].Writing?
    ensures s.pcs[g].level <= g && !s.Locked(s.pcs[g].level)
  {
    assert PcInv(s, g);
    forall h | 0 <= h < |s.pcs| && s.pcs[h].Writing?
      ensures !(s.pcs[h].level < s.pcs[g].level <= h)
    {
      assert PcInv(s, h);
    }
  }
}
