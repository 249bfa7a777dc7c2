/** Kafka's retry-then-dead-letter loop and the commit decision
    (pkg/messaging/kafka/consumer_dlq.go, pkg/messaging/kafka/new_consumer.go). */
module KafkaRetry {
  import opened Int64
  import opened Options

  // ---------- backoff ----------

  /** calculateBackoff of pkg/messaging/kafka/client.go, in int64 nanoseconds. */
  function NextBackoff(current: int64, max: int64): int64 {
    var next := Wrap(current * 2);
    if next > max then max else next
  }

  /** The backoff in force after the i-th failure, counting from 1. */
  function BackoffAt(base: int64, max: int64, i: nat): int64 {
    if i <= 1 then base else NextBackoff(BackoffAt(base, max, i - 1), max)
  }

  function Min(a: int, b: int): int {
    if a < b then a else b
  }

  /** One doubling is right exactly while the backoff is at most half the int64 maximum. */
  lemma NextBackoffExact(current: int64, max: int64)
    requires 0 <= current <= max
    ensures NextBackoff(current, max) == Min(2 * current, max) <==> 2 * current <= MAX
  {
    WrapOnce(current * 2);
  }

  /** The i-th backoff as configured: doubling from the base up to the maximum. */
  function Intended(base: int64, max: int64, i: nat): int
    requires i > 0
  {
    Min(base * Pow2(i - 1), max)
  }

  lemma {:induction false} BackoffClosedForm(base: int64, max: int64, i: nat)
    requires 0 <= base <= max && (base == 0 || 2 * max <= MAX) && i > 0
    ensures BackoffAt(base, max, i) == Intended(base, max, i)
  {
    if i > 1 {
      BackoffClosedForm(base, max, i - 1);
      var p := Pow2(i - 2);
      assert Pow2(i - 1) == 2 * p;
      assert base * (2 * p) == 2 * (base * p);
      assert base * p >= 0;
    } else {
      assert base * Pow2(0) == base;
    }
  }

  lemma Pow2At64()
    ensures Pow2(64) == MODULUS && Pow2(63) == MAX + 1
  {
    assert Pow2(8) == 256;
    Pow2Add(8, 8);
    Pow2Add(16, 16);
    Pow2Add(32, 32);
    assert Pow2(64) == 2 * Pow2(63);
  }

  /** Every configuration that is not a good one goes wrong at the first, the 64th or the 65th
      backoff at the latest. */
  lemma BackoffGoesWrong(base: int64, max: int64)
    requires !(0 <= base <= max && (base == 0 || 2 * max <= MAX))
    ensures exists i: nat | i in {1, 64, 65} :: BackoffAt(base, max, i) != Intended(base, max, i)
  {
    Pow2At64();
    assert Pow2(0) == 1;
    if base > max {
      assert BackoffAt(base, max, 1) != Intended(base, max, 1);
    } else if base < 0 {
      MulMonotone(base, -1, Pow2(64));
      assert BackoffAt(base, max, 65) != Intended(base, max, 65);
    } else {
      MulMonotone(1, base, Pow2(63));
      MulMonotone(1, base, Pow2(64));
      assert Intended(base, max, 64) == Intended(base, max, 65) == max;
      if BackoffAt(base, max, 64) == max {
        WrapOnce(max * 2);
        assert BackoffAt(base, max, 65) == NextBackoff(max, max) < 0;
      }
    }
  }

  /** The backoffs of a configuration are the intended ones for good exactly if base and
      maximum are in order and the maximum can be doubled in an int64, or nothing is ever
      waited for. */
  lemma BackoffExact(base: int64, max: int64)
    ensures (forall i: nat | i > 0 :: BackoffAt(base, max, i) == Intended(base, max, i)) <==>
              0 <= base <= max && (base == 0 || 2 * max <= MAX)
  {
    if 0 <= base <= max && (base == 0 || 2 * max <= MAX) {
      forall i: nat | i > 0
        ensures BackoffAt(base, max, i) == Intended(base, max, i)
      {
        BackoffClosedForm(base, max, i);
      }
    } else {
      BackoffGoesWrong(base, max);
    }
  }

  // ---------- one handler ----------

  /** An entry of the record; the one made for a panic has no backoff. */
  datatype Retry = Retry(attempt: nat, backoff: Option<int64>)

  /** The failures 1..n of one message. */
  function History(base: int64, max: int64, n: nat): (h: seq<Retry>)
    ensures |h| == n
    ensures forall i | 0 <= i < n :: h[i] == Retry(i + 1, Some(BackoffAt(base, max, i + 1)))
  {
    if n == 0 then [] else History(base, max, n - 1) + [Retry(n, Some(BackoffAt(base, max, n)))]
  }

  /** In a good configuration each failure is entered with the doubled and capped backoff. */
  lemma HistoryIntended(base: int64, max: int64, n: nat, i: nat)
    requires 0 <= base <= max && (base == 0 || 2 * max <= MAX) && i < n
    ensures History(base, max, n)[i] ==
              Retry(i + 1, Some(if base * Pow2(i) < max then base * Pow2(i) else max))
  {
    BackoffClosedForm(base, max, i + 1);
  }

  class RetryState {
    var attempts: int
    var history: seq<Retry>

    constructor ()
      ensures attempts == 0 && history == []
    {
      attempts, history := 0, [];
    }
  }

  datatype DlqRecord = DlqRecord(attempts: int, maxAttempts: int, history: seq<Retry>)

  datatype Config = Config(
    enabled: bool, hasStrategy: bool, maxRetries: int64, retryBackoff: int64, maxRetryBackoff: int64)

  datatype End = Succeeds | Fails | Panics

  /** What the world answers for one handler of one message: whether the context has ended
      before the handler's turn and before its attempt i, how attempt i ends, whether the
      sleep after attempt i is cut short, and whether the strategy takes the record. */
  datatype World = World(
    skipped: bool, ended: nat -> bool, attempt: nat -> End, interrupted: nat -> bool, dlqTakes: bool)

  datatype Verdict = Done | ContextEnded | RetriesExceeded | DlqFailed | Panicked

  function Limit(c: Config): nat {
    if c.maxRetries < 0 then 0 else c.maxRetries
  }

  /** The first n attempts fail, and the context lets them be made. */
  predicate FailsUpTo(w: World, n: nat) {
    forall i | 0 <= i < n :: w.attempt(i) == Fails && !w.ended(i)
  }

  /** No sleep between the first n attempts is cut short. */
  predicate Uninterrupted(w: World, n: nat) {
    forall i | 0 <= i < n - 1 :: !w.interrupted(i)
  }

  /** Attempt k is reached and succeeds. */
  predicate SucceedsAt(w: World, k: nat) {
    FailsUpTo(w, k) && Uninterrupted(w, k + 1) && !w.ended(k) && w.attempt(k) == Succeeds
  }

  /** Every attempt is made and fails. */
  predicate Exhausted(c: Config, w: World) {
    FailsUpTo(w, Limit(c)) && Uninterrupted(w, Limit(c))
  }

  predicate HasDlq(c: Config) {
    c.enabled && c.hasStrategy
  }

  /** The handler succeeded within the limit, or its failure is in the dead-letter queue. */
  ghost predicate Safe(c: Config, w: World) {
    (exists k | 0 <= k < Limit(c) :: SucceedsAt(w, k)) || (Exhausted(c, w) && HasDlq(c) && w.dlqTakes)
  }

  /** Attempt k is reached and panics. */
  predicate PanicsAt(w: World, k: nat) {
    FailsUpTo(w, k) && Uninterrupted(w, k + 1) && !w.ended(k) && w.attempt(k) == Panics
  }

  ghost predicate PanicsIn(c: Config, w: World) {
    exists k | 0 <= k < Limit(c) :: PanicsAt(w, k)
  }

  /** Attempt r does not fail, or is not reached: what attempt r does decides. */
  lemma Decided(c: Config, w: World, r: nat)
    requires FailsUpTo(w, r) && Uninterrupted(w, r) && r < Limit(c)
    requires w.ended(r) || (r > 0 && w.interrupted(r - 1)) || w.attempt(r) != Fails
    ensures Safe(c, w) <==> SucceedsAt(w, r)
    ensures PanicsIn(c, w) <==> PanicsAt(w, r)
    ensures forall k | 0 <= k < Limit(c) && k != r :: !SucceedsAt(w, k) && !PanicsAt(w, k)
    ensures !Exhausted(c, w)
  {
    forall k | 0 <= k < Limit(c) && k != r
      ensures !SucceedsAt(w, k) && !PanicsAt(w, k)
    {
      if k < r {
        assert w.attempt(k) == Fails;
      }
    }
  }

  lemma DecidedByDlq(c: Config, w: World)
    requires Exhausted(c, w)
    ensures Safe(c, w) <==> HasDlq(c) && w.dlqTakes
    ensures !PanicsIn(c, w)
    ensures forall k | 0 <= k < Limit(c) :: !SucceedsAt(w, k) && !PanicsAt(w, k)
  {
    assert forall k | 0 <= k < Limit(c) :: w.attempt(k) == Fails;
  }

  /** Attempts 0 to n - 1 are all made, without a context ending between them, and all fail. */
  ghost predicate AllFail(w: World, n: int) {
    && (forall i: nat | i < n :: w.attempt(i) == Fails && !w.ended(i))
    && (forall i: nat | i + 1 < n :: !w.interrupted(i))
  }

  /** Attempt k is made after failures only, and succeeds. */
  ghost predicate FirstSuccess(w: World, k: nat) {
    && (forall i: nat | i < k :: w.attempt(i) == Fails && !w.ended(i) && !w.interrupted(i))
    && !w.ended(k) && w.attempt(k) == Succeeds
  }

  /** What one handler's turn comes to. The handler runs at most MaxRetries times and never
      after a success. The dead-letter record, if one is made, numbers the failures
      1..MaxRetries and counts them. */
  ghost predicate Settled(c: Config, w: World, v: Verdict, runs: nat, record: Option<DlqRecord>) {
    && runs <= Limit(c) && FailsUpTo(w, if runs > 0 then runs - 1 else 0)
    && (v == Done <==> Safe(c, w))
    && (v == Done && record == None ==> runs > 0 && SucceedsAt(w, runs - 1))
    && (v == Panicked <==> PanicsIn(c, w))
    && (forall k | 0 <= k < Limit(c) && (SucceedsAt(w, k) || PanicsAt(w, k)) :: runs == k + 1)
    && (Exhausted(c, w) ==> runs == Limit(c))
    && (v == RetriesExceeded <==> Exhausted(c, w) && !HasDlq(c))
    && (v == DlqFailed <==> Exhausted(c, w) && HasDlq(c) && !w.dlqTakes)
    && (record.Some? <==> Exhausted(c, w) && HasDlq(c))
    && (record.Some? ==>
          && runs == Limit(c)
          && record.value == DlqRecord(runs, c.maxRetries, History(c.retryBackoff, c.maxRetryBackoff, runs)))
  }

  /** The loop ends at attempt r without the dead-letter queue. */
  lemma SettledEarly(c: Config, w: World, r: nat, v: Verdict, runs: nat)
    requires FailsUpTo(w, r) && Uninterrupted(w, r) && r < Limit(c)
    requires match v
             case Done => SucceedsAt(w, r) && runs == r + 1
             case Panicked => PanicsAt(w, r) && runs == r + 1
             case ContextEnded => (w.ended(r) || (r > 0 && w.interrupted(r - 1))) && runs == r
             case _ => false
    ensures Settled(c, w, v, runs, None)
  {
    Decided(c, w, r);
  }

  /** A message as one worker gets it: whether the context has ended, the handlers registered
      for its event type, and whether the strategy would take the record of a panic. */
  datatype Message = Message(key: string, ended: bool, handlers: Option<seq<World>>, dlqTakesPanic: bool)

  class Consumer {
    const config: Config
    const hasReader: bool
    var retryAttempts: map<string, RetryState>

    constructor (config: Config, hasReader: bool)
      ensures this.config == config && this.hasReader == hasReader && retryAttempts == map[]
    {
      this.config, this.hasReader := config, hasReader;
      retryAttempts := map[];
    }

    /** handleMessageWithRetry for a message no other worker is on. */
    method HandleMessageWithRetry(key: string, w: World) returns (v: Verdict, runs: nat, record: Option<DlqRecord>)
      requires key !in retryAttempts
      modifies this
      ensures retryAttempts == old(retryAttempts)
      ensures Settled(config, w, v, runs, record)
      ensures runs <= if config.maxRetries > 0 then config.maxRetries else 0
      ensures AllFail(w, config.maxRetries) ==>
                && runs == (if config.maxRetries > 0 then config.maxRetries else 0)
                && (record.Some? <==> config.enabled && config.hasStrategy)
                && v == (if record == None then RetriesExceeded else if w.dlqTakes then Done else DlqFailed)
      ensures forall k: nat | k < config.maxRetries && FirstSuccess(w, k) ::
                v == Done && runs == k + 1 && record == None
      ensures record.Some? ==>
                && AllFail(w, config.maxRetries)
                && record.value.attempts == (if config.maxRetries > 0 then config.maxRetries else 0)
                && record.value.maxAttempts == config.maxRetries
                && |record.value.history| == record.value.attempts
                && forall i | 0 <= i < |record.value.history| :: record.value.history[i].attempt == i + 1
    {
      var state := GetOrCreateRetryState(key);
      v, runs, record := RetryLoop(state, w);
      assert AllFail(w, config.maxRetries) <==> Exhausted(config, w);
      assert forall k: nat :: FirstSuccess(w, k) <==> SucceedsAt(w, k);
      retryAttempts := retryAttempts - {key};
    }

    method GetOrCreateRetryState(key: string) returns (state: RetryState)
      modifies this
      ensures key in old(retryAttempts) ==>
                state == old(retryAttempts)[key] && retryAttempts == old(retryAttempts)
      ensures key !in old(retryAttempts) ==>
                && fresh(state) && state.attempts == 0 && state.history == []
                && retryAttempts == old(retryAttempts)[key := state]
    {
      state := new RetryState();
      if key in retryAttempts {
        return retryAttempts[key];
      }
      retryAttempts := retryAttempts[key := state];
    }

    method RetryLoop(state: RetryState, w: World) returns (v: Verdict, runs: nat, record: Option<DlqRecord>)
      requires state.attempts == 0 && state.history == []
      modifies state
      ensures Settled(config, w, v, runs, record)
    {
      runs, record := 0, None;
      var backoff := config.retryBackoff;
      while runs < config.maxRetries
        invariant runs <= Limit(config)
        invariant FailsUpTo(w, runs) && Uninterrupted(w, runs + 1)
        invariant backoff == BackoffAt(config.retryBackoff, config.maxRetryBackoff, runs + 1)
        invariant state.attempts == runs
        invariant state.history == History(config.retryBackoff, config.maxRetryBackoff, runs)
      {
        var end;
        end, runs := Attempt(state, w, runs, backoff);
        if end.Some? {
          return end.value, runs, None;
        }
        if runs == config.maxRetries {
          break;
        }
        if w.interrupted(runs - 1) {
          SettledEarly(config, w, runs, ContextEnded, runs);
          return ContextEnded, runs, None;
        }
        backoff := NextBackoff(backoff, config.maxRetryBackoff);
      }
      DecidedByDlq(config, w);
      v, record := SendToDlq(state, w.dlqTakes);
    }

    /** One turn of the loop up to the failure it records: what it ends the loop with, if
        anything, and how often the handler has run by then. */
    method Attempt(state: RetryState, w: World, attempt: nat, backoff: int64) returns (end: Option<Verdict>, runs: nat)
      requires attempt < Limit(config) && FailsUpTo(w, attempt) && Uninterrupted(w, attempt + 1)
      modifies state
      ensures end.Some? ==> Settled(config, w, end.value, runs, None)
      ensures end == None ==>
                && runs == attempt + 1 && FailsUpTo(w, runs)
                && state.attempts == runs && state.history == old(state.history) + [Retry(runs, Some(backoff))]
    {
      runs := attempt;
      if w.ended(attempt) {
        SettledEarly(config, w, attempt, ContextEnded, runs);
        return Some(ContextEnded), runs;
      }
      runs := attempt + 1;
      match w.attempt(attempt)
      case Panics =>
        SettledEarly(config, w, attempt, Panicked, runs);
        return Some(Panicked), runs;
      case Succeeds =>
        SettledEarly(config, w, attempt, Done, runs);
        return Some(Done), runs;
      case Fails =>
        state.attempts := runs;
        state.history := state.history + [Retry(runs, Some(backoff))];
        return None, runs;
    }

    method SendToDlq(state: RetryState, takes: bool) returns (v: Verdict, record: Option<DlqRecord>)
      ensures record == if config.enabled && config.hasStrategy
                        then Some(DlqRecord(state.attempts, config.maxRetries, state.history)) else None
      ensures v == if record == None then RetriesExceeded else if takes then Done else DlqFailed
    {
      if !config.enabled || !config.hasStrategy {
        return RetriesExceeded, None;
      }
      record := Some(DlqRecord(state.attempts, config.maxRetries, state.history));
      v := if takes then Done else DlqFailed;
    }

    /** processMessageWithDLQ over all handlers of the event: a commit is asked for exactly if
        the context lasts and each handler's message is safe. The first panic ends it. */
    method ProcessWithDlq(key: string, handlers: seq<World>) returns (committed: bool, panicked: bool)
      requires key !in retryAttempts
      modifies this
      ensures retryAttempts == old(retryAttempts)
      ensures committed <==>
                && hasReader
                && forall i | 0 <= i < |handlers| :: !handlers[i].skipped && Safe(config, handlers[i])
      ensures panicked <==> exists i | 0 <= i < |handlers| :: Reached(handlers, i) && PanicsIn(config, handlers[i])
    {
      var dlqFailed := false;
      for i := 0 to |handlers|
        invariant retryAttempts == old(retryAttempts)
        invariant forall k | 0 <= k < i :: !handlers[k].skipped && !PanicsIn(config, handlers[k])
        invariant dlqFailed <==> exists k | 0 <= k < i :: !Safe(config, handlers[k])
      {
        if handlers[i].skipped {
          return false, false;
        }
        var v, _, _ := HandleMessageWithRetry(key, handlers[i]);
        if v == Panicked {
          assert Reached(handlers, i) && !Safe(config, handlers[i]);
          return false, true;
        }
        if v != Done {
          dlqFailed := true;
        }
      }
      committed := !dlqFailed && hasReader;
      panicked := false;
    }

    /** processMessageWithoutDLQ: the handlers run once each and in order, until the context
        ends or one panics, and a commit is asked for exactly if all succeed. `ran` lists the
        handlers called. */
    method ProcessWithoutDlq(handlers: seq<World>) returns (committed: bool, panicked: bool, ran: seq<nat>)
      ensures |ran| <= |handlers| && forall k | 0 <= k < |ran| :: ran[k] == k
      ensures forall k | 0 <= k < |ran| :: !handlers[k].skipped && (handlers[k].attempt(0) == Panics ==> k == |ran| - 1)
      ensures |ran| < |handlers| && !panicked ==> handlers[|ran|].skipped
      ensures panicked <==> ran != [] && handlers[|ran| - 1].attempt(0) == Panics
      ensures committed <==>
                && hasReader
                && forall i | 0 <= i < |handlers| :: !handlers[i].skipped && handlers[i].attempt(0) == Succeeds
      ensures panicked <==> exists i | 0 <= i < |handlers| :: Reached(handlers, i) && handlers[i].attempt(0) == Panics
    {
      var allSuccess := true;
      ran := [];
      for i := 0 to |handlers|
        invariant |ran| == i && forall k | 0 <= k < i :: ran[k] == k
        invariant forall k | 0 <= k < i :: !handlers[k].skipped && handlers[k].attempt(0) != Panics
        invariant allSuccess <==> forall k | 0 <= k < i :: handlers[k].attempt(0) == Succeeds
      {
        if handlers[i].skipped {
          return false, false, ran;
        }
        ran := ran + [i];
        match handlers[i].attempt(0)
        case Panics =>
          assert Reached(handlers, i);
          return false, true, ran;
        case Fails => allSuccess := false;
        case Succeeds =>
      }
      committed := allSuccess && hasReader;
      panicked := false;
    }

    /** What the handler at i has to do for the message to be committed. */
    ghost predicate Good(w: World)
    {
      !w.skipped && if config.enabled then Safe(config, w) else w.attempt(0) == Succeeds
    }

    /** processMessage under the worker's recover block, with the handlers registered for the
        event type, if any. With dead-lettering on, a panicking message gets a record of its
        own, which claims MaxRetries attempts with a history of one entry. */
    method ProcessMessage(key: string, ended: bool, handlers: Option<seq<World>>, dlqTakesPanic: bool)
      returns (committed: bool, panicRecord: Option<DlqRecord>)
      requires key !in retryAttempts
      modifies this
      ensures retryAttempts == old(retryAttempts)
      ensures committed <==>
                !ended && hasReader && handlers.Some? && forall i | 0 <= i < |handlers.value| :: Good(handlers.value[i])
      ensures panicRecord.Some? <==>
                && !ended && handlers.Some? && HasDlq(config)
                && exists i | 0 <= i < |handlers.value| ::
                     Reached(handlers.value, i) && PanicsIn(config, handlers.value[i])
      ensures panicRecord.Some? ==>
                && !committed
                && panicRecord.value == DlqRecord(config.maxRetries, config.maxRetries, [Retry(1, None)])
    {
      committed, panicRecord := false, None;
      if ended || handlers == None {
        return;
      }
      var panicked;
      if config.enabled {
        committed, panicked := ProcessWithDlq(key, handlers.value);
      } else {
        var ran;
        committed, panicked, ran := ProcessWithoutDlq(handlers.value);
      }
      if panicked && config.enabled && config.hasStrategy {
        PanickingNotCommitted(handlers.value);
        var state := new RetryState();
        state.attempts, state.history := config.maxRetries, [Retry(1, None)];
        var _, record := SendToDlq(state, dlqTakesPanic);
        panicRecord := record;
      }
    }

    ghost predicate Committable(m: Message) {
      && !m.ended && hasReader && m.handlers.Some?
      && forall i | 0 <= i < |m.handlers.value| :: Good(m.handlers.value[i])
    }

    /** A panicking message whose record the dead-letter strategy has taken. */
    ghost predicate Parked(m: Message) {
      && !m.ended && m.handlers.Some? && HasDlq(config) && m.dlqTakesPanic
      && exists i | 0 <= i < |m.handlers.value| ::
           Reached(m.handlers.value, i) && PanicsIn(config, m.handlers.value[i])
    }

    /** The messages of one partition through one worker, with every commit that is asked for
        carried out. A commit covers all earlier offsets: after it the partition is read on
        from `offset`, and whatever lies before that never comes back. */
    method ProcessPartition(messages: seq<Message>) returns (offset: nat)
      requires forall m | m in messages :: m.key !in retryAttempts
      modifies this
      ensures retryAttempts == old(retryAttempts)
      ensures IsCommittedOffset(messages, offset)
    {
      offset := 0;
      for i := 0 to |messages|
        invariant retryAttempts == old(retryAttempts)
        invariant IsCommittedOffset(messages[..i], offset)
      {
        var m := messages[i];
        assert m in messages;
        var committed, _ := ProcessMessage(m.key, m.ended, m.handlers, m.dlqTakesPanic);
        if committed {
          offset := i + 1;
        }
        assert forall k | 0 <= k <= i :: messages[..i + 1][k] == messages[k];
        assert forall k | 0 <= k < i :: messages[..i][k] == messages[k];
      }
      assert messages[..|messages|] == messages;
    }

    /** The offset behind the last message that is committed. */
    ghost predicate IsCommittedOffset(messages: seq<Message>, offset: nat) {
      && offset <= |messages|
      && (offset > 0 ==> Committable(messages[offset - 1]))
      && forall k | offset <= k < |messages| :: !Committable(messages[k])
    }

    /** The message lies before the committed offset, and has neither been committed for itself
        nor dead-lettered for its panic. */
    ghost predicate PassedOver(messages: seq<Message>, offset: nat, i: nat) {
      i < |messages| && i < offset && !Committable(messages[i]) && !Parked(messages[i])
    }

    /** A message is passed over exactly if it failed for good and a later one is committed. */
    lemma PassedOverExactly(messages: seq<Message>, offset: nat, i: nat)
      requires IsCommittedOffset(messages, offset) && i < |messages|
      ensures PassedOver(messages, offset, i) <==>
                && !Committable(messages[i]) && !Parked(messages[i])
                && exists k | i < k < |messages| :: Committable(messages[k])
    {
      if PassedOver(messages, offset, i) {
        assert Committable(messages[offset - 1]) && offset - 1 != i;
      }
    }

    /** So none is exactly if every one before the last committed is committed or parked. */
    lemma NonePassedOver(messages: seq<Message>, offset: nat)
      requires IsCommittedOffset(messages, offset)
      ensures (forall i: nat :: !PassedOver(messages, offset, i)) <==>
                forall i, k | 0 <= i < k < |messages| && Committable(messages[k]) ::
                  Committable(messages[i]) || Parked(messages[i])
    {
      if forall i: nat :: !PassedOver(messages, offset, i) {
        forall i, k | 0 <= i < k < |messages| && Committable(messages[k])
          ensures Committable(messages[i]) || Parked(messages[i])
        {
          PassedOverExactly(messages, offset, i);
        }
      } else {
        var i: nat :| PassedOver(messages, offset, i);
        PassedOverExactly(messages, offset, i);
      }
    }

    lemma PanickingNotCommitted(handlers: seq<World>)
      ensures forall i | 0 <= i < |handlers| && PanicsIn(config, handlers[i]) :: !Safe(config, handlers[i])
    {
      forall i | 0 <= i < |handlers| && PanicsIn(config, handlers[i])
        ensures !Safe(config, handlers[i])
      {
        var k :| 0 <= k < Limit(config) && PanicsAt(handlers[i], k);
        Decided(config, handlers[i], k);
      }
    }
  }

  /** A message is safe if some attempt within the limit succeeds after failures only, or all of
      them fail and the dead-letter strategy takes the record. */
  lemma SafeExact(c: Config, w: World)
    ensures Safe(c, w) <==>
              || (exists k: nat | k < c.maxRetries :: FirstSuccess(w, k))
              || (AllFail(w, c.maxRetries) && c.enabled && c.hasStrategy && w.dlqTakes)
  {
    assert AllFail(w, c.maxRetries) <==> Exhausted(c, w);
    assert forall k: nat :: FirstSuccess(w, k) <==> SucceedsAt(w, k);
  }

  /** A handler's turn ends in a panic if some attempt within the limit panics after failures
      only. */
  lemma PanicsExact(c: Config, w: World)
    ensures PanicsIn(c, w) <==>
              exists k: nat | k < c.maxRetries ::
                && w.attempt(k) == Panics && !w.ended(k)
                && forall i: nat | i < k :: w.attempt(i) == Fails && !w.ended(i) && !w.interrupted(i)
  {
    if k :| 0 <= k < Limit(c) && PanicsAt(w, k) {
      assert k < c.maxRetries;
    }
    forall k: nat |
      && k < c.maxRetries && w.attempt(k) == Panics && !w.ended(k)
      && forall i: nat | i < k :: w.attempt(i) == Fails && !w.ended(i) && !w.interrupted(i)
      ensures PanicsIn(c, w)
    {
      assert PanicsAt(w, k);
    }
  }

  /** No handler up to i finds the context ended before its turn. */
  predicate Reached(handlers: seq<World>, i: nat)
    requires i < |handlers|
  {
    forall k | 0 <= k <= i :: !handlers[k].skipped
  }

  /** With no retries allowed the handler is never called: the message goes straight to the
      dead-letter queue and is committed as soon as that takes it. */
  lemma ZeroRetriesSkipTheHandler(c: Config, w: World)
    requires c.maxRetries <= 0
    ensures Safe(c, w) <==> HasDlq(c) && w.dlqTakes
    ensures !PanicsIn(c, w)
  {
    assert Exhausted(c, w);
  }

  /** A safe message with retries allowed has had its handler called. */
  lemma SafeMeansCalled(c: Config, w: World)
    requires Safe(c, w) && c.maxRetries >= 1
    ensures !w.ended(0) && w.attempt(0) in {Succeeds, Fails}
  {
    if k :| 0 <= k < Limit(c) && SucceedsAt(w, k) {
      assert k > 0 ==> w.attempt(0) == Fails;
    } else {
      assert FailsUpTo(w, Limit(c));
    }
  }
}
