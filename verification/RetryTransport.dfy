/** The retrying HTTP transport (pkg/httpclient/transport_retry.go) and the validation of its
    configuration (pkg/httpclient/request_options.go). */
module RetryTransport {
  import opened Int64
  import opened Options

  // ---------- configuration ----------

  const MAX_ATTEMPTS := 10
  const MAX_CONFIG_BACKOFF := 10_000_000_000
  const MAX_BACKOFF := 30_000_000_000

  /** What the base transport returns; a response may lack a body. */
  datatype Response = Response(status: int, hasBody: bool)

  datatype Outcome = Outcome(response: Option<Response>, failed: bool)

  type Policy = Outcome -> bool

  datatype Config = Config(enabled: bool, maxAttempts: int64, backoff: int64, policy: Option<Policy>)

  /** WithRetry: a count that is not positive leaves the configuration alone. */
  function WithRetry(c: Config, maxAttempts: int64, backoff: int64, policy: Option<Policy>): Config {
    if maxAttempts <= 0 then c else Config(true, maxAttempts, backoff, policy)
  }

  ghost predicate IsValid(c: Config) {
    c.maxAttempts <= MAX_ATTEMPTS && 0 <= c.backoff <= MAX_CONFIG_BACKOFF && c.policy.Some?
  }

  /** The arguments of one use of the option. */
  datatype RetryOption = RetryOption(maxAttempts: int64, backoff: int64, policy: Option<Policy>)

  const NO_RETRY := Config(false, 0, 0, None)

  /** The retry part of BuildRequestConfig: the options in turn. The last one with a positive
      count decides, and without one retries stay off. */
  method BuildConfig(options: seq<RetryOption>) returns (c: Config)
    ensures !c.enabled ==> c == Config(false, 0, 0, None) && forall o | o in options :: o.maxAttempts <= 0
    ensures c.enabled ==> exists i | 0 <= i < |options| ::
              && c == Config(true, options[i].maxAttempts, options[i].backoff, options[i].policy)
              && c.maxAttempts > 0 && forall k | i < k < |options| :: options[k].maxAttempts <= 0
  {
    c := NO_RETRY;
    for n := 0 to |options|
      invariant !c.enabled ==> c == NO_RETRY && forall o | o in options[..n] :: o.maxAttempts <= 0
      invariant c.enabled ==> exists i | 0 <= i < n ::
                  && c == Config(true, options[i].maxAttempts, options[i].backoff, options[i].policy)
                  && c.maxAttempts > 0 && forall k | i < k < n :: options[k].maxAttempts <= 0
    {
      c := WithRetry(c, options[n].maxAttempts, options[n].backoff, options[n].policy);
      assert options[..n + 1] == options[..n] + [options[n]];
    }
    assert options[..|options|] == options;
  }

  datatype ConfigError = TooManyAttempts | NegativeBackoff | BackoffTooLong | NoPolicy

  /** ValidateRetryConfig: nothing if the configuration is accepted, and otherwise the first
      thing wrong with it. */
  method Validate(c: Config) returns (error: Option<ConfigError>)
    ensures error == None <==> IsValid(c)
    ensures error == Some(TooManyAttempts) <==> c.maxAttempts > 10
    ensures error == Some(NegativeBackoff) <==> c.maxAttempts <= 10 && c.backoff < 0
    ensures error == Some(BackoffTooLong) <==> c.maxAttempts <= 10 && c.backoff > 10_000_000_000
    ensures error == Some(NoPolicy) <==> c.maxAttempts <= 10 && 0 <= c.backoff <= 10_000_000_000 && c.policy.None?
  {
    if c.maxAttempts > MAX_ATTEMPTS {
      return Some(TooManyAttempts);
    }
    if c.backoff < 0 {
      return Some(NegativeBackoff);
    }
    if c.backoff > MAX_CONFIG_BACKOFF {
      return Some(BackoffTooLong);
    }
    if c.policy.None? {
      return Some(NoPolicy);
    }
    return None;
  }

  // ---------- backoff ----------

  /** The exponential bound below which the random delay is drawn. */
  function Exponential(backoff: int64, attempt: nat): int64
    requires attempt > 0
  {
    var product := Wrap(backoff * ShiftOne(attempt - 1));
    if product > MAX_BACKOFF then MAX_BACKOFF else product
  }

  /** calculateBackoff, for a given random draw. */
  function Delay(backoff: int64, attempt: nat, draw: nat): int {
    if attempt == 0 then 0
    else if Exponential(backoff, attempt) <= 0 then 0
    else draw % Exponential(backoff, attempt)
  }

  lemma Pow2UpTo8(n: nat)
    requires n <= 8
    ensures 1 <= Pow2(n) <= 256 && ShiftOne(n) == Pow2(n)
  {
    Pow2Grows(n, 8);
    assert Pow2(8) == 256;
  }

  /** The delay can be that long: it is below backoff * 2^(attempt-1) and 30s, or both it and
      the backoff are zero. */
  ghost predicate IsDelay(backoff: nat, attempt: nat, nanos: int)
    requires attempt > 0
  {
    && 0 <= nanos < 30_000_000_000
    && if backoff == 0 then nanos == 0 else nanos < backoff * Pow2(attempt - 1)
  }

  /** Before the last attempt of an accepted configuration the product does not overflow, and
      the delays the draws give are all those in [0, min(backoff * 2^(attempt-1), 30s)). */
  lemma DelayBounds(c: Config, attempt: nat)
    requires IsValid(c) && 0 < attempt < c.maxAttempts
    ensures InRange(c.backoff * Pow2(attempt - 1))
    ensures forall nanos ::
              IsDelay(c.backoff, attempt, nanos) <==> exists draw :: Delay(c.backoff, attempt, draw) == nanos
  {
    Pow2UpTo8(attempt - 1);
    ProductBounds(c.backoff, Pow2(attempt - 1));
    var bound := Exponential(c.backoff, attempt);
    forall nanos | IsDelay(c.backoff, attempt, nanos)
      ensures exists draw :: Delay(c.backoff, attempt, draw) == nanos
    {
      DrawBelow(nanos, bound);
      assert Delay(c.backoff, attempt, nanos) == nanos;
    }
    forall draw
      ensures IsDelay(c.backoff, attempt, Delay(c.backoff, attempt, draw))
    {
      DrawBounds(draw, bound);
    }
  }

  lemma ProductBounds(backoff: nat, p: nat)
    requires backoff <= MAX_CONFIG_BACKOFF && 1 <= p <= 256
    ensures 0 <= backoff * p <= MAX_CONFIG_BACKOFF * 256
    ensures backoff > 0 ==> backoff * p > 0
  {
    MulMonotone(backoff, MAX_CONFIG_BACKOFF, p);
  }

  lemma DrawBounds(draw: nat, bound: int)
    ensures bound > 0 ==> 0 <= draw % bound < bound
  {
  }

  lemma DrawBelow(draw: nat, bound: int)
    ensures draw < bound ==> draw % bound == draw
  {
  }

  // ---------- buffering the body ----------

  type Bytes = seq<bv8>

  /** A request body: the bytes it delivers, whether it then fails instead of ending, and
      whether closing it fails. */
  datatype Source = Source(content: Bytes, readFails: bool, closeFails: bool)

  datatype BodyError = ReadFailed | TooLarge | CloseFailed

  function Min(a: int, b: int): int {
    if a < b then a else b
  }

  /** bufferBody. The limit is one byte above the maximum, in 64 bits: for the greatest
      maximum it wraps, nothing is read, and the request goes out with an empty body. For
      every other maximum the body comes through whole, or the first thing wrong with it is
      reported. */
  method BufferBody(body: Option<Source>, maxBodySize: int64) returns (r: Result<Option<Bytes>, BodyError>)
    ensures body == None ==> r == Ok(None)
    ensures body.Some? && maxBodySize < MAX ==>
              r == if |body.value.content| > maxBodySize then Err(TooLarge)
                   else if body.value.readFails then Err(ReadFailed)
                   else if body.value.closeFails then Err(CloseFailed)
                   else Ok(Some(body.value.content))
    ensures body.Some? && maxBodySize == MAX ==> r == if body.value.closeFails then Err(CloseFailed) else Ok(Some([]))
  {
    if body.None? {
      return Ok(None);
    }
    var content := body.value.content;
    var limit := Wrap(maxBodySize + 1);
    WrapOnce(maxBodySize + 1);
    var bytes := [];
    if limit > 0 {
      if |content| < limit && body.value.readFails {
        return Err(ReadFailed);
      }
      bytes := content[..Min(|content|, limit)];
      assert |content| <= limit ==> bytes == content;
    }
    if |bytes| > maxBodySize {
      return Err(TooLarge);
    }
    if body.value.closeFails {
      return Err(CloseFailed);
    }
    return Ok(Some(bytes));
  }

  function ContentOf(body: Option<Source>): Option<Bytes> {
    match body
    case None => None
    case Some(source) => Some(source.content)
  }

  // ---------- the round trip ----------

  datatype Reason = NoReason | NetworkError | Http(status: int) | Unknown

  datatype Event =
    | Call(attempt: nat, body: Option<Bytes>)
    | Drain(attempt: nat)              // the response of that attempt read away and closed
    | Hook(attempt: nat, reason: Reason)
    | Sleep(attempt: nat, nanos: int)

  /** What the world answers: the base transport at each attempt, whether the context has
      ended after it, whether it ends during the sleep, and the random draws. */
  datatype World = World(base: nat -> Outcome, ended: nat -> bool, interrupted: nat -> bool, draw: nat -> nat)

  datatype Return = BodyFailed(error: BodyError) | FromAttempt(attempt: nat) | ContextEnded

  function RetryReason(o: Outcome): Reason {
    if o.failed then NetworkError
    else if o.response.Some? then Http(o.response.value.status)
    else Unknown
  }

  predicate HasBody(o: Outcome) {
    o.response.Some? && o.response.value.hasBody
  }

  predicate GoesOn(c: Config, w: World, attempt: nat)
    requires c.policy.Some?
  {
    && c.policy.value(w.base(attempt)) && attempt < c.maxAttempts
    && !w.ended(attempt) && !w.interrupted(attempt)
  }

  /** Each of the first n attempts was to be retried. */
  predicate AllGoOn(c: Config, w: World, n: nat)
    requires c.policy.Some?
  {
    n == 0 || (AllGoOn(c, w, n - 1) && GoesOn(c, w, n))
  }

  lemma {:induction false} AllGoOnEach(c: Config, w: World, n: nat)
    requires c.policy.Some? && AllGoOn(c, w, n)
    ensures forall a | 0 < a <= n ::
              c.policy.value(w.base(a)) && a < c.maxAttempts && !w.ended(a) && !w.interrupted(a)
  {
    if n > 0 {
      AllGoOnEach(c, w, n - 1);
    }
  }

  // ---------- what happens, event by event ----------

  function DrainOf(w: World, n: nat): seq<Event> {
    if HasBody(w.base(n)) then [Drain(n)] else []
  }

  function HookOf(w: World, hasHook: bool, n: nat): seq<Event> {
    if hasHook then [Hook(n, RetryReason(w.base(n)))] else []
  }

  /** Attempt n and the way to the next one: the call, the response drained and closed, the
      hook, the sleep. */
  function Round(c: Config, w: World, hasHook: bool, body: Option<Bytes>, n: nat): seq<Event> {
    [Call(n, body)] + DrainOf(w, n) + HookOf(w, hasHook, n) + [Sleep(n, Delay(c.backoff, n, w.draw(n)))]
  }

  /** The hook's first call, and n full rounds. */
  function Rounds(c: Config, w: World, hasHook: bool, body: Option<Bytes>, n: nat): seq<Event> {
    if n == 0 then (if hasHook then [Hook(0, NoReason)] else [])
    else Rounds(c, w, hasHook, body, n - 1) + Round(c, w, hasHook, body, n)
  }

  /** The last attempt: a returned response is left alone, one cut off by the context is
      drained first, and one cut off during the sleep has had its full round. */
  function LastRound(c: Config, w: World, hasHook: bool, body: Option<Bytes>, n: nat, r: Return): seq<Event> {
    if !r.ContextEnded? then [Call(n, body)]
    else if w.ended(n) then [Call(n, body)] + DrainOf(w, n)
    else Round(c, w, hasHook, body, n)
  }

  /** Everything a round trip of `calls` attempts does. */
  function LogOf(c: Config, w: World, hasHook: bool, body: Option<Bytes>, calls: nat, r: Return): seq<Event> {
    if calls == 0 then Rounds(c, w, hasHook, body, 0)
    else Rounds(c, w, hasHook, body, calls - 1) + LastRound(c, w, hasHook, body, calls, r)
  }

  /** RoundTrip. `calls` attempts are made, all with one body, which is the request's own
      unless the limit wraps, and between them the drains, hooks and sleeps of `LogOf`. */
  method RoundTrip(c: Config, w: World, body: Option<Source>, maxBodySize: int64, hasHook: bool)
    returns (r: Return, log: seq<Event>, calls: nat, ghost sent: Option<Bytes>)
    requires IsValid(c)
    ensures r.BodyFailed? <==> calls == 0
    ensures calls <= if c.maxAttempts > 1 then c.maxAttempts else 1
    ensures calls > 0 ==> (sent == ContentOf(body) <==> maxBodySize < MAX || ContentOf(body) in {None, Some([])})
    ensures body.Some? && maxBodySize < MAX ==>
              (calls == 0 <==> |body.value.content| > maxBodySize || body.value.readFails || body.value.closeFails)
    ensures log == LogOf(c, w, hasHook, sent, calls, r)
    ensures Slept(w, calls, r) == 0 || Slept(w, calls, r) < c.maxAttempts
    ensures forall a | 0 < a < calls ::
              c.policy.value(w.base(a)) && a < c.maxAttempts && !w.ended(a) && !w.interrupted(a)
    ensures r.FromAttempt? ==> r.attempt == calls
    ensures calls > 0 ==> (r.FromAttempt? <==> !c.policy.value(w.base(calls)) || calls >= c.maxAttempts)
    ensures r.ContextEnded? ==> w.ended(calls) || w.interrupted(calls)
  {
    log, calls, sent := [], 0, None;
    if hasHook {
      log := [Hook(0, NoReason)];
    }
    var buffered := BufferBody(body, maxBodySize);
    if buffered.Err? {
      return BodyFailed(buffered.error), log, calls, sent;
    }
    sent := buffered.value;
    r, log, calls := Attempts(c, w, buffered.value, hasHook, log);
    AllGoOnEach(c, w, calls - 1);
  }

  /** The loop of RoundTrip. */
  method Attempts(c: Config, w: World, bytes: Option<Bytes>, hasHook: bool, start: seq<Event>)
    returns (r: Return, log: seq<Event>, calls: nat)
    requires IsValid(c) && start == Rounds(c, w, hasHook, bytes, 0)
    ensures 0 < calls <= if c.maxAttempts > 1 then c.maxAttempts else 1
    ensures !r.BodyFailed? && (r.FromAttempt? ==> r.attempt == calls)
    ensures log == Rounds(c, w, hasHook, bytes, calls - 1) + LastRound(c, w, hasHook, bytes, calls, r)
    ensures AllGoOn(c, w, calls - 1)
    ensures r.FromAttempt? <==> !c.policy.value(w.base(calls)) || calls >= c.maxAttempts
    ensures r.ContextEnded? ==> w.ended(calls) || w.interrupted(calls)
  {
    log, calls := start, 0;
    while true
      invariant calls < if c.maxAttempts > 1 then c.maxAttempts else 1
      invariant log == Rounds(c, w, hasHook, bytes, calls)
      invariant AllGoOn(c, w, calls)
      decreases c.maxAttempts - calls
    {
      calls := calls + 1;
      var round, end := Attempt(c, w, bytes, hasHook, calls);
      log := log + round;
      if end.Some? {
        return end.value, log, calls;
      }
    }
  }

  /** The loop's body: what it does and the return it makes, if any. */
  method Attempt(c: Config, w: World, bytes: Option<Bytes>, hasHook: bool, attempt: nat)
    returns (round: seq<Event>, end: Option<Return>)
    requires c.policy.Some? && attempt > 0
    ensures end == (if !c.policy.value(w.base(attempt)) || attempt >= c.maxAttempts then Some(FromAttempt(attempt))
                    else if GoesOn(c, w, attempt) then None else Some(ContextEnded))
    ensures round == if end == None then Round(c, w, hasHook, bytes, attempt)
                     else LastRound(c, w, hasHook, bytes, attempt, end.value)
  {
    round := [Call(attempt, bytes)];
    if !c.policy.value(w.base(attempt)) {
      return round, Some(FromAttempt(attempt));
    }
    if attempt >= c.maxAttempts {
      return round, Some(FromAttempt(attempt));
    }
    var pause, goesOn := PrepareRetry(c, w, hasHook, attempt);
    round := round + pause;
    end := if goesOn then None else Some(ContextEnded);
    if w.ended(attempt) {
      assert round == [Call(attempt, bytes)] + DrainOf(w, attempt);
    } else {
      assert round == Round(c, w, hasHook, bytes, attempt);
    }
  }

  /** The part of the loop between an attempt to be retried and the next one. */
  method PrepareRetry(c: Config, w: World, hasHook: bool, attempt: nat) returns (pause: seq<Event>, goesOn: bool)
    requires c.policy.Some? && attempt < c.maxAttempts && c.policy.value(w.base(attempt))
    ensures goesOn <==> GoesOn(c, w, attempt)
    ensures pause == if w.ended(attempt) then DrainOf(w, attempt)
                     else DrainOf(w, attempt) + HookOf(w, hasHook, attempt)
                          + [Sleep(attempt, Delay(c.backoff, attempt, w.draw(attempt)))]
  {
    var o := w.base(attempt);
    pause := [];
    if HasBody(o) {
      pause := [Drain(attempt)];
    }
    if w.ended(attempt) {
      return pause, false;
    }
    if hasHook {
      pause := pause + [Hook(attempt, RetryReason(o))];
    }
    pause := pause + [Sleep(attempt, Delay(c.backoff, attempt, w.draw(attempt)))];
    goesOn := !w.interrupted(attempt);
  }

  // ---------- what follows for the whole round trip ----------

  /** How many attempts have been drained, and how many have got to the hook and the sleep. */
  function Drained(calls: nat, r: Return): nat {
    if calls == 0 then 0 else if r.ContextEnded? then calls else calls - 1
  }

  function Slept(w: World, calls: nat, r: Return): nat {
    if calls == 0 then 0 else if r.ContextEnded? && !w.ended(calls) then calls else calls - 1
  }

  /** What may happen when that many attempts have been made, drained and slept after. */
  predicate Happens(c: Config, w: World, hasHook: bool, body: Option<Bytes>,
                    calls: nat, drained: nat, slept: nat, e: Event)
  {
    match e
    case Call(a, b) => 0 < a <= calls && b == body
    case Drain(a) => 0 < a <= drained && HasBody(w.base(a))
    case Hook(a, reason) => hasHook && a <= slept && reason == if a == 0 then NoReason else RetryReason(w.base(a))
    case Sleep(a, nanos) => 0 < a <= slept && nanos == Delay(c.backoff, a, w.draw(a))
  }

  /** When an event has its turn: by attempt, and then call, drain, hook, sleep. */
  function Turn(e: Event): nat {
    match e
    case Call(a, _) => 4 * a
    case Drain(a) => 4 * a + 1
    case Hook(a, _) => 4 * a + 2
    case Sleep(a, _) => 4 * a + 3
  }

  ghost predicate InTurn(log: seq<Event>) {
    forall i, j | 0 <= i < j < |log| :: Turn(log[i]) < Turn(log[j])
  }

  lemma InTurnAppend(a: seq<Event>, b: seq<Event>, bound: nat)
    requires InTurn(a) && InTurn(b)
    requires forall i | 0 <= i < |a| :: Turn(a[i]) < bound
    requires forall j | 0 <= j < |b| :: bound <= Turn(b[j])
    ensures InTurn(a + b)
  {
  }

  lemma RoundInTurn(c: Config, w: World, hasHook: bool, body: Option<Bytes>, n: nat, r: Return)
    ensures InTurn(Round(c, w, hasHook, body, n)) && InTurn(LastRound(c, w, hasHook, body, n, r))
    ensures forall e | e in Round(c, w, hasHook, body, n) :: 4 * n <= Turn(e) < 4 * n + 4
    ensures forall e | e in LastRound(c, w, hasHook, body, n, r) :: 4 * n <= Turn(e) < 4 * n + 4
  {
  }

  lemma {:induction false} RoundsInTurn(c: Config, w: World, hasHook: bool, body: Option<Bytes>, n: nat)
    ensures InTurn(Rounds(c, w, hasHook, body, n))
    ensures forall e | e in Rounds(c, w, hasHook, body, n) :: Turn(e) < 4 * n + 4
  {
    if n > 0 {
      RoundsInTurn(c, w, hasHook, body, n - 1);
      RoundInTurn(c, w, hasHook, body, n, ContextEnded);
      InTurnAppend(Rounds(c, w, hasHook, body, n - 1), Round(c, w, hasHook, body, n), 4 * n);
    }
  }

  lemma RoundMembers(c: Config, w: World, hasHook: bool, body: Option<Bytes>, n: nat, e: Event)
    requires n > 0
    ensures e in Round(c, w, hasHook, body, n) <==>
            Happens(c, w, hasHook, body, n, n, n, e) && !Happens(c, w, hasHook, body, n - 1, n - 1, n - 1, e)
    ensures e in [Call(n, body)] + DrainOf(w, n) <==>
            Happens(c, w, hasHook, body, n, n, n - 1, e) && !Happens(c, w, hasHook, body, n - 1, n - 1, n - 1, e)
    ensures e in [Call(n, body)] <==>
            Happens(c, w, hasHook, body, n, n - 1, n - 1, e) && !Happens(c, w, hasHook, body, n - 1, n - 1, n - 1, e)
  {
  }

  lemma {:induction false} RoundsMembers(c: Config, w: World, hasHook: bool, body: Option<Bytes>, n: nat, e: Event)
    ensures e in Rounds(c, w, hasHook, body, n) <==> Happens(c, w, hasHook, body, n, n, n, e)
  {
    if n > 0 {
      RoundsMembers(c, w, hasHook, body, n - 1, e);
      RoundMembers(c, w, hasHook, body, n, e);
    }
  }

  /** A round trip does exactly what the calls made, the responses not returned and the rounds
      completed ask for. */
  lemma LogMembers(c: Config, w: World, hasHook: bool, body: Option<Bytes>, calls: nat, r: Return, e: Event)
    ensures e in LogOf(c, w, hasHook, body, calls, r) <==>
            Happens(c, w, hasHook, body, calls, Drained(calls, r), Slept(w, calls, r), e)
  {
    if calls == 0 {
      RoundsMembers(c, w, hasHook, body, 0, e);
    } else {
      RoundsMembers(c, w, hasHook, body, calls - 1, e);
      RoundMembers(c, w, hasHook, body, calls, e);
    }
  }

  /** It does each of these things once, attempt after attempt, and in each attempt calls,
      then drains, then reports, then sleeps. */
  lemma LogInTurn(c: Config, w: World, hasHook: bool, body: Option<Bytes>, calls: nat, r: Return)
    ensures InTurn(LogOf(c, w, hasHook, body, calls, r))
  {
    if calls == 0 {
      RoundsInTurn(c, w, hasHook, body, 0);
    } else {
      RoundsInTurn(c, w, hasHook, body, calls - 1);
      RoundInTurn(c, w, hasHook, body, calls, r);
      InTurnAppend(Rounds(c, w, hasHook, body, calls - 1), LastRound(c, w, hasHook, body, calls, r), 4 * calls);
    }
  }

  /** Every attempt is called, with the one body. */
  lemma CalledOnce(c: Config, w: World, hasHook: bool, body: Option<Bytes>, calls: nat, r: Return,
                   a: nat, b: Option<Bytes>)
    ensures Call(a, b) in LogOf(c, w, hasHook, body, calls, r) <==> 0 < a <= calls && b == body
    ensures var log := LogOf(c, w, hasHook, body, calls, r);
            forall i, j | 0 <= i < j < |log| && log[i].Call? && log[j].Call? :: log[i].attempt < log[j].attempt
  {
    LogMembers(c, w, hasHook, body, calls, r, Call(a, b));
    LogInTurn(c, w, hasHook, body, calls, r);
  }

  /** Each response that has a body and is not returned is drained and closed exactly once,
      and the one that is returned never is. */
  lemma DrainedOnce(c: Config, w: World, hasHook: bool, body: Option<Bytes>, calls: nat, r: Return, a: nat)
    ensures Drain(a) in LogOf(c, w, hasHook, body, calls, r) <==>
              && 0 < a <= calls && (a < calls || r.ContextEnded?)
              && w.base(a).response.Some? && w.base(a).response.value.hasBody
    ensures forall i, j | 0 <= i < j < |LogOf(c, w, hasHook, body, calls, r)| ::
              !(LogOf(c, w, hasHook, body, calls, r)[i] == LogOf(c, w, hasHook, body, calls, r)[j] == Drain(a))
  {
    LogMembers(c, w, hasHook, body, calls, r, Drain(a));
    LogInTurn(c, w, hasHook, body, calls, r);
  }

  /** An attempt that is followed by another, or was cut off during the sleep. */
  predicate SleepsAfter(w: World, calls: nat, r: Return, a: nat) {
    0 < a < calls || (0 < a == calls && r.ContextEnded? && !w.ended(a))
  }

  /** After each of these attempts the drawn delay is slept. */
  lemma SleptOnce(c: Config, w: World, hasHook: bool, body: Option<Bytes>, calls: nat, r: Return, a: nat, nanos: int)
    ensures Sleep(a, nanos) in LogOf(c, w, hasHook, body, calls, r) <==>
              SleepsAfter(w, calls, r, a) && nanos == Delay(c.backoff, a, w.draw(a))
    ensures var log := LogOf(c, w, hasHook, body, calls, r);
            forall i, j | 0 <= i < j < |log| && log[i].Sleep? && log[j].Sleep? :: log[i].attempt < log[j].attempt
  {
    LogMembers(c, w, hasHook, body, calls, r, Sleep(a, nanos));
    LogInTurn(c, w, hasHook, body, calls, r);
  }

  /** The hook reports 0 and then the retried attempts, in order and each with its own reason. */
  lemma HooksInOrder(c: Config, w: World, hasHook: bool, body: Option<Bytes>, calls: nat, r: Return, a: nat)
    ensures forall reason :: Hook(a, reason) in LogOf(c, w, hasHook, body, calls, r) <==>
              && hasHook && (a == 0 || SleepsAfter(w, calls, r, a))
              && reason == if a == 0 then NoReason
                           else if w.base(a).failed then NetworkError
                           else if w.base(a).response.Some? then Http(w.base(a).response.value.status)
                           else Unknown
    ensures var log := LogOf(c, w, hasHook, body, calls, r);
            forall i, j | 0 <= i < j < |log| && log[i].Hook? && log[j].Hook? :: log[i].attempt < log[j].attempt
  {
    forall reason
      ensures Hook(a, reason) in LogOf(c, w, hasHook, body, calls, r) <==>
                Happens(c, w, hasHook, body, calls, Drained(calls, r), Slept(w, calls, r), Hook(a, reason))
    {
      LogMembers(c, w, hasHook, body, calls, r, Hook(a, reason));
    }
    LogInTurn(c, w, hasHook, body, calls, r);
  }
}
