/** Settling and republishing RabbitMQ deliveries (pkg/messaging/rabbitmq/consumer.go). */
module Redelivery {
  import opened Int64
  import opened Options

  // ---------- retry counter and backoff ----------

  /** A header value, by its dynamic type. */
  datatype HeaderValue = Int32(v32: int) | Long(v64: int) | Int(v: int) | Other

  type Headers = map<string, HeaderValue>

  const RETRY_HEADER := "x-retry-count"

  function RetryCount(headers: Headers): int {
    if RETRY_HEADER !in headers then 0
    else
      match headers[RETRY_HEADER]
      case Int32(v) => v
      case Long(v) => v
      case Int(v) => v
      case Other => 0
  }

  /** The headers count as n: by a number of any of the three types, or as 0 without one. */
  predicate Carries(headers: Headers, n: int) {
    if "x-retry-count" in headers && !headers["x-retry-count"].Other?
    then headers["x-retry-count"] in {Int32(n), Long(n), Int(n)}
    else n == 0
  }

  lemma RetryCountCarried(headers: Headers, n: int)
    ensures Carries(headers, n) <==> RetryCount(headers) == n
  {
  }

  /** The counter a republished copy carries: one more, cut to 32 bits. */
  function NextCount(count: int): int {
    Wrap32(count + 1)
  }

  const BASE_BACKOFF := 100_000_000
  const MAX_BACKOFF := 30_000_000_000

  /** calculateRetryBackoff, in nanoseconds. The shift count is the counter converted to
      uint, so a negative counter shifts everything out. */
  function RetryBackoff(count: int): int64 {
    var factor := if count < 0 then 0 else ShiftOne(count);
    var backoff := Wrap(BASE_BACKOFF * factor);
    if backoff > MAX_BACKOFF then MAX_BACKOFF else backoff
  }

  /** The documented backoff in nanoseconds: doubling from 100ms, capped at 30s. */
  function DoublingBackoff(count: nat): (r: int)
    ensures 0 < r <= 30_000_000_000
  {
    var ideal := 100_000_000 * Pow2(count);
    if ideal > 30_000_000_000 then 30_000_000_000 else ideal
  }

  lemma DoublingMonotone(m: nat, n: nat)
    requires m <= n
    ensures DoublingBackoff(m) <= DoublingBackoff(n)
  {
    Pow2Grows(m, n);
  }

  /** 100ms * 2^count in an int64, for the counts at which it wraps. */
  const WRAPPED: seq<int> := [
    6871947673600000000, -4702848726509551616, 9041046620690448384, -364650832328654848,
    -729301664657309696, -1458603329314619392, -2917206658629238784, -5834413317258477568,
    6777917439192596480, -4890909195324358656, 8664925683060834304, -1116892707587883008,
    -2233785415175766016, -4467570830351532032, -8935141660703064064, 576460752303423488,
    1152921504606846976, 2305843009213693952, 4611686018427387904, -9223372036854775808]

  lemma Pow2At36()
    ensures Pow2(36) == 0x10_0000_0000
  {
    assert Pow2(6) == 64;
    Pow2Add(6, 6);
    Pow2Add(12, 12);
    Pow2Add(12, 24);
  }

  lemma TableDoubles(i: nat)
    requires i < 19
    ensures Wrap(2 * WRAPPED[i]) == WRAPPED[i + 1]
  {
  }

  lemma {:induction false} WrappedEntry(count: nat)
    requires 36 <= count < 56
    ensures Wrap(BASE_BACKOFF * Pow2(count)) == WRAPPED[count - 36]
  {
    if count > 36 {
      WrappedEntry(count - 1);
      WrapDouble(BASE_BACKOFF * Pow2(count - 1));
      assert BASE_BACKOFF * Pow2(count) == 2 * (BASE_BACKOFF * Pow2(count - 1));
      TableDoubles(count - 37);
    } else {
      Pow2At36();
    }
  }

  lemma {:induction false} WrappedOut(count: nat)
    requires count >= 56
    ensures Wrap(BASE_BACKOFF * Pow2(count)) == 0
  {
    WrapDouble(BASE_BACKOFF * Pow2(count - 1));
    assert BASE_BACKOFF * Pow2(count) == 2 * (BASE_BACKOFF * Pow2(count - 1));
    if count == 56 {
      WrappedEntry(55);
    } else {
      WrappedOut(count - 1);
    }
  }

  /** Wrapping the shift before the product changes nothing. */
  lemma RetryBackoffValue(count: nat)
    requires count < 64
    ensures RetryBackoff(count) == var b := Wrap(BASE_BACKOFF * Pow2(count)); if b > MAX_BACKOFF then MAX_BACKOFF else b
  {
    var p := Pow2(count);
    var m := (p - MIN) / MODULUS;
    assert Wrap(p) == p - m * MODULUS;
    assert BASE_BACKOFF * Wrap(p) == BASE_BACKOFF * p - (BASE_BACKOFF * m) * MODULUS;
    WrapPeriod(BASE_BACKOFF * p, BASE_BACKOFF * m);
  }

  /** The counts above 36 whose product wraps to something still above the cap. */
  const LUCKY := {38, 44, 46, 51, 52, 53, 54}

  /** The backoff is the documented one exactly for the counts up to 36 and the lucky ones.
      For every other count the product wraps to zero or below and the retry is immediate. */
  lemma BackoffExact(count: nat)
    ensures RetryBackoff(count) == DoublingBackoff(count) <==> count <= 36 || count in LUCKY
    ensures RetryBackoff(count) != DoublingBackoff(count) ==> RetryBackoff(count) <= 0
  {
    if count <= 36 {
      ExactUpTo36(count);
    } else {
      CappedFrom37(count);
      if count < 56 {
        RetryBackoffValue(count);
        WrappedEntry(count);
        TableLuck(count - 36);
      } else if count < 64 {
        RetryBackoffValue(count);
        WrappedOut(count);
      }
    }
  }

  /** A counter below zero shifts everything out: the retry is immediate. */
  lemma NegativeCountsDoNotWait(count: int)
    ensures count < 0 ==> RetryBackoff(count) == 0
  {
  }

  lemma ExactUpTo36(count: nat)
    requires count <= 36
    ensures RetryBackoff(count) == DoublingBackoff(count)
  {
    Pow2At36();
    Pow2Grows(count, 36);
    RetryBackoffValue(count);
  }

  lemma CappedFrom37(count: nat)
    requires count > 36
    ensures DoublingBackoff(count) == MAX_BACKOFF
  {
    Pow2At36();
    Pow2Grows(36, count);
  }

  lemma TableLuck(i: nat)
    requires 0 < i < 20
    ensures WRAPPED[i] > MAX_BACKOFF <==> i + 36 in LUCKY
    ensures WRAPPED[i] <= MAX_BACKOFF ==> WRAPPED[i] <= 0
  {
  }

  // ---------- how often a message can come back ----------

  datatype Copy = Copy(routingKey: string, body: seq<bv8>, headers: Headers)

  /** The copy that is republished after a failure. */
  function Bumped(copy: Copy): (next: Copy)
    ensures RetryCount(next.headers) == NextCount(RetryCount(copy.headers))
    ensures next.routingKey == copy.routingKey && next.body == copy.body
    ensures next.headers.Keys == copy.headers.Keys + {"x-retry-count"}
    ensures forall k | k in copy.headers && k != "x-retry-count" :: next.headers[k] == copy.headers[k]
  {
    copy.(headers := copy.headers[RETRY_HEADER := Int32(NextCount(RetryCount(copy.headers)))])
  }

  /** One message over its republications: each copy follows from a failure below the limit. */
  ghost predicate IsChain(copies: seq<Copy>, maxRetries: int) {
    && copies != []
    && forall i | 0 <= i < |copies| - 1 ::
         RetryCount(copies[i].headers) < maxRetries && copies[i + 1] == Bumped(copies[i])
  }

  /** The copy that carries a given counter and is otherwise the same. */
  function WithCount(copy: Copy, count: int): Copy {
    Copy(copy.routingKey, copy.body, copy.headers["x-retry-count" := Int32(count)])
  }

  lemma {:induction false} SameContent(copies: seq<Copy>, maxRetries: int, i: nat)
    requires IsChain(copies, maxRetries) && i < |copies|
    ensures copies[i].body == copies[0].body && copies[i].routingKey == copies[0].routingKey
  {
    if i > 0 {
      SameContent(copies, maxRetries, i - 1);
      assert copies[i - 1 + 1] == Bumped(copies[i - 1]);
    }
  }

  lemma {:induction false} ChainCounts(copies: seq<Copy>, maxRetries: int, i: nat)
    requires IsChain(copies, maxRetries) && maxRetries <= MAX32 && i < |copies|
    requires RetryCount(copies[0].headers) >= MIN32
    ensures RetryCount(copies[i].headers) == RetryCount(copies[0].headers) + i
    ensures i > 0 ==> RetryCount(copies[i].headers) <= maxRetries
  {
    if i > 0 {
      ChainCounts(copies, maxRetries, i - 1);
      assert copies[i - 1 + 1] == Bumped(copies[i - 1]);
    }
  }

  /** How often a message can be delivered that starts at counter r0. The first republication
      brings any counter into 32 bits. */
  function Deliveries(r0: int, maxRetries: int): (n: nat)
    requires maxRetries <= MAX32
    ensures n <= if r0 <= maxRetries then maxRetries - r0 + 1 else 1
    ensures MIN32 <= r0 <= maxRetries ==> n == maxRetries - r0 + 1
  {
    if r0 >= maxRetries then 1
    else if NextCount(r0) > maxRetries then 2
    else maxRetries - NextCount(r0) + 2
  }

  /** With a limit that fits 32 bits, a message is delivered at most that often, always with the
      same body and routing key. */
  lemma ChainBound(copies: seq<Copy>, maxRetries: int)
    requires IsChain(copies, maxRetries) && maxRetries <= MAX32
    ensures |copies| <= Deliveries(RetryCount(copies[0].headers), maxRetries)
    ensures forall i | 0 <= i < |copies| ::
              copies[i].body == copies[0].body && copies[i].routingKey == copies[0].routingKey
  {
    if |copies| > 1 {
      assert copies[0 + 1] == Bumped(copies[0]);
      ChainTail(copies, maxRetries);
      ChainCounts(copies[1..], maxRetries, |copies| - 2);
    }
    forall i | 0 <= i < |copies|
      ensures copies[i].body == copies[0].body && copies[i].routingKey == copies[0].routingKey
    {
      SameContent(copies, maxRetries, i);
    }
  }

  lemma ChainTail(copies: seq<Copy>, maxRetries: int)
    requires IsChain(copies, maxRetries) && |copies| > 1
    ensures IsChain(copies[1..], maxRetries)
  {
    forall i | 0 <= i < |copies[1..]| - 1
      ensures RetryCount(copies[1..][i].headers) < maxRetries && copies[1..][i + 1] == Bumped(copies[1..][i])
    {
      assert RetryCount(copies[i + 1].headers) < maxRetries && copies[i + 1 + 1] == Bumped(copies[i + 1]);
    }
  }

  /** The bound is reached from every counter when the handler keeps failing. */
  lemma LongestChain(first: Copy, maxRetries: int) returns (copies: seq<Copy>)
    requires maxRetries <= MAX32
    ensures IsChain(copies, maxRetries) && copies[0] == first
    ensures |copies| == Deliveries(RetryCount(first.headers), maxRetries)
  {
    copies := [first];
    if RetryCount(first.headers) < maxRetries {
      var next := Bumped(first);
      var rest := [next];
      if RetryCount(next.headers) <= maxRetries {
        rest := ChainToLimit(next, maxRetries);
      }
      copies := Prepend(first, rest, maxRetries);
    }
  }

  lemma {:induction false} ChainToLimit(first: Copy, maxRetries: int) returns (copies: seq<Copy>)
    requires MIN32 <= RetryCount(first.headers) <= maxRetries <= MAX32
    ensures IsChain(copies, maxRetries) && copies[0] == first
    ensures |copies| == maxRetries - RetryCount(first.headers) + 1
    decreases maxRetries - RetryCount(first.headers)
  {
    copies := [first];
    if RetryCount(first.headers) < maxRetries {
      var rest := ChainToLimit(Bumped(first), maxRetries);
      copies := Prepend(first, rest, maxRetries);
    }
  }

  /** A message that starts without the header is delivered at most limit + 1 times, or once if
      the limit is negative, and its copies carry 1, 2, 3 and so on. */
  lemma FreshBound(copies: seq<Copy>, maxRetries: int)
    requires IsChain(copies, maxRetries) && maxRetries <= 0x7fff_ffff
    requires "x-retry-count" !in copies[0].headers
    ensures |copies| <= (if maxRetries < 0 then 0 else maxRetries) + 1
    ensures forall i | 0 < i < |copies| ::
              "x-retry-count" in copies[i].headers && copies[i].headers["x-retry-count"] == Int32(i)
  {
    ChainBound(copies, maxRetries);
    forall i | 0 < i < |copies|
      ensures "x-retry-count" in copies[i].headers && copies[i].headers["x-retry-count"] == Int32(i)
    {
      ChainCounts(copies, maxRetries, i);
      assert copies[i - 1 + 1] == Bumped(copies[i - 1]);
    }
  }

  /** And that often if its handler keeps failing. */
  lemma FreshLongest(first: Copy, maxRetries: int) returns (copies: seq<Copy>)
    requires "x-retry-count" !in first.headers && maxRetries <= 0x7fff_ffff
    ensures IsChain(copies, maxRetries) && copies[0] == first
    ensures |copies| == (if maxRetries < 0 then 0 else maxRetries) + 1
  {
    copies := LongestChain(first, maxRetries);
  }

  /** A limit above 32 bits is never reached: the counter wraps first, and a message can be
      delivered any number of times. */
  lemma {:induction false} EndlessChain(first: Copy, maxRetries: int, n: nat) returns (copies: seq<Copy>)
    requires MAX32 < maxRetries && RetryCount(first.headers) < maxRetries && n > 0
    ensures IsChain(copies, maxRetries) && copies[0] == first && |copies| == n
    decreases n
  {
    copies := [first];
    if n > 1 {
      var rest := EndlessChain(Bumped(first), maxRetries, n - 1);
      copies := Prepend(first, rest, maxRetries);
    }
  }

  lemma Prepend(first: Copy, rest: seq<Copy>, maxRetries: int) returns (copies: seq<Copy>)
    requires IsChain(rest, maxRetries) && rest[0] == Bumped(first) && RetryCount(first.headers) < maxRetries
    ensures copies == [first] + rest && IsChain(copies, maxRetries)
  {
    copies := [first] + rest;
    assert forall i | 0 < i < |copies| :: copies[i] == rest[i - 1];
  }

  // ---------- one delivery ----------

  datatype End = Succeeds | Fails | Panics

  /** A handler function, by identity. */
  type Handler = nat

  /** What the world answers while one delivery is processed. `handle` is how a handler
      ends; the rest decides a republication: the context may end
      during the backoff, the pool or the channel may be missing, and the publish may be
      reported as failed. */
  datatype World = World(handle: Handler -> End, cancelled: bool, hasPool: bool, hasChannel: bool, published: bool)

  class Delivery {
    const copy: Copy
    var acks: nat
    var nacks: nat

    constructor (copy: Copy)
      ensures this.copy == copy && acks == nacks == 0
    {
      this.copy := copy;
      acks, nacks := 0, 0;
    }

    method Ack()
      modifies this
      ensures acks == old(acks) + 1 && nacks == old(nacks)
    {
      acks := acks + 1;
    }

    method Nack()
      modifies this
      ensures nacks == old(nacks) + 1 && acks == old(acks)
    {
      nacks := nacks + 1;
    }
  }

  /** The delivery has had one settlement more: an ack, or else a nack. */
  ghost predicate Settled(d: Delivery, acks: nat, nacks: nat, acked: bool)
    reads d
  {
    if acked then d.acks == acks + 1 && d.nacks == nacks else d.acks == acks && d.nacks == nacks + 1
  }

  /** The copies whose publication was reported as successful. */
  class Exchange {
    var copies: seq<Copy>

    constructor ()
      ensures copies == []
    {
      copies := [];
    }
  }

  class Consumer {
    const autoAck: bool
    const maxRetries: int
    const exchange: Exchange
    var handlers: map<string, Option<Handler>>   // a registered handler may be nil

    constructor (autoAck: bool, maxRetries: int, exchange: Exchange)
      ensures this.autoAck == autoAck && this.maxRetries == maxRetries && this.exchange == exchange
      ensures handlers == map[]
    {
      this.autoAck, this.maxRetries, this.exchange := autoAck, maxRetries, exchange;
      handlers := map[];
    }

    method RegisterHandler(key: string, handler: Option<Handler>)
      modifies this
      ensures handlers == old(handlers)[key := handler]
    {
      handlers := handlers[key := handler];
    }

    /** The handler that serves a routing key: its own even if that is nil, else the wildcard's. */
    function HandlerFor(key: string): Option<Handler>
      reads this
    {
      if key in handlers then handlers[key]
      else if "*" in handlers then handlers["*"]
      else None
    }

    /** How the handler that serves a routing key ends, or nothing if none does. */
    function HandlerEnd(key: string, w: World): Option<End>
      reads this
    {
      match HandlerFor(key)
      case None => None
      case Some(handler) => Some(w.handle(handler))
    }

    predicate Republishes(d: Delivery, w: World)
      reads this
    {
      && HandlerEnd(d.copy.routingKey, w) == Some(Fails)
      && RetryCount(d.copy.headers) < maxRetries
      && !w.cancelled && w.hasPool && w.hasChannel && w.published
    }

    /** processMessage with its deferred recover. Without autoAck the delivery is settled by
        exactly one call, and acknowledged only if the handler succeeded or a copy with the
        next counter was reported published; everything else is dead-lettered. */
    method ProcessMessage(d: Delivery, w: World)
      modifies d, exchange
      ensures autoAck ==> d.acks == old(d.acks) && d.nacks == old(d.nacks)
      ensures !autoAck ==>
                Settled(d, old(d.acks), old(d.nacks),
                        HandlerEnd(d.copy.routingKey, w) == Some(Succeeds) || Republishes(d, w))
      ensures exchange.copies == old(exchange.copies) +
                if !autoAck && Republishes(d, w) then [Bumped(d.copy)] else []
      ensures forall n | Carries(d.copy.headers, n) ::
                if !autoAck && HandlerEnd(d.copy.routingKey, w) == Some(Fails) && n < maxRetries
                   && !w.cancelled && w.hasPool && w.hasChannel && w.published
                then
                  && d.acks == old(d.acks) + 1 && d.nacks == old(d.nacks)
                  && exchange.copies == old(exchange.copies) + [WithCount(d.copy, Wrap32(n + 1))]
                else
                  && exchange.copies == old(exchange.copies)
                  && (!autoAck && HandlerEnd(d.copy.routingKey, w) == Some(Fails) ==>
                        d.acks == old(d.acks) && d.nacks == old(d.nacks) + 1)
    {
      ghost var count := RetryCount(d.copy.headers);
      forall n | Carries(d.copy.headers, n)
        ensures n == count
      {
        RetryCountCarried(d.copy.headers, n);
      }
      var panicked := ProcessMessageLogic(d, w);
      if panicked {
        if autoAck {
          return;
        }
        d.Nack();
      }
    }

    method ProcessMessageLogic(d: Delivery, w: World) returns (panicked: bool)
      modifies d, exchange
      ensures panicked <==> HandlerEnd(d.copy.routingKey, w) == Some(Panics)
      ensures autoAck || panicked ==> d.acks == old(d.acks) && d.nacks == old(d.nacks)
      ensures !autoAck && !panicked ==>
                Settled(d, old(d.acks), old(d.nacks),
                        HandlerEnd(d.copy.routingKey, w) == Some(Succeeds) || Republishes(d, w))
      ensures exchange.copies == old(exchange.copies) +
                if !autoAck && Republishes(d, w) then [Bumped(d.copy)] else []
    {
      panicked := false;
      var count := RetryCount(d.copy.headers);
      var handler := FindHandler(d.copy.routingKey);
      if handler == None {
        if !autoAck {
          d.Nack();
        }
        return;
      }
      match w.handle(handler.value)
      case Panics => panicked := true;
      case Succeeds =>
        if !autoAck {
          d.Ack();
        }
      case Fails => HandleError(d, count, w);
    }

    method FindHandler(key: string) returns (handler: Option<Handler>)
      ensures key in handlers ==> handler == handlers[key]
      ensures key !in handlers && "*" in handlers ==> handler == handlers["*"]
      ensures key !in handlers && "*" !in handlers ==> handler == None
    {
      if key in handlers {
        return handlers[key];
      }
      if "*" in handlers {
        return handlers["*"];
      }
      return None;
    }

    method HandleError(d: Delivery, count: int, w: World)
      requires count == RetryCount(d.copy.headers) && HandlerEnd(d.copy.routingKey, w) == Some(Fails)
      modifies d, exchange
      ensures autoAck ==> d.acks == old(d.acks) && d.nacks == old(d.nacks)
      ensures !autoAck ==> Settled(d, old(d.acks), old(d.nacks), Republishes(d, w))
      ensures exchange.copies == old(exchange.copies) +
                if !autoAck && Republishes(d, w) then [Bumped(d.copy)] else []
    {
      if autoAck {
        return;
      }
      if count >= maxRetries {
        d.Nack();
        return;
      }
      var _ := Requeue(d, count, w);
    }

    /** `waited` is how long the timer was set before anything else. */
    method Requeue(d: Delivery, count: int, w: World) returns (waited: int64)
      requires count == RetryCount(d.copy.headers) < maxRetries && HandlerEnd(d.copy.routingKey, w) == Some(Fails)
      modifies d, exchange
      ensures Settled(d, old(d.acks), old(d.nacks), Republishes(d, w))
      ensures exchange.copies == old(exchange.copies) + if Republishes(d, w) then [Bumped(d.copy)] else []
      ensures waited == RetryBackoff(count)
    {
      waited := RetryBackoff(count);
      if w.cancelled {
        d.Nack();
        return;
      }
      var republish := d.copy.(headers := d.copy.headers[RETRY_HEADER := Int32(Wrap32(count + 1))]);
      if !w.hasPool {
        d.Nack();
        return;
      }
      if !w.hasChannel {
        d.Nack();
        return;
      }
      if !w.published {
        d.Nack();
        return;
      }
      exchange.copies := exchange.copies + [republish];
      d.Ack();
    }
  }
}
