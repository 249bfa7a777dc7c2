/** Pairing publishes with broker confirms on one channel
    (pkg/messaging/rabbitmq/channel_pool.go).

    Callers take turns under the channel's mutex. The broker answers the messages of a
    channel in publish order, at any time, with an ack or a nack; a caller's context may end
    at any time, and the channel may be closed at any time. */
module ConfirmPairing {
  import opened Options

  datatype Answer = Acked | ConfirmFailed | TimedOut | ChannelClosed | PublishFailed

  // ---------- the object ----------

  class PublisherChannel {
    var closed: bool
    var unread: seq<bool>     // verdicts buffered in the confirms channel

    constructor ()
      ensures !closed && unread == []
    {
      closed, unread := false, [];
    }

    /** PublishWithConfirm, under the mutex. `open` and `sent` say whether the connection is
        up and whether the publish got through; `arriving` are the verdicts that come in
        while the call waits, `shut` says that the confirms channel is closed after them, and
        `expires` picks the context branch of the select. */
    method PublishWithConfirm(open: bool, sent: bool, arriving: seq<bool>, shut: bool, expires: bool)
      returns (answer: Answer)
      modifies this
      ensures closed == old(closed)
      ensures closed || !open ==> answer == ChannelClosed && unread == old(unread)
      ensures !closed && open && !sent ==> answer == PublishFailed && unread == old(unread)
      ensures !closed && open && sent ==> (answer, unread) == Await(old(unread) + arriving, shut, expires)
      ensures var readable := old(unread) + arriving;
              && (answer == Acked <==> !closed && open && sent && !expires && readable != [] && readable[0])
              && (answer == TimedOut <==> !closed && open && sent && (expires || (readable == [] && !shut)))
              && (answer == ConfirmFailed <==>
                    !closed && open && sent && !expires && (if readable != [] then !readable[0] else shut))
              && (answer == ChannelClosed <==> closed || !open)
              && (answer == PublishFailed <==> !closed && open && !sent)
              && (answer in {Acked, ConfirmFailed} && readable != [] ==> unread == readable[1..])
              && (answer == TimedOut ==> unread == readable)
    {
      if closed || !open {
        return ChannelClosed;
      }
      if !sent {
        return PublishFailed;
      }
      unread := unread + arriving;
      if expires || (unread == [] && !shut) {
        return TimedOut;
      }
      if unread == [] {
        return ConfirmFailed;
      }
      var verdict := unread[0];
      unread := unread[1..];
      answer := if verdict then Acked else ConfirmFailed;
    }
  }

  /** The select over the confirms channel and the context. With nothing to read it ends only
      by the context; a closed and empty channel gives the zero value, which is a nack. */
  function Await(buffer: seq<bool>, shut: bool, expires: bool): (Answer, seq<bool>) {
    if expires then (TimedOut, buffer)
    else if buffer != [] then (if buffer[0] then Acked else ConfirmFailed, buffer[1..])
    else (if shut then ConfirmFailed else TimedOut, buffer)
  }

  // ---------- the protocol ----------

  /** A finished call that published message `message` (counting from 0 on this channel),
      after `earlier` calls had timed out; `confirm` is the confirm it read, if any. */
  datatype Call = Call(message: nat, earlier: nat, confirm: Option<nat>, answer: Answer)

  datatype State = State(
    published: nat,            // messages accepted on the channel
    verdicts: seq<bool>,       // the broker's answers so far, in publish order
    read: nat,                 // verdicts read by callers
    holder: Option<nat>,       // the caller in the select, by its message
    timeouts: nat,
    cutOff: nat,               // callers that read the closed confirms channel
    down: bool,                // the channel has been shut down
    calls: seq<Call>)

  ghost predicate Init(s: State) {
    s == State(0, [], 0, None, 0, 0, false, [])
  }

  ghost predicate PublishStep(s: State, s': State) {
    s.holder == None && !s.down && s' == s.(published := s.published + 1, holder := Some(s.published))
  }

  ghost predicate BrokerStep(s: State, s': State) {
    && !s.down && |s.verdicts| < s.published
    && exists ack :: s' == s.(verdicts := s.verdicts + [ack])
  }

  /** The holder's select: a buffered verdict, the end of its context, or the zero value of
      the confirms channel once that is closed and empty. */
  ghost predicate ReceiveStep(s: State, s': State) {
    && s.holder.Some? && s.read < |s.verdicts|
    && s' == s.(read := s.read + 1, holder := None,
                calls := s.calls + [Call(s.holder.value, s.timeouts, Some(s.read),
                                         Await(s.verdicts[s.read..], s.down, false).0)])
  }

  ghost predicate TimeoutStep(s: State, s': State) {
    && s.holder.Some? && s.read <= |s.verdicts|
    && s' == s.(timeouts := s.timeouts + 1, holder := None,
                calls := s.calls + [Call(s.holder.value, s.timeouts, None,
                                         Await(s.verdicts[s.read..], s.down, true).0)])
  }

  ghost predicate DownStep(s: State, s': State) {
    || s' == s.(down := true)
    || (s.down && s.holder.Some? && s.read == |s.verdicts|
        && s' == s.(cutOff := s.cutOff + 1, holder := None,
                    calls := s.calls + [Call(s.holder.value, s.timeouts, None, Await([], true, false).0)]))
  }

  ghost predicate Next(s: State, s': State) {
    PublishStep(s, s') || BrokerStep(s, s') || ReceiveStep(s, s') || TimeoutStep(s, s') || DownStep(s, s')
  }

  // ---------- the invariant ----------

  ghost predicate CallInv(s: State, c: Call) {
    && c.message < s.published && c.earlier <= s.timeouts
    && (c.answer == Acked || (c.answer == ConfirmFailed && !s.down) ==> c.confirm.Some?)
    && (c.confirm == None ==> c.answer == TimedOut || (c.answer == ConfirmFailed && s.down))
    && (c.confirm.Some? ==>
          && c.confirm.value < s.read <= |s.verdicts|
          && c.confirm.value + c.earlier == c.message
          && c.answer == (if s.verdicts[c.confirm.value] then Acked else ConfirmFailed))
  }

  ghost predicate Inv(s: State) {
    && s.read <= |s.verdicts| <= s.published
    && s.read + s.timeouts + s.cutOff + (if s.holder.Some? then 1 else 0) == s.published
    && (s.holder.Some? ==> s.holder.value == s.published - 1 && s.cutOff == 0)
    && (s.cutOff > 0 ==> s.down && s.read == |s.verdicts|)
    && forall i | 0 <= i < |s.calls| :: CallInv(s, s.calls[i])
  }

  lemma StepPreserves(s: State, s': State)
    requires Inv(s) && Next(s, s')
    ensures Inv(s')
  {
    forall i | 0 <= i < |s'.calls|
      ensures CallInv(s', s'.calls[i])
    {
      if i < |s.calls| {
        assert CallInv(s, s.calls[i]);
      }
    }
  }

  // ---------- what every run guarantees ----------

  ghost predicate IsRun(run: seq<State>) {
    && run != [] && Init(run[0])
    && forall i | 0 <= i < |run| - 1 :: Next(run[i], run[i + 1])
  }

  ghost predicate Reachable(s: State) {
    exists run :: IsRun(run) && run[|run| - 1] == s
  }

  lemma {:induction false} RunInv(run: seq<State>, i: nat)
    requires IsRun(run) && i < |run|
    ensures Inv(run[i])
  {
    if i > 0 {
      RunInv(run, i - 1);
      StepPreserves(run[i - 1], run[i]);
    }
  }

  lemma ReachableInv(s: State)
    requires Reachable(s)
    ensures Inv(s)
  {
    var run :| IsRun(run) && run[|run| - 1] == s;
    RunInv(run, |run| - 1);
  }

  /** A caller that reads a confirm reads the one of the message published as many places
      earlier as calls have timed out before it: its own if and only if none has. */
  lemma ConfirmLag(s: State, i: nat)
    requires Reachable(s) && i < |s.calls| && s.calls[i].confirm.Some?
    ensures s.calls[i].confirm.value == s.calls[i].message - s.calls[i].earlier
    ensures s.calls[i].confirm.value == s.calls[i].message <==> s.calls[i].earlier == 0
  {
    ReachableInv(s);
    assert CallInv(s, s.calls[i]);
  }

  /** Before the first timeout, success means that this very message was acked, and while the
      channel is up a reported nack was this message's. */
  lemma AnswerIsOwn(s: State, i: nat)
    requires Reachable(s) && i < |s.calls| && s.calls[i].earlier == 0
    ensures s.calls[i].answer == Acked ==>
              s.calls[i].message < |s.verdicts| && s.verdicts[s.calls[i].message]
    ensures s.calls[i].answer == ConfirmFailed && !s.down ==>
              s.calls[i].message < |s.verdicts| && !s.verdicts[s.calls[i].message]
  {
    ReachableInv(s);
    assert CallInv(s, s.calls[i]);
  }

  /** A call that reads no confirm reports a timeout, or a failed confirm on a channel that has
      been shut down: never success. */
  lemma UnreadIsTimeout(s: State, i: nat)
    requires Reachable(s) && i < |s.calls| && s.calls[i].confirm == None
    ensures s.calls[i].answer == TimedOut || (s.calls[i].answer == ConfirmFailed && s.down)
  {
    ReachableInv(s);
    assert CallInv(s, s.calls[i]);
  }

  /** Between calls, the confirms nobody has read yet are at most as many as the calls that
      timed out; before the first timeout there is none. */
  lemma UnreadBounded(s: State)
    requires Reachable(s) && s.holder == None
    ensures |s.verdicts| - s.read <= s.timeouts
  {
    ReachableInv(s);
  }

  // ---------- the limit of the guarantee ----------

  /** A call with that many timeouts before it has reported success for a message that the
      broker has nacked. */
  ghost predicate FalseSuccess(s: State, i: nat, earlier: nat) {
    && Reachable(s) && i < |s.calls| && s.calls[i].earlier == earlier
    && s.calls[i].answer == Acked && s.calls[i].message < |s.verdicts| && !s.verdicts[s.calls[i].message]
  }

  /** That can happen exactly if some call has timed out before it. */
  lemma FalseSuccessExactly(earlier: nat)
    ensures (exists s, i :: FalseSuccess(s, i, earlier)) <==> earlier > 0
  {
    if earlier > 0 {
      var s := NackReportedAsAck(earlier);
      assert FalseSuccess(s, earlier, earlier);
    }
    if s, i :| FalseSuccess(s, i, earlier) && earlier == 0 {
      AnswerIsOwn(s, i);
    }
  }

  /** After any number of timeouts the pairing is off: the next call reads the ack of the first
      message and reports success for its own, which the broker has nacked. */
  lemma NackReportedAsAck(timeouts: nat) returns (s: State)
    requires timeouts > 0
    ensures Reachable(s) && |s.calls| == timeouts + 1
    ensures s.calls[timeouts] == Call(timeouts, timeouts, Some(0), Acked)
    ensures timeouts < |s.verdicts| && !s.verdicts[timeouts]
  {
    var waiting := TimedOutTimes(timeouts);
    var published := waiting.(published := timeouts + 1, holder := Some(timeouts));
    assert PublishStep(waiting, published);
    Extend(waiting, published);
    var acked := AckedTimes(published, timeouts);
    var judged := acked.(verdicts := acked.verdicts + [false]);
    ByBroker(acked, judged, false);
    s := judged.(read := 1, holder := None, calls := judged.calls + [Call(timeouts, timeouts, Some(0), Acked)]);
    assert judged.verdicts[0..][0];
    assert ReceiveStep(judged, s);
    Extend(judged, s);
  }

  /** That many messages published one after the other, none answered in time. */
  lemma {:induction false} TimedOutTimes(n: nat) returns (s: State)
    ensures Reachable(s) && |s.calls| == n
    ensures s == State(n, [], 0, None, n, 0, false, s.calls)
  {
    if n == 0 {
      s := State(0, [], 0, None, 0, 0, false, []);
      assert IsRun([s]) && [s][|[s]| - 1] == s;
    } else {
      var before := TimedOutTimes(n - 1);
      var published := before.(published := n, holder := Some(n - 1));
      assert PublishStep(before, published);
      Extend(before, published);
      s := published.(timeouts := n, holder := None, calls := before.calls + [Call(n - 1, n - 1, None, TimedOut)]);
      assert TimeoutStep(published, s);
      Extend(published, s);
    }
  }

  /** The broker acks the first n messages. */
  lemma {:induction false} AckedTimes(s: State, n: nat) returns (s': State)
    requires Reachable(s) && !s.down && s.verdicts == [] && n < s.published
    ensures Reachable(s') && s' == s.(verdicts := s'.verdicts) && |s'.verdicts| == n
    ensures forall k | 0 <= k < n :: s'.verdicts[k]
  {
    if n == 0 {
      s' := s;
    } else {
      var before := AckedTimes(s, n - 1);
      s' := before.(verdicts := before.verdicts + [true]);
      ByBroker(before, s', true);
    }
  }

  lemma ByBroker(s: State, s': State, ack: bool)
    requires Reachable(s) && !s.down && |s.verdicts| < s.published
    requires s' == s.(verdicts := s.verdicts + [ack])
    ensures Reachable(s')
  {
    assert BrokerStep(s, s');
    Extend(s, s');
  }

  lemma Extend(s: State, s': State)
    requires Reachable(s) && Next(s, s')
    ensures Reachable(s')
  {
    var run :| IsRun(run) && run[|run| - 1] == s;
    var longer := run + [s'];
    assert forall i | 0 <= i < |run| :: longer[i] == run[i];
    assert IsRun(longer) && longer[|longer| - 1] == s';
  }
}
