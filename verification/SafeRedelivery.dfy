/** What the republication of a failed delivery is worth: the consumer
    (pkg/messaging/rabbitmq/consumer.go) over a channel with publisher confirms
    (pkg/messaging/rabbitmq/channel_pool.go). */
module SafeRedelivery {
  import opened Options
  import C = ConfirmPairing
  import R = Redelivery

  /** The broker has nacked the message that call i published. */
  ghost predicate Nacked(s: C.State, i: nat)
    requires i < |s.calls|
  {
    s.calls[i].message < |s.verdicts| && !s.verdicts[s.calls[i].message]
  }

  /** processMessage for a delivery whose copy, if it is republished, is published by call i of
      the channel. If the handler fails and the delivery is acknowledged all the same, the
      broker has acked that very copy, unless an earlier call on the channel timed out. */
  method ProcessOverChannel(
    consumer: R.Consumer, d: R.Delivery, w: R.World, answer: C.Answer, ghost s: C.State, ghost i: nat)
    requires C.Reachable(s) && i < |s.calls| && s.calls[i].answer == answer
    requires w.published <==> answer == C.Acked
    requires !consumer.autoAck && consumer.HandlerEnd(d.copy.routingKey, w) == Some(R.Fails)
    modifies d, consumer.exchange
    ensures d.acks + d.nacks == old(d.acks) + old(d.nacks) + 1
    ensures d.acks == old(d.acks) + 1 && s.calls[i].earlier == 0 ==>
              s.calls[i].message < |s.verdicts| && s.verdicts[s.calls[i].message]
    ensures d.acks == old(d.acks) + 1 && Nacked(s, i) ==> s.calls[i].earlier > 0
    ensures d.acks == old(d.acks) + 1 ==> consumer.exchange.copies == old(consumer.exchange.copies) + [R.Bumped(d.copy)]
  {
    consumer.ProcessMessage(d, w);
    if s.calls[i].earlier == 0 {
      C.AnswerIsOwn(s, i);
    }
  }

  /** A message is lost: its handler has failed, the delivery is acknowledged, and the copy has
      been nacked. It takes one timeout on the channel. */
  method LoseMessage(copy: R.Copy, maxRetries: int)
    returns (d: R.Delivery, ghost s: C.State, ghost i: nat)
    requires R.RetryCount(copy.headers) < maxRetries
    ensures d.copy == copy && d.acks == 1 && d.nacks == 0
    ensures C.Reachable(s) && i < |s.calls| && s.calls[i].earlier == 1 && Nacked(s, i)
  {
    s := C.NackReportedAsAck(1);
    i := 1;
    var exchange := new R.Exchange();
    var consumer := new R.Consumer(false, maxRetries, exchange);
    consumer.RegisterHandler(copy.routingKey, Some(0));
    d := new R.Delivery(copy);
    var w := R.World(_ => R.Fails, false, true, true, true);
    consumer.ProcessMessage(d, w);
  }
}
