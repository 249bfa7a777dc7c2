/** The pool scraper's delta accounting (pkg/database/internal/pool/metrics.go). */
module PoolScraper {
  import opened Int64

  /** Pool statistics; waitDuration is in nanoseconds. */
  datatype Stats = Stats(open: int64, idle: int64, waitCount: int64, waitDuration: int64)

  const NANOS_PER_MILLI := 1_000_000

  /** What the scraper has added to its four counters. */
  datatype Emitted = Emitted(open: int, idle: int, waitCount: int, waitMillis: int)

  /** The greatest of 0 and the samples of one field. */
  function RunningMax(samples: seq<Stats>, field: Stats -> int): (m: int)
    ensures m >= 0
    ensures forall s | s in samples :: field(s) <= m
    ensures m == 0 || exists s | s in samples :: field(s) == m
  {
    if samples == [] then 0
    else
      var last := samples[|samples| - 1];
      var before := RunningMax(samples[..|samples| - 1], field);
      assert samples == samples[..|samples| - 1] + [last];
      if field(last) > before then field(last) else before
  }

  function WaitCount(s: Stats): int {
    s.waitCount
  }

  function WaitDuration(s: Stats): int {
    s.waitDuration
  }

  /** The subtraction of the running maximum stays within 64 bits at every sample. */
  ghost predicate NeverWraps(samples: seq<Stats>, field: Stats -> int) {
    samples == [] ||
    var n := |samples| - 1;
    NeverWraps(samples[..n], field) && InRange(field(samples[n]) - RunningMax(samples[..n], field))
  }

  /** Counters that are never negative, as a pool's are, do not wrap. */
  lemma {:induction false} NonNegativeNeverWraps(samples: seq<Stats>, field: Stats -> int)
    requires forall s | s in samples :: 0 <= field(s) <= MAX
    ensures NeverWraps(samples, field)
  {
    if samples != [] {
      var n := |samples| - 1;
      NonNegativeNeverWraps(samples[..n], field);
      assert samples[n] in samples;
    }
  }

  function Latest(samples: seq<Stats>): Stats {
    if samples == [] then Stats(0, 0, 0, 0) else samples[|samples| - 1]
  }

  ghost predicate NonNegative(samples: seq<Stats>) {
    forall s | s in samples :: s.open >= 0 && s.idle >= 0
  }

  /** A gauge fed with differences shows the latest sample. */
  ghost predicate Telescopes(samples: seq<Stats>, open: int, idle: int) {
    && Wrap(open) == Latest(samples).open && Wrap(idle) == Latest(samples).idle
    && (NonNegative(samples) ==> open == Latest(samples).open && idle == Latest(samples).idle)
  }

  /** The sum of the positive differences of one field is the running maximum, unless a
      difference has wrapped, which adds 2^64 for good. */
  ghost predicate Accumulates(samples: seq<Stats>, field: Stats -> int, total: int, prev: int64) {
    && (total == prev || total >= prev + MODULUS)
    && (total == prev <==> NeverWraps(samples, field))
    && (total == prev ==> prev == RunningMax(samples, field))
  }

  /** Each addition of whole milliseconds loses less than one of them. */
  ghost predicate Milliseconds(nanos: int, millis: int, ticks: nat) {
    nanos - ticks * (NANOS_PER_MILLI - 1) <= millis * NANOS_PER_MILLI <= nanos
  }

  /** What the loop remembers between two samples. */
  datatype Previous = Previous(open: int64, idle: int64, waitCount: int64, waitDuration: int64)

  /** The counters after the samples, with `ticks` additions to the wait duration, of
      differences that make up `nanos`. */
  ghost predicate Tracks(samples: seq<Stats>, e: Emitted, ticks: nat, nanos: int, prev: Previous) {
    && prev.open == Latest(samples).open && prev.idle == Latest(samples).idle
    && Telescopes(samples, e.open, e.idle)
    && Accumulates(samples, WaitCount, e.waitCount, prev.waitCount)
    && Accumulates(samples, WaitDuration, nanos, prev.waitDuration)
    && Milliseconds(nanos, e.waitMillis, ticks)
  }

  /** The scraper's loop over the samples it takes before it is stopped. `ticks` is how often
      it added to the wait duration counter, and `nanos` what the differences it added make up
      before they are cut to milliseconds. */
  method Run(samples: seq<Stats>) returns (e: Emitted, ticks: nat, ghost nanos: int)
    ensures Telescopes(samples, e.open, e.idle)
    ensures e.waitCount == RunningMax(samples, WaitCount) <==> NeverWraps(samples, WaitCount)
    ensures Milliseconds(nanos, e.waitMillis, ticks)
    ensures nanos == RunningMax(samples, WaitDuration) <==> NeverWraps(samples, WaitDuration)
    ensures !NeverWraps(samples, WaitDuration) ==> nanos > MAX
    ensures ticks <= |samples|
    ensures NonNegative(samples) && samples != [] ==>
              e.open == samples[|samples| - 1].open && e.idle == samples[|samples| - 1].idle
    ensures (forall s | s in samples :: s.waitCount >= 0) ==>
              && (forall s | s in samples :: s.waitCount <= e.waitCount)
              && (e.waitCount == 0 || exists s | s in samples :: s.waitCount == e.waitCount)
    ensures (forall s | s in samples :: s.waitDuration >= 0) ==>
              && (forall s | s in samples :: s.waitDuration <= nanos)
              && (nanos == 0 || exists s | s in samples :: s.waitDuration == nanos)
    ensures nanos - ticks * 999_999 <= e.waitMillis * 1_000_000 <= nanos
  {
    var prev := Previous(0, 0, 0, 0);
    e, ticks, nanos := Emitted(0, 0, 0, 0), 0, 0;
    for i := 0 to |samples|
      invariant Tracks(samples[..i], e, ticks, nanos, prev)
      invariant ticks <= i
    {
      assert samples[..i + 1] == samples[..i] + [samples[i]];
      e, ticks, nanos, prev := Observe(samples[..i], e, ticks, nanos, prev, samples[i]);
    }
    assert samples[..|samples|] == samples;
    RunningMaxFits(samples);
    GreatestSample(samples, WaitCount);
    GreatestSample(samples, WaitDuration);
  }

  /** What the running maximum is when nothing wraps. */
  lemma GreatestSample(samples: seq<Stats>, field: Stats -> int)
    ensures (forall s | s in samples :: 0 <= field(s) <= MAX) ==> NeverWraps(samples, field)
  {
    if forall s | s in samples :: 0 <= field(s) <= MAX {
      NonNegativeNeverWraps(samples, field);
    }
  }

  /** The loop's body. */
  method Observe(ghost before: seq<Stats>, e: Emitted, ticks: nat, ghost nanos: int, prev: Previous, cur: Stats)
    returns (e': Emitted, ticks': nat, ghost nanos': int, prev': Previous)
    requires Tracks(before, e, ticks, nanos, prev)
    ensures Tracks(before + [cur], e', ticks', nanos', prev') && ticks' <= ticks + 1
  {
    GaugeStep(before, e.open, e.idle, prev.open, prev.idle, cur);
    CountStep(before, WaitCount, e.waitCount, prev.waitCount, cur, cur.waitCount);
    CountStep(before, WaitDuration, nanos, prev.waitDuration, cur, cur.waitDuration);

    e' := e.(open := e.open + Wrap(cur.open - prev.open), idle := e.idle + Wrap(cur.idle - prev.idle));
    ticks', nanos', prev' := ticks, nanos, prev.(open := cur.open, idle := cur.idle);
    var deltaWait := Wrap(cur.waitCount - prev.waitCount);
    if deltaWait > 0 {
      e' := e'.(waitCount := e.waitCount + deltaWait);
      prev' := prev'.(waitCount := cur.waitCount);
    }
    var deltaDuration := Wrap(cur.waitDuration - prev.waitDuration);
    if deltaDuration > 0 {
      MillisStep(nanos, e.waitMillis, ticks, deltaDuration);
      e' := e'.(waitMillis := e.waitMillis + Trunc(deltaDuration, NANOS_PER_MILLI));
      ticks', nanos' := ticks + 1, nanos + deltaDuration;
      prev' := prev'.(waitDuration := cur.waitDuration);
    }
  }

  lemma MillisStep(nanos: int, millis: int, ticks: nat, delta: int)
    requires Milliseconds(nanos, millis, ticks) && delta > 0
    ensures Milliseconds(nanos + delta, millis + Trunc(delta, NANOS_PER_MILLI), ticks + 1)
  {
  }

  lemma {:induction false} RunningMaxFits(samples: seq<Stats>)
    ensures RunningMax(samples, WaitCount) <= MAX && RunningMax(samples, WaitDuration) <= MAX
  {
    if samples != [] {
      RunningMaxFits(samples[..|samples| - 1]);
    }
  }

  lemma GaugeStep(before: seq<Stats>, open: int, idle: int, prevOpen: int64, prevIdle: int64, cur: Stats)
    requires Telescopes(before, open, idle)
    requires prevOpen == Latest(before).open && prevIdle == Latest(before).idle
    ensures Telescopes(before + [cur], open + Wrap(cur.open - prevOpen), idle + Wrap(cur.idle - prevIdle))
  {
    var now := before + [cur];
    if NonNegative(now) {
      assert cur in now;
      assert forall s | s in before :: s in now;
      assert before != [] ==> Latest(before) in before;
    }
    assert Latest(now) == cur;
    WrapSum(open, prevOpen, cur.open);
    WrapSum(idle, prevIdle, cur.idle);
  }

  lemma WrapSum(total: int, prev: int64, cur: int64)
    requires Wrap(total) == prev
    ensures Wrap(total + Wrap(cur - prev)) == cur
  {
    var m := WrapShape(total);
    var k := WrapShape(cur - prev);
    assert total + Wrap(cur - prev) == cur - (k - m) * MODULUS;
    WrapPeriod(cur, k - m);
  }

  lemma MaxStep(before: seq<Stats>, cur: Stats, field: Stats -> int)
    ensures RunningMax(before + [cur], field) ==
              if field(cur) > RunningMax(before, field) then field(cur) else RunningMax(before, field)
    ensures NeverWraps(before + [cur], field) <==>
              NeverWraps(before, field) && InRange(field(cur) - RunningMax(before, field))
  {
    assert (before + [cur])[..|before|] == before;
  }

  lemma CountStep(before: seq<Stats>, field: Stats -> int, total: int, prev: int64, cur: Stats, now: int64)
    requires Accumulates(before, field, total, prev) && now == field(cur)
    ensures var delta := Wrap(now - prev);
            if delta > 0 then Accumulates(before + [cur], field, total + delta, now)
            else Accumulates(before + [cur], field, total, prev)
  {
    MaxStep(before, cur, field);
    WrapOnce(now - prev);
  }
}
