/** The bounded FIFO that holds depth deltas while a book is stale. */
module RecoveryBuffers {
  import opened Integers
  import opened Messages

  const MAX_EVENTS: u64 := 2_048
  const MAX_BYTES: u64 := 4_194_304
  const MAX_AGE_NS: i64 := 10_000_000_000

  datatype BufferedDelta = BufferedDelta(delta: BookDelta, recvTs: i64, encodedSize: u64)

  datatype OverflowReason = Age | EventCount | ByteSize
  datatype PushResult = Accepted | Overflow(reason: OverflowReason)

  datatype Limits = Limits(maxEvents: u64, maxBytes: u64, maxAgeNs: i64)

  const DEFAULT_LIMITS: Limits := Limits(MAX_EVENTS, MAX_BYTES, MAX_AGE_NS)

  datatype Buffer = Buffer(events: seq<BufferedDelta>, totalBytes: u64)

  const EMPTY: Buffer := Buffer([], 0)

  function SaturatingAdd(x: u64, y: u64): u64 {
    if x + y > U64_MAX then U64_MAX else x + y
  }

  function Refusal(buffer: Buffer, limits: Limits, recvTs: i64, encodedSize: u64): PushResult {
    if buffer.events != [] && SaturatingSub(recvTs, buffer.events[0].recvTs) > limits.maxAgeNs then Overflow(Age)
    else if |buffer.events| >= limits.maxEvents then Overflow(EventCount)
    else if SaturatingAdd(buffer.totalBytes, encodedSize) > limits.maxBytes then Overflow(ByteSize)
    else Accepted
  }

  function Pushed(buffer: Buffer, limits: Limits, event: BufferedDelta): Buffer {
    if Refusal(buffer, limits, event.recvTs, event.encodedSize).Accepted? then
      Buffer(buffer.events + [event], WrapU64(buffer.totalBytes + event.encodedSize))
    else
      buffer
  }

  // The events a snapshot does not already contain, in arrival order.
  function After(events: seq<BufferedDelta>, snapshotId: u64): seq<BufferedDelta> {
    if events == [] then []
    else
      var kept := After(events[..|events| - 1], snapshotId);
      var last := events[|events| - 1];
      if last.delta.finalUpdateId > snapshotId then kept + [last] else kept
  }

  function ByteSum(events: seq<BufferedDelta>): nat {
    if events == [] then 0 else ByteSum(events[..|events| - 1]) + events[|events| - 1].encodedSize
  }

  // What holds of every reachable buffer.
  ghost predicate Bounded(buffer: Buffer, limits: Limits) {
    && |buffer.events| <= limits.maxEvents
    && buffer.totalBytes <= limits.maxBytes
    && buffer.totalBytes == WrapU64(ByteSum(buffer.events))
    && (limits.maxBytes < U64_MAX ==> buffer.totalBytes == ByteSum(buffer.events))
    && forall i | 0 < i < |buffer.events| ::
         SaturatingSub(buffer.events[i].recvTs, buffer.events[0].recvTs) <= limits.maxAgeNs
  }

  lemma {:induction false} PushKeepsBounds(buffer: Buffer, limits: Limits, event: BufferedDelta)
    requires Bounded(buffer, limits)
    ensures Bounded(Pushed(buffer, limits, event), limits)
  {
    var after := Pushed(buffer, limits, event);
    if Refusal(buffer, limits, event.recvTs, event.encodedSize).Accepted? {
      assert after.events[..|after.events| - 1] == buffer.events;
      var sum, size := ByteSum(buffer.events), event.encodedSize;
      ModShift(buffer.totalBytes + size, sum / 0x1_0000_0000_0000_0000);
    }
  }

  // Whether an event may still be held with the oldest one; a maximum of i64::MAX lets any pass.
  predicate Fresh(oldestNs: i64, recvTs: i64, maxAgeNs: i64) {
    recvTs - oldestNs <= maxAgeNs || maxAgeNs == I64_MAX
  }

  lemma {:induction false} FreshIff(oldestNs: i64, recvTs: i64, maxAgeNs: i64)
    ensures Fresh(oldestNs, recvTs, maxAgeNs) <==> SaturatingSub(recvTs, oldestNs) <= maxAgeNs
  {
  }

  // Which limit a refusal names: age before count before bytes, and none when all three allow.
  lemma {:induction false} RefusalIff(buffer: Buffer, limits: Limits, recvTs: i64, size: u64)
    ensures var aged := buffer.events != [] && !Fresh(buffer.events[0].recvTs, recvTs, limits.maxAgeNs);
            var full := |buffer.events| >= limits.maxEvents;
            var heavy := buffer.totalBytes + size > limits.maxBytes && limits.maxBytes < U64_MAX;
            var r := Refusal(buffer, limits, recvTs, size);
            && (r.Accepted? <==> !aged && !full && !heavy)
            && (r == Overflow(Age) <==> aged)
            && (r == Overflow(EventCount) <==> !aged && full)
            && (r == Overflow(ByteSize) <==> !aged && !full && heavy)
  {
    if buffer.events != [] {
      FreshIff(buffer.events[0].recvTs, recvTs, limits.maxAgeNs);
    }
  }

  // A whole stream is within the limits of an empty buffer. A byte limit of u64::MAX lets any pass.
  predicate WithinLimits(limits: Limits, events: seq<BufferedDelta>) {
    && |events| <= limits.maxEvents
    && (ByteSum(events) <= limits.maxBytes || limits.maxBytes == U64_MAX)
    && forall i | 0 < i < |events| :: Fresh(events[0].recvTs, events[i].recvTs, limits.maxAgeNs)
  }

  // Pushing the events one by one never overflows exactly when the whole stream is.
  predicate NeverOverflows(limits: Limits, events: seq<BufferedDelta>) {
    if events == [] then true
    else
      var front, last := events[..|events| - 1], events[|events| - 1];
      && NeverOverflows(limits, front)
      && Refusal(AllPushed(limits, front), limits, last.recvTs, last.encodedSize).Accepted?
  }

  function AllPushed(limits: Limits, events: seq<BufferedDelta>): Buffer {
    if events == [] then EMPTY else Pushed(AllPushed(limits, events[..|events| - 1]), limits, events[|events| - 1])
  }

  lemma {:induction false} AllAreHeld(limits: Limits, events: seq<BufferedDelta>)
    requires NeverOverflows(limits, events)
    ensures AllPushed(limits, events) == Buffer(events, WrapU64(ByteSum(events)))
    ensures limits.maxBytes < U64_MAX ==> ByteSum(events) <= limits.maxBytes
  {
    if events != [] {
      var front, last := events[..|events| - 1], events[|events| - 1];
      AllAreHeld(limits, front);
      RefusalIff(AllPushed(limits, front), limits, last.recvTs, last.encodedSize);
      SumWraps(ByteSum(front), last.encodedSize);
      WrapBelow(ByteSum(front));
      assert front + [last] == events;
    }
  }

  lemma {:induction false} WithinSnoc(limits: Limits, front: seq<BufferedDelta>, last: BufferedDelta)
    ensures WithinLimits(limits, front + [last])
       <==> WithinLimits(limits, front) && |front| < limits.maxEvents
            && (ByteSum(front) + last.encodedSize <= limits.maxBytes || limits.maxBytes == U64_MAX)
            && (front != [] ==> Fresh(front[0].recvTs, last.recvTs, limits.maxAgeNs))
  {
    var all := front + [last];
    assert all[..|front|] == front;
    if front != [] {
      assert all[0] == front[0] && all[|front|] == last;
    }
    if WithinLimits(limits, all) {
      forall i | 0 < i < |front|
        ensures Fresh(front[0].recvTs, front[i].recvTs, limits.maxAgeNs)
      {
        assert Fresh(all[0].recvTs, all[i].recvTs, limits.maxAgeNs);
      }
    }
  }

  lemma {:induction false} NeverOverflowsIff(limits: Limits, events: seq<BufferedDelta>)
    ensures NeverOverflows(limits, events) <==> WithinLimits(limits, events)
  {
    if events != [] {
      var front, last := events[..|events| - 1], events[|events| - 1];
      assert front + [last] == events;
      NeverOverflowsIff(limits, front);
      WithinSnoc(limits, front, last);
      if NeverOverflows(limits, front) {
        AllAreHeld(limits, front);
        WrapBelow(ByteSum(front));
        RefusalIff(AllPushed(limits, front), limits, last.recvTs, last.encodedSize);
      }
    }
  }

  lemma {:induction false} AfterConcat(a: seq<BufferedDelta>, b: seq<BufferedDelta>, snapshotId: u64)
    ensures After(a + b, snapshotId) == After(a, snapshotId) + After(b, snapshotId)
  {
    if b == [] {
      assert a + b == a;
    } else {
      assert (a + b)[..|a + b| - 1] == a + b[..|b| - 1];
      AfterConcat(a, b[..|b| - 1], snapshotId);
    }
  }

  lemma {:induction false} AfterKeeps(events: seq<BufferedDelta>, snapshotId: u64)
    ensures forall e :: e in After(events, snapshotId) <==> e in events && e.delta.finalUpdateId > snapshotId
  {
    if events != [] {
      AfterKeeps(events[..|events| - 1], snapshotId);
      assert events == events[..|events| - 1] + [events[|events| - 1]];
    }
  }

  // As often as they came.
  lemma {:induction false} AfterKeepsCounts(events: seq<BufferedDelta>, snapshotId: u64, e: BufferedDelta)
    ensures multiset(After(events, snapshotId))[e]
         == if e.delta.finalUpdateId > snapshotId then multiset(events)[e] else 0
  {
    if events != [] {
      var front, last := events[..|events| - 1], events[|events| - 1];
      AfterKeepsCounts(front, snapshotId, e);
      assert events == front + [last];
    }
  }

  class RecoveryBuffer {
    const limits: Limits
    var events: seq<BufferedDelta>
    var totalBytes: u64

    function View(): Buffer
      reads this
    {
      Buffer(events, totalBytes)
    }

    ghost predicate Valid()
      reads this
    {
      Bounded(View(), limits)
    }

    constructor WithLimits(limits: Limits)
      ensures Valid() && View() == EMPTY && this.limits == limits
    {
      this.limits := limits;
      events, totalBytes := [], 0;
    }

    method Push(delta: BookDelta, recvTs: i64, encodedSize: u64) returns (result: PushResult)
      requires Valid()
      modifies this
      ensures Valid()
      ensures result == Refusal(old(View()), limits, recvTs, encodedSize)
      ensures View() == Pushed(old(View()), limits, BufferedDelta(delta, recvTs, encodedSize))
    {
      ghost var after := Pushed(View(), limits, BufferedDelta(delta, recvTs, encodedSize));
      PushKeepsBounds(View(), limits, BufferedDelta(delta, recvTs, encodedSize));
      if |events| > 0 {
        if SaturatingSub(recvTs, events[0].recvTs) > limits.maxAgeNs {
          return Overflow(Age);
        }
      }
      if |events| >= limits.maxEvents {
        return Overflow(EventCount);
      }
      if SaturatingAdd(totalBytes, encodedSize) > limits.maxBytes {
        return Overflow(ByteSize);
      }
      totalBytes := WrapU64(totalBytes + encodedSize);
      events := events + [BufferedDelta(delta, recvTs, encodedSize)];
      assert View() == after;
      return Accepted;
    }

    method DrainAfter(snapshotId: u64) returns (kept: seq<BufferedDelta>)
      requires Valid()
      modifies this
      ensures Valid() && View() == EMPTY
      ensures kept == After(old(events), snapshotId)
    {
      kept := After(events, snapshotId);
      events, totalBytes := [], 0;
    }

    method Clear()
      requires Valid()
      modifies this
      ensures Valid() && View() == EMPTY
    {
      events, totalBytes := [], 0;
    }
  }
}
