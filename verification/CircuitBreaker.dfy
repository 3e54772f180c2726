/**
 * The recovery circuit breaker, and what it guarantees whoever is being retried: however often
 * recovery is asked for, failing attempts are spaced out.
 */
module CircuitBreakers {
  import opened Integers
  import opened Wrappers

  const MAX_ATTEMPTS: u32 := 5
  const COOLDOWN_NS: i64 := 30_000_000_000

  datatype CircuitState = Closed | Open(retryAfterNs: i64)

  datatype Breaker = Breaker(failures: u32, maxAttempts: u32, cooldownNs: i64, openUntil: Option<i64>)

  // The state is mutated even by the query: an expired cooldown resets the breaker.
  function Checked(b: Breaker, nowNs: i64): (Breaker, CircuitState) {
    match b.openUntil
    case None => (b, Closed)
    case Some(until) =>
      if nowNs < until then (b, Open(until)) else (b.(failures := 0, openUntil := None), Closed)
  }

  // u32 addition wraps.
  function OneMore(failures: u32): u32 {
    if failures == 0xffff_ffff then 0 else failures + 1
  }

  function Failed(b: Breaker, nowNs: i64): (Breaker, bool) {
    if b.openUntil.Some? then (b, false)
    else
      var failures := OneMore(b.failures);
      if failures >= b.maxAttempts
      then (b.(failures := failures, openUntil := Some(WrapI64(nowNs + b.cooldownNs))), true)
      else (b.(failures := failures), false)
  }

  class CircuitBreaker {
    var failures: u32
    const maxAttempts: u32
    const cooldownNs: i64
    var openUntil: Option<i64>

    function View(): Breaker
      reads this
    {
      Breaker(failures, maxAttempts, cooldownNs, openUntil)
    }

    constructor ()
      ensures View() == Breaker(0, MAX_ATTEMPTS, COOLDOWN_NS, None)
    {
      failures, maxAttempts, cooldownNs, openUntil := 0, MAX_ATTEMPTS, COOLDOWN_NS, None;
    }

    constructor WithLimits(maxAttempts: u32, cooldownNs: i64)
      ensures View() == Breaker(0, maxAttempts, cooldownNs, None)
    {
      failures, this.maxAttempts, this.cooldownNs, openUntil := 0, maxAttempts, cooldownNs, None;
    }

    method Check(nowNs: i64) returns (state: CircuitState)
      modifies this
      ensures (View(), state) == Checked(old(View()), nowNs)
    {
      if openUntil.Some? {
        if nowNs < openUntil.value {
          return Open(openUntil.value);
        }
        failures, openUntil := 0, None;
      }
      return Closed;
    }

    method RecordSuccess()
      modifies this
      ensures View() == Breaker(0, maxAttempts, cooldownNs, None)
    {
      failures, openUntil := 0, None;
    }

    method RecordFailure(nowNs: i64) returns (justOpened: bool)
      modifies this
      ensures (View(), justOpened) == Failed(old(View()), nowNs)
    {
      if openUntil.Some? {
        return false;
      }
      failures := OneMore(failures);
      if failures >= maxAttempts {
        openUntil := Some(WrapI64(nowNs + cooldownNs));
        return true;
      }
      return false;
    }
  }

  // --- When it opens and for how long ----------------------------------------

  // A limit of zero still lets one attempt through.
  function Burst(maxAttempts: u32): nat {
    if maxAttempts == 0 then 1 else maxAttempts
  }

  function FailedAll(b: Breaker, times: seq<i64>): Breaker {
    if times == [] then b else Failed(FailedAll(b, times[..|times| - 1]), times[|times| - 1]).0
  }

  // A closed breaker without failures opens with the failure that completes a burst, no sooner.
  lemma {:induction false} OpensAtTheLimit(b: Breaker, times: seq<i64>)
    requires b.openUntil.None? && b.failures == 0
    ensures var after := FailedAll(b, times);
            && after.maxAttempts == b.maxAttempts && after.cooldownNs == b.cooldownNs
            && (after.openUntil.Some? <==> |times| >= Burst(b.maxAttempts))
            && after.failures == (if after.openUntil.Some? then Burst(b.maxAttempts) else |times|)
            && (after.openUntil.Some? ==>
                  after.openUntil.value == WrapI64(times[Burst(b.maxAttempts) - 1] + b.cooldownNs))
  {
    if times != [] {
      OpensAtTheLimit(b, times[..|times| - 1]);
    }
  }

  // The failure that opens it, and no other, is told to do so.
  lemma {:induction false} TellsWhenItOpens(b: Breaker, nowNs: i64)
    ensures Failed(b, nowNs).1 <==> b.openUntil.None? && Failed(b, nowNs).0.openUntil.Some?
    ensures b.openUntil.Some? ==> Failed(b, nowNs).0 == b
  {
  }

  datatype Poke = CheckedAt(checkNs: i64) | FailedAt(failNs: i64)

  function Poked(b: Breaker, pokes: seq<Poke>): Breaker {
    if pokes == [] then b
    else
      var before := Poked(b, pokes[..|pokes| - 1]);
      match pokes[|pokes| - 1]
      case CheckedAt(ns) => Checked(before, ns).0
      case FailedAt(ns) => Failed(before, ns).0
  }

  // An open breaker stays exactly as it is until its time, whatever is asked or fails meanwhile:
  // late failures do not restart the cooldown. Then the next check lets an attempt through.
  lemma {:induction false} ReopensOnTime(b: Breaker, pokes: seq<Poke>, nowNs: i64)
    requires b.openUntil.Some?
    requires forall i | 0 <= i < |pokes| && pokes[i].CheckedAt? :: pokes[i].checkNs < b.openUntil.value
    ensures Poked(b, pokes) == b
    ensures Checked(Poked(b, pokes), nowNs).1.Closed? <==> nowNs >= b.openUntil.value
    ensures nowNs < b.openUntil.value ==> Checked(Poked(b, pokes), nowNs) == (b, Open(b.openUntil.value))
    ensures nowNs >= b.openUntil.value ==>
              Checked(Poked(b, pokes), nowNs).0 == Breaker(0, b.maxAttempts, b.cooldownNs, None)
  {
    if pokes != [] {
      ReopensOnTime(b, pokes[..|pokes| - 1], nowNs);
    }
  }

  // --- Rate bound ------------------------------------------------------------

  // Recovery is wanted at `askedNs`; if the breaker lets it start, it fails at `failedNs`.
  datatype Ask = Ask(askedNs: i64, failedNs: i64)

  // The breaker after a run of failing recoveries, and when each attempt let through was started.
  datatype Tried = Tried(breaker: Breaker, attempts: seq<i64>)

  function Try(t: Tried, ask: Ask): Tried {
    var (checked, state) := Checked(t.breaker, ask.askedNs);
    if state.Open? then Tried(checked, t.attempts)
    else Tried(Failed(checked, ask.failedNs).0, t.attempts + [ask.askedNs])
  }

  function TryAll(maxAttempts: u32, cooldownNs: i64, asks: seq<Ask>): Tried {
    if asks == [] then Tried(Breaker(0, maxAttempts, cooldownNs, None), [])
    else Try(TryAll(maxAttempts, cooldownNs, asks[..|asks| - 1]), asks[|asks| - 1])
  }

  // A non-decreasing clock that stays a cooldown away from the end of time.
  predicate Clocked(asks: seq<Ask>, cooldownNs: i64) {
    && (forall i | 0 <= i < |asks| :: asks[i].askedNs <= asks[i].failedNs <= I64_MAX - cooldownNs)
    && (forall i | 0 < i < |asks| :: asks[i - 1].failedNs <= asks[i].askedNs)
  }

  ghost predicate Ascends(times: seq<i64>) {
    forall i, j | 0 <= i <= j < |times| :: times[i] <= times[j]
  }

  // Between an attempt and the one a full burst later lies a cooldown.
  ghost predicate Spaced(times: seq<i64>, burst: nat, cooldownNs: i64) {
    forall i, j | 0 <= i && i + burst == j < |times| :: times[i] + cooldownNs <= times[j]
  }

  // The breaker's own part: its count and its time to reopen fit the attempts let through.
  ghost predicate Counts(b: Breaker, times: seq<i64>, burst: nat, cooldownNs: i64) {
    var n, f := |times|, b.failures;
    match b.openUntil
    case Some(until) => n > 0 && times[n - 1] + cooldownNs <= until
    case None => f < burst && f <= n && (f == 0 ==> n == 0) && (f < n ==> times[n - f - 1] + cooldownNs <= times[n - f])
  }

  ghost predicate Paced(t: Tried, maxAttempts: u32, cooldownNs: i64) {
    && t.breaker.maxAttempts == maxAttempts && t.breaker.cooldownNs == cooldownNs
    && Ascends(t.attempts) && Spaced(t.attempts, Burst(maxAttempts), cooldownNs)
    && Counts(t.breaker, t.attempts, Burst(maxAttempts), cooldownNs)
  }

  lemma {:induction false} SpacedMore(times: seq<i64>, burst: nat, cooldownNs: i64, time: i64)
    requires burst > 0 && Ascends(times) && Spaced(times, burst, cooldownNs)
    requires forall i | 0 <= i < |times| :: times[i] <= time
    requires |times| >= burst ==> times[|times| - burst] + cooldownNs <= time
    ensures Ascends(times + [time]) && Spaced(times + [time], burst, cooldownNs)
  {
  }

  // An attempt that is let through comes a cooldown after the last full burst.
  lemma {:induction false} LetThroughLate(t: Tried, maxAttempts: u32, cooldownNs: i64, askedNs: i64)
    requires cooldownNs >= 0 && Paced(t, maxAttempts, cooldownNs) && Checked(t.breaker, askedNs).1.Closed?
    requires forall i | 0 <= i < |t.attempts| :: t.attempts[i] <= askedNs
    ensures var n, burst := |t.attempts|, Burst(maxAttempts);
            n >= burst ==> t.attempts[n - burst] + cooldownNs <= askedNs
  {
    var n, f, burst := |t.attempts|, t.breaker.failures, Burst(maxAttempts);
    if n >= burst {
      if t.breaker.openUntil.Some? {
        assert t.attempts[n - burst] <= t.attempts[n - 1];
      } else {
        assert t.attempts[n - burst] <= t.attempts[n - f - 1];
        assert t.attempts[n - f] <= askedNs;
      }
    }
  }

  lemma {:induction false} FailureKeepsPace(t: Tried, maxAttempts: u32, cooldownNs: i64, ask: Ask)
    requires cooldownNs >= 0 && Paced(t, maxAttempts, cooldownNs)
    requires Checked(t.breaker, ask.askedNs).1.Closed?
    requires ask.askedNs <= ask.failedNs <= I64_MAX - cooldownNs
    ensures Counts(Try(t, ask).breaker, Try(t, ask).attempts, Burst(maxAttempts), cooldownNs)
  {
    WrapInRange(ask.failedNs + cooldownNs);
  }

  lemma {:induction false} TryStaysPaced(t: Tried, maxAttempts: u32, cooldownNs: i64, ask: Ask)
    requires cooldownNs >= 0 && Paced(t, maxAttempts, cooldownNs)
    requires forall i | 0 <= i < |t.attempts| :: t.attempts[i] <= ask.askedNs
    requires ask.askedNs <= ask.failedNs <= I64_MAX - cooldownNs
    ensures Paced(Try(t, ask), maxAttempts, cooldownNs)
  {
    if Checked(t.breaker, ask.askedNs).1.Closed? {
      LetThroughLate(t, maxAttempts, cooldownNs, ask.askedNs);
      SpacedMore(t.attempts, Burst(maxAttempts), cooldownNs, ask.askedNs);
      FailureKeepsPace(t, maxAttempts, cooldownNs, ask);
    }
  }

  lemma {:induction false} RunStaysPaced(maxAttempts: u32, cooldownNs: i64, asks: seq<Ask>)
    requires cooldownNs >= 0 && Clocked(asks, cooldownNs)
    ensures var t := TryAll(maxAttempts, cooldownNs, asks);
            && Paced(t, maxAttempts, cooldownNs)
            && (t.attempts != [] ==> asks != [])
            && forall i | 0 <= i < |t.attempts| :: t.attempts[i] <= asks[|asks| - 1].failedNs
  {
    if asks != [] {
      var before := asks[..|asks| - 1];
      RunStaysPaced(maxAttempts, cooldownNs, before);
      TryStaysPaced(TryAll(maxAttempts, cooldownNs, before), maxAttempts, cooldownNs, asks[|asks| - 1]);
    }
  }

  lemma {:induction false} CooldownsAddUp(times: seq<i64>, burst: nat, cooldownNs: i64, i: nat, k: nat)
    requires burst > 0 && Spaced(times, burst, cooldownNs) && i + k * burst < |times|
    ensures times[i] + k * cooldownNs <= times[i + k * burst]
    decreases k
  {
    if k > 0 {
      var j := i + (k - 1) * burst;
      assert j + burst == i + k * burst;
      CooldownsAddUp(times, burst, cooldownNs, i, k - 1);
      assert times[j] + cooldownNs <= times[j + burst];
      assert k * cooldownNs == (k - 1) * cooldownNs + cooldownNs;
    }
  }

  // Attempts allowed in a window of time: a burst for every cooldown begun.
  function Allowance(burst: nat, cooldownNs: i64, window: nat): nat
    requires cooldownNs > 0
  {
    (window / cooldownNs + 1) * burst
  }

  // No window of time ever holds more attempts than its allowance.
  lemma {:induction false} RateIsBounded(maxAttempts: u32, cooldownNs: i64, asks: seq<Ask>,
                                         i: nat, n: nat, window: nat)
    requires cooldownNs > 0 && Clocked(asks, cooldownNs)
    requires var times := TryAll(maxAttempts, cooldownNs, asks).attempts;
             n > 0 && i + n <= |times| && times[i + n - 1] - times[i] <= window
    ensures n <= Allowance(Burst(maxAttempts), cooldownNs, window)
  {
    RunStaysPaced(maxAttempts, cooldownNs, asks);
    WindowHoldsFew(TryAll(maxAttempts, cooldownNs, asks).attempts, Burst(maxAttempts), cooldownNs, i, n, window);
  }

  lemma {:induction false} WindowHoldsFew(times: seq<i64>, burst: nat, cooldownNs: i64, i: nat, n: nat, window: nat)
    requires burst > 0 && cooldownNs > 0 && Ascends(times) && Spaced(times, burst, cooldownNs)
    requires n > 0 && i + n <= |times| && times[i + n - 1] - times[i] <= window
    ensures n <= Allowance(burst, cooldownNs, window)
  {
    MoreThanWindow(window, cooldownNs);
    FewerThan(times, burst, cooldownNs, i, n, window / cooldownNs + 1, window);
  }

  lemma {:induction false} FewerThan(times: seq<i64>, burst: nat, cooldownNs: i64, i: nat, n: nat, k: nat, window: nat)
    requires burst > 0 && Ascends(times) && Spaced(times, burst, cooldownNs) && k * cooldownNs > window
    requires n > 0 && i + n <= |times| && times[i + n - 1] - times[i] <= window
    ensures n <= k * burst
  {
    if n > k * burst {
      CooldownsAddUp(times, burst, cooldownNs, i, k);
    }
  }

  lemma {:induction false} MoreThanWindow(window: nat, cooldownNs: i64)
    requires cooldownNs > 0
    ensures (window / cooldownNs + 1) * cooldownNs > window
  {
  }
}
