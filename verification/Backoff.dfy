/** Two exponential backoffs: between reconnection attempts, and between probes of a starting daemon's socket. */
module Backoff {
  import opened Outcomes
  import opened Arithmetic

  // ---------------------------------------------------------------- reconnecting

  /** What wakes the maintenance loop: a manual trigger, or a health tick; `succeeds` is the outcome of a reconnect. */
  datatype Event = Trigger(succeeds: bool) | Tick(connected: bool, succeeds: bool)

  predicate Resets(e: Event) {
    e.Trigger? || (!e.connected && e.succeeds)
  }

  predicate Fails(e: Event) {
    e.Tick? && !e.connected && !e.succeeds
  }

  /** Failed health ticks since the last reset. Healthy ticks neither count nor reset. */
  function FailuresSinceReset(events: seq<Event>): nat {
    if events == [] || Resets(events[|events| - 1]) then 0
    else FailuresSinceReset(events[..|events| - 1]) + if Fails(events[|events| - 1]) then 1 else 0
  }

  /** The backoff after `k` failures in a row, when the minimum is at most the maximum. */
  function ReconnectBackoff(minBackoff: nat, maxBackoff: nat, k: nat): int {
    Min(minBackoff * Pow(2, k), maxBackoff)
  }

  /** The waits of the maintenance loop: after every failed tick, as long as the failures in a row before it call
      for. */
  function Sleeps(minBackoff: nat, maxBackoff: nat, events: seq<Event>): seq<int> {
    if events == [] then []
    else
      var before := events[..|events| - 1];
      Sleeps(minBackoff, maxBackoff, before)
      + if Fails(events[|events| - 1]) then [ReconnectBackoff(minBackoff, maxBackoff, FailuresSinceReset(before))]
          else []
  }

  lemma {:induction false} SleepsBounded(minBackoff: nat, maxBackoff: nat, events: seq<Event>)
    requires minBackoff <= maxBackoff
    ensures forall i | 0 <= i < |Sleeps(minBackoff, maxBackoff, events)| ::
        minBackoff <= Sleeps(minBackoff, maxBackoff, events)[i] <= maxBackoff
  {
    if events != [] {
      var before := events[..|events| - 1];
      SleepsBounded(minBackoff, maxBackoff, before);
      BackoffBounded(minBackoff, maxBackoff, FailuresSinceReset(before));
    }
  }

  lemma {:induction false} BackoffBounded(minBackoff: nat, maxBackoff: nat, k: nat)
    requires minBackoff <= maxBackoff
    ensures minBackoff <= ReconnectBackoff(minBackoff, maxBackoff, k) <= maxBackoff
  {
    if k > 0 {
      BackoffBounded(minBackoff, maxBackoff, k - 1);
      DoublingSaturates(minBackoff, maxBackoff, k - 1);
    }
  }

  lemma DoublingSaturates(minBackoff: nat, maxBackoff: nat, k: nat)
    requires minBackoff <= maxBackoff
    ensures Min(2 * ReconnectBackoff(minBackoff, maxBackoff, k), maxBackoff) ==
        ReconnectBackoff(minBackoff, maxBackoff, k + 1)
  {
    assert minBackoff * Pow(2, k + 1) == 2 * (minBackoff * Pow(2, k));
  }

  /** The maintenance loop's backoff, and every wait in between, depends only on the failures since the last reset,
      in closed form. */
  method MaintainConnection(minBackoff: nat, maxBackoff: nat, events: seq<Event>)
      returns (backoff: int, slept: seq<int>)
    requires minBackoff <= maxBackoff
    ensures backoff == ReconnectBackoff(minBackoff, maxBackoff, FailuresSinceReset(events))
    ensures slept == Sleeps(minBackoff, maxBackoff, events)
  {
    backoff, slept := minBackoff, [];
    var i := 0;
    while i < |events|
      invariant 0 <= i <= |events|
      invariant backoff == ReconnectBackoff(minBackoff, maxBackoff, FailuresSinceReset(events[..i]))
      invariant slept == Sleeps(minBackoff, maxBackoff, events[..i])
    {
      assert events[..i + 1][..i] == events[..i];
      match events[i] {
        case Trigger(_) =>
          backoff := minBackoff;
        case Tick(connected, succeeds) =>
          if !connected {
            if succeeds {
              backoff := minBackoff;
            } else {
              DoublingSaturates(minBackoff, maxBackoff, FailuresSinceReset(events[..i]));
              slept := slept + [backoff];
              backoff := Min(backoff * 2, maxBackoff);
            }
          }
      }
      i := i + 1;
    }
    assert events[..i] == events;
  }

  // ---------------------------------------------------------------- waiting for a socket

  const MILLISECOND: int := 1_000_000
  const INITIAL_DELAY: int := 500 * MILLISECOND
  const FIRST_BACKOFF: int := 100 * MILLISECOND
  const MAX_BACKOFF: int := 2000 * MILLISECOND

  /** The wait before probe `k` (counting from 0): one and a half times the one before, in whole nanoseconds, up to
      the cap. */
  function Wait(k: nat): int {
    if k == 0 then FIRST_BACKOFF else Min(Wait(k - 1) * 3 / 2, MAX_BACKOFF)
  }

  /** The earliest time of probe `k`, when probes take no time. */
  function ProbeTime(k: nat): int {
    if k == 0 then INITIAL_DELAY + Wait(0) else ProbeTime(k - 1) + Wait(k)
  }

  /** The first eight waits grow by half and lose nothing to rounding; then the cap holds. */
  lemma EarlyWaits()
    ensures Wait(1) == 150_000_000 && Wait(2) == 225_000_000 && Wait(3) == 337_500_000 && Wait(4) == 506_250_000
    ensures Wait(5) == 759_375_000 && Wait(6) == 1_139_062_500 && Wait(7) == 1_708_593_750 && Wait(8) == MAX_BACKOFF
  {
    assert Wait(2) == 225_000_000;
    assert Wait(4) == 506_250_000;
    assert Wait(6) == 1_139_062_500;
  }

  lemma {:induction false} LateWaits(k: nat)
    requires k >= 8
    ensures Wait(k) == MAX_BACKOFF
  {
    if k == 8 {
      EarlyWaits();
    } else {
      LateWaits(k - 1);
    }
  }

  lemma {:induction false} PowersGrow(k: nat)
    requires k >= 8
    ensures FIRST_BACKOFF * Pow(3, k) >= MAX_BACKOFF * Pow(2, k)
  {
    if k == 8 {
      assert Pow(3, 4) == 81 && Pow(2, 4) == 16;
      assert Pow(3, 8) == 6561 && Pow(2, 8) == 256;
    } else {
      PowersGrow(k - 1);
      assert FIRST_BACKOFF * Pow(3, k) == 3 * (FIRST_BACKOFF * Pow(3, k - 1));
      assert MAX_BACKOFF * Pow(2, k) == 2 * (MAX_BACKOFF * Pow(2, k - 1));
    }
  }

  /** The wait before probe `k` is exactly the smaller of 100ms times 1.5 to the `k` and 2s. */
  lemma WaitClosedForm(k: nat)
    ensures Wait(k) * Pow(2, k) == Min(FIRST_BACKOFF * Pow(3, k), MAX_BACKOFF * Pow(2, k))
  {
    if k >= 8 {
      LateWaits(k);
      PowersGrow(k);
    } else {
      EarlyWaits();
      assert Pow(3, 4) == 81 && Pow(2, 4) == 16;
      assert Pow(3, 7) == 2187 && Pow(2, 7) == 128;
      assert Pow(3, 6) == 729 && Pow(2, 6) == 64;
      assert Pow(3, 5) == 243 && Pow(2, 5) == 32;
    }
  }

  lemma WaitsDoNotShrink(k: nat)
    ensures FIRST_BACKOFF <= Wait(k) <= Wait(k + 1) <= MAX_BACKOFF
  {
    EarlyWaits();
    if k >= 8 {
      LateWaits(k);
      LateWaits(k + 1);
    }
  }

  lemma {:induction false} LateProbes(k: nat)
    requires k >= 7
    ensures ProbeTime(k) == 5_425_781_250 + (k - 7) * MAX_BACKOFF
  {
    if k == 7 {
      EarlyWaits();
      assert ProbeTime(3) == INITIAL_DELAY + 812_500_000;
      assert ProbeTime(6) == 3_717_187_500;
    } else {
      LateProbes(k - 1);
      LateWaits(k);
    }
  }

  /** Within the thirty seconds a daemon is given there is time for twenty probes and no more. */
  lemma TwentyProbes()
    ensures ProbeTime(19) <= 30_000 * MILLISECOND < ProbeTime(20)
  {
    hide ProbeTime;
    LateProbes(19);
    LateProbes(20);
  }

  /** When probe `k` starts, if probe `i` takes `takes(i)` nanoseconds. */
  function StartTime(takes: nat -> nat, k: nat): int {
    if k == 0 then INITIAL_DELAY + Wait(0) else StartTime(takes, k - 1) + takes(k - 1) + Wait(k)
  }

  lemma NextProbe(takes: nat -> nat, k: nat)
    ensures Wait(0) == FIRST_BACKOFF && StartTime(takes, 0) == INITIAL_DELAY + FIRST_BACKOFF
    ensures Wait(k + 1) == Min(Wait(k) * 3 / 2, MAX_BACKOFF)
    ensures StartTime(takes, k + 1) == StartTime(takes, k) + takes(k) + Wait(k + 1)
  {
  }

  /** However long probes take, none starts earlier than if they took no time. */
  lemma {:induction false} SlowProbesStartLater(takes: nat -> nat, k: nat)
    ensures ProbeTime(k) <= StartTime(takes, k)
  {
    if k > 0 {
      SlowProbesStartLater(takes, k - 1);
    }
  }

  lemma {:induction false} StartsSpread(takes: nat -> nat, j: nat, k: nat)
    requires j <= k
    ensures StartTime(takes, j) <= StartTime(takes, k)
    decreases k - j
  {
    if j < k {
      StartsSpread(takes, j, k - 1);
      WaitsDoNotShrink(k);
    }
  }

  /** Waiting for the socket. `connects(k)` is the outcome of probe `k`, which takes `takes(k)` nanoseconds, and
      `cancelled` the time at which the caller gives up, if ever. It succeeds exactly when some probe that starts in
      time connects, and then at the first such probe; otherwise every probe that starts in time has failed. Thirty
      seconds allow twenty probes at most, however long they take. */
  method WaitForSocket(timeout: nat, cancelled: Option<nat>, connects: nat -> bool, takes: nat -> nat)
      returns (ok: bool, attempts: nat)
    ensures var deadline := if cancelled.Some? then Min(timeout, cancelled.value) else timeout;
            && (forall k | 0 <= k < attempts :: StartTime(takes, k) <= deadline)
            && (ok <==> exists k :: StartTime(takes, k) <= deadline && connects(k))
            && (ok ==> attempts > 0 && connects(attempts - 1) && forall k | 0 <= k < attempts - 1 :: !connects(k))
            && (!ok ==> deadline < StartTime(takes, attempts) && forall k | 0 <= k < attempts :: !connects(k))
    ensures timeout <= 30_000 * MILLISECOND ==> attempts <= 20
  {
    hide Wait, StartTime;
    var deadline := if cancelled.Some? then Min(timeout, cancelled.value) else timeout;
    attempts := 0;
    NextProbe(takes, 0);
    if INITIAL_DELAY > deadline {
      assert deadline < StartTime(takes, 0);
      NoneBefore(takes, 0, deadline);
      return false, 0;
    }
    var now := INITIAL_DELAY;
    var backoff := FIRST_BACKOFF;
    while now + backoff <= deadline
      invariant backoff == Wait(attempts) && now + backoff == StartTime(takes, attempts)
      invariant forall k | 0 <= k < attempts :: StartTime(takes, k) <= deadline && !connects(k)
      decreases deadline - now
    {
      WaitsDoNotShrink(attempts);
      NextProbe(takes, attempts);
      now := now + backoff + takes(attempts);
      attempts := attempts + 1;
      if connects(attempts - 1) {
        AtMostTwenty(takes, attempts, deadline);
        return true, attempts;
      }
      backoff := Min(backoff * 3 / 2, MAX_BACKOFF);
    }
    NoneBefore(takes, attempts, deadline);
    AtMostTwenty(takes, attempts, deadline);
    ok := false;
  }

  /** When probe `n` is too late, so is every later one. */
  lemma NoneBefore(takes: nat -> nat, n: nat, deadline: int)
    requires deadline < StartTime(takes, n)
    ensures forall k: nat | k >= n :: deadline < StartTime(takes, k)
  {
    forall k: nat | k >= n ensures deadline < StartTime(takes, k) {
      StartsSpread(takes, n, k);
    }
  }

  lemma AtMostTwenty(takes: nat -> nat, attempts: nat, deadline: int)
    requires attempts > 0 ==> StartTime(takes, attempts - 1) <= deadline
    ensures deadline <= 30_000 * MILLISECOND ==> attempts <= 20
  {
    hide ProbeTime, StartTime;
    if attempts > 20 {
      TwentyProbes();
      SlowProbesStartLater(takes, 20);
      StartsSpread(takes, 20, attempts - 1);
    }
  }

  // ---------------------------------------------------------------- what each event does

  /** A manual trigger resets the backoff whether or not it reconnects; so does a reconnect on a health tick. A
      healthy tick changes nothing. */
  lemma EventsThatReset(minBackoff: nat, maxBackoff: nat, events: seq<Event>, b: bool)
    requires minBackoff <= maxBackoff
    ensures ReconnectBackoff(minBackoff, maxBackoff, FailuresSinceReset(events + [Trigger(b)])) == minBackoff
    ensures ReconnectBackoff(minBackoff, maxBackoff, FailuresSinceReset(events + [Tick(false, true)])) == minBackoff
    ensures FailuresSinceReset(events + [Tick(true, b)]) == FailuresSinceReset(events)
    ensures Sleeps(minBackoff, maxBackoff, events + [Trigger(b)]) == Sleeps(minBackoff, maxBackoff, events)
    ensures Sleeps(minBackoff, maxBackoff, events + [Tick(false, true)]) == Sleeps(minBackoff, maxBackoff, events)
    ensures Sleeps(minBackoff, maxBackoff, events + [Tick(true, b)]) == Sleeps(minBackoff, maxBackoff, events)
  {
    forall e: Event ensures (events + [e])[..|events|] == events && (events + [e])[|events|] == e {
    }
  }

  /** A failed tick waits as long as the backoff says and then doubles it, up to the maximum. */
  lemma FailedTickDoubles(minBackoff: nat, maxBackoff: nat, events: seq<Event>)
    requires minBackoff <= maxBackoff
    ensures var before := ReconnectBackoff(minBackoff, maxBackoff, FailuresSinceReset(events));
            var after := events + [Tick(false, false)];
            && Sleeps(minBackoff, maxBackoff, after) == Sleeps(minBackoff, maxBackoff, events) + [before]
            && ReconnectBackoff(minBackoff, maxBackoff, FailuresSinceReset(after)) ==
                 if 2 * before < maxBackoff then 2 * before else maxBackoff
  {
    var after := events + [Tick(false, false)];
    assert after[..|events|] == events && after[|events|] == Tick(false, false);
    DoublingSaturates(minBackoff, maxBackoff, FailuresSinceReset(events));
  }

  /** At the start the backoff is the minimum and nothing was slept. */
  lemma StartsAtMinimum(minBackoff: nat, maxBackoff: nat)
    requires minBackoff <= maxBackoff
    ensures ReconnectBackoff(minBackoff, maxBackoff, FailuresSinceReset([])) == minBackoff
    ensures Sleeps(minBackoff, maxBackoff, []) == []
  {
  }
}
