/**
  `RestartWatcher`: a periodic check that restarts a video source that went
  down, with exponential back-off between checks.

  The source, the scheduler and each registered callback are held through weak
  pointers; the model receives, per check, whether each of them is still alive
  and (for the source) whether it is active. Durations are microseconds.
*/
module RestartWatcher {
  import opened Wrappers

  const DefaultMinIntervalUs: int := 3_000_000
  const DefaultMaxIntervalUs: int := 60_000_000

  datatype Watcher = Watcher(
    minIntervalUs: int,
    maxIntervalUs: int,
    intervalUs: int,
    restartAttempts: int,
    nullPayloadUpdates: int)

  /** What locking the weak source pointer finds. */
  datatype SourceStatus = Expired | Active | Inactive

  /**
    The outcome of one check: the updated watcher, the indices of the callbacks
    that received a null payload (in registration order), whether the stream
    was restarted, and the delay of the next check if one was scheduled.
  */
  datatype Check = Check(watcher: Watcher, notified: seq<nat>, restarted: bool, nextCheckUs: Option<int>)

  /** The positions of the live callbacks, in order. */
  function LiveIndices(alive: seq<bool>): (r: seq<nat>)
    ensures forall i :: i in r <==> 0 <= i < |alive| && alive[i]
    ensures forall j, k :: 0 <= j < k < |r| ==> r[j] < r[k]
    ensures forall j :: 0 <= j < |r| ==> r[j] < |alive|
  {
    if |alive| == 0 then []
    else
      var n := |alive| - 1;
      LiveIndices(alive[..n]) + (if alive[n] then [n] else [])
  }

  /**
    `CheckAndRestart`. When the source is alive but inactive, every live
    callback gets one null payload, the stream is restarted, the attempt count
    grows by one and the interval doubles up to the maximum. Otherwise the
    interval falls back to the minimum and the counters stay. The next check is
    scheduled with the new interval only if the scheduler is still alive.
  */
  function CheckAndRestart(w: Watcher, source: SourceStatus, callbacksAlive: seq<bool>, schedAlive: bool): (r: Check)
    ensures source == Inactive ==>
      && r.restarted
      && r.notified == LiveIndices(callbacksAlive)
      && r.watcher.restartAttempts == w.restartAttempts + 1
      && r.watcher.nullPayloadUpdates == w.nullPayloadUpdates + |r.notified|
      && r.watcher.intervalUs == Min(2 * w.intervalUs, w.maxIntervalUs)
    ensures source != Inactive ==>
      && !r.restarted
      && r.notified == []
      && r.watcher == w.(intervalUs := w.minIntervalUs)
    ensures r.watcher.minIntervalUs == w.minIntervalUs && r.watcher.maxIntervalUs == w.maxIntervalUs
    ensures schedAlive <==> r.nextCheckUs == Some(r.watcher.intervalUs)
    ensures !schedAlive <==> r.nextCheckUs.None?
  {
    var w' :=
      if source == Inactive then
        w.(nullPayloadUpdates := w.nullPayloadUpdates + |LiveIndices(callbacksAlive)|,
           restartAttempts := w.restartAttempts + 1,
           intervalUs := Min(w.intervalUs * 2, w.maxIntervalUs))
      else
        w.(intervalUs := w.minIntervalUs);
    Check(
      w',
      if source == Inactive then LiveIndices(callbacksAlive) else [],
      source == Inactive,
      if schedAlive then Some(w'.intervalUs) else None)
  }

  datatype Created = Created(watcher: Watcher, firstCheckUs: Option<int>)

  /**
    The constructor: default limits, interval at the minimum, zero counters;
    the first check is scheduled only when both the source and the scheduler
    are given.
  */
  function NewWatcher(sourceGiven: bool, schedGiven: bool): (r: Created)
    ensures r.watcher.intervalUs == r.watcher.minIntervalUs == DefaultMinIntervalUs
    ensures r.watcher.maxIntervalUs == DefaultMaxIntervalUs
    ensures r.watcher.restartAttempts == 0 && r.watcher.nullPayloadUpdates == 0
    ensures r.firstCheckUs.Some? <==> sourceGiven && schedGiven
    ensures r.firstCheckUs.Some? ==> r.firstCheckUs.value == DefaultMinIntervalUs
  {
    var w := Watcher(DefaultMinIntervalUs, DefaultMaxIntervalUs, DefaultMinIntervalUs, 0, 0);
    Created(w, if sourceGiven && schedGiven then Some(w.intervalUs) else None)
  }

  predicate WellFormed(w: Watcher) {
    0 < w.minIntervalUs <= w.maxIntervalUs
  }

  predicate InBounds(w: Watcher) {
    w.minIntervalUs <= w.intervalUs <= w.maxIntervalUs
  }

  /** Every check keeps the interval within its limits. */
  lemma CheckKeepsBounds(w: Watcher, source: SourceStatus, callbacksAlive: seq<bool>, schedAlive: bool)
    requires WellFormed(w) && InBounds(w)
    ensures InBounds(CheckAndRestart(w, source, callbacksAlive, schedAlive).watcher)
  {
  }

  /** The counters never decrease. */
  lemma CheckCountersMonotone(w: Watcher, source: SourceStatus, callbacksAlive: seq<bool>, schedAlive: bool)
    ensures var w' := CheckAndRestart(w, source, callbacksAlive, schedAlive).watcher;
      w'.restartAttempts >= w.restartAttempts && w'.nullPayloadUpdates >= w.nullPayloadUpdates
  {
  }

  function Pow2(k: nat): (r: nat)
    ensures r >= 1
  {
    if k == 0 then 1 else 2 * Pow2(k - 1)
  }

  /** `k` checks in a row that all find the source down. */
  function DownChecks(w: Watcher, k: nat, callbacksAlive: seq<bool>): Watcher
    decreases k
  {
    if k == 0 then w
    else DownChecks(CheckAndRestart(w, Inactive, callbacksAlive, true).watcher, k - 1, callbacksAlive)
  }

  /** Doubling a capped value and capping again is capping the doubled value. */
  lemma DoubleCapped(p: int, cap: int)
    requires 0 < cap
    ensures Min(Min(p, cap) * 2, cap) == Min(2 * p, cap)
  {
  }

  /**
    Back-off in closed form: after `k` failed checks starting from the minimum,
    the interval is `min(minInterval * 2^k, maxInterval)`.
  */
  lemma {:induction false} BackoffClosedForm(w: Watcher, k: nat, callbacksAlive: seq<bool>)
    requires WellFormed(w)
    requires w.intervalUs == w.minIntervalUs
    ensures DownChecks(w, k, callbacksAlive).intervalUs == Min(w.minIntervalUs * Pow2(k), w.maxIntervalUs)
    decreases k
  {
    if k > 0 {
      BackoffClosedForm(w, k - 1, callbacksAlive);
      DownChecksShift(w, k - 1, callbacksAlive);
      DownChecksKeepLimits(w, k - 1, callbacksAlive);
      var p := w.minIntervalUs * Pow2(k - 1);
      DoubleCapped(p, w.maxIntervalUs);
      assert w.minIntervalUs * Pow2(k) == 2 * p;
    }
  }

  /** After `k` failed checks, `k` restarts were attempted and each check notified every live callback. */
  lemma {:induction false} BackoffCounters(w: Watcher, k: nat, callbacksAlive: seq<bool>)
    ensures DownChecks(w, k, callbacksAlive).restartAttempts == w.restartAttempts + k
    ensures DownChecks(w, k, callbacksAlive).nullPayloadUpdates
      == w.nullPayloadUpdates + k * |LiveIndices(callbacksAlive)|
    decreases k
  {
    if k > 0 {
      BackoffCounters(w, k - 1, callbacksAlive);
      DownChecksShift(w, k - 1, callbacksAlive);
      var n := |LiveIndices(callbacksAlive)|;
      assert k * n == (k - 1) * n + n;
    }
  }

  /** `k + 1` checks are `k` checks followed by one more. */
  lemma {:induction false} DownChecksShift(w: Watcher, k: nat, callbacksAlive: seq<bool>)
    ensures DownChecks(w, k + 1, callbacksAlive)
      == CheckAndRestart(DownChecks(w, k, callbacksAlive), Inactive, callbacksAlive, true).watcher
    decreases k
  {
    var w1 := CheckAndRestart(w, Inactive, callbacksAlive, true).watcher;
    if k > 0 {
      DownChecksShift(w1, k - 1, callbacksAlive);
    }
  }

  /** A check that finds the source up (or gone) resets the back-off, whatever came before. */
  lemma RecoveryResets(w: Watcher, k: nat, callbacksAlive: seq<bool>, source: SourceStatus)
    requires source != Inactive
    ensures CheckAndRestart(DownChecks(w, k, callbacksAlive), source, callbacksAlive, true).watcher.intervalUs
      == w.minIntervalUs
  {
    DownChecksKeepLimits(w, k, callbacksAlive);
  }

  lemma {:induction false} DownChecksKeepLimits(w: Watcher, k: nat, callbacksAlive: seq<bool>)
    ensures DownChecks(w, k, callbacksAlive).minIntervalUs == w.minIntervalUs
    ensures DownChecks(w, k, callbacksAlive).maxIntervalUs == w.maxIntervalUs
    decreases k
  {
    if k > 0 {
      DownChecksKeepLimits(CheckAndRestart(w, Inactive, callbacksAlive, true).watcher, k - 1, callbacksAlive);
    }
  }
}
