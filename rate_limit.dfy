/**
 * `RateLimitService`: a fixed-window counter per node and client in the
 * shared store.  The store's keys carry an optional expiry instant; a key
 * whose expiry has passed is gone.  Instants are whole epoch seconds, and the
 * store and the node read the same clock.
 */
module RateLimit {
  import opened Wrappers

  /** A counter in the shared store: its value, and the instant it expires at, if any. */
  datatype Counter = Counter(count: int, expiresAt: Option<int>)

  /**
   * `RateLimitCheckResult`, built by its `rejected` and `allowed` factories
   * (the class itself is not part of this model).
   */
  datatype RateLimitCheckResult =
    | Rejected(limit: int, windowSeconds: int, resetEpoch: int, resetSeconds: int)
    | Allowed(limit: int, remaining: int, windowSeconds: int, resetEpoch: int, resetSeconds: int)

  /** The key exists at instant `now`. */
  predicate Live(counters: map<string, Counter>, key: string, now: int) {
    key in counters && (counters[key].expiresAt.None? || now < counters[key].expiresAt.value)
  }

  /** Redis `INCR`: a live key goes up by one and keeps its expiry; a missing one starts at 1 without. */
  function Incr(counters: map<string, Counter>, key: string, now: int): (r: map<string, Counter>)
    ensures key in r && r.Keys == counters.Keys + {key}
    ensures r[key].count == (if Live(counters, key, now) then counters[key].count + 1 else 1)
    ensures forall k :: k in counters && k != key ==> r[k] == counters[k]
  {
    if Live(counters, key, now) then counters[key := counters[key].(count := counters[key].count + 1)]
    else counters[key := Counter(1, None)]
  }

  /** One check's effect on the store: the increment, and the expiry set when the count is then 1. */
  function Counted(counters: map<string, Counter>, key: string, now: int, windowSeconds: int): (r: map<string, Counter>)
    ensures key in r && r[key].count == Incr(counters, key, now)[key].count
    ensures r[key].count == 1 ==> r[key].expiresAt == Some(now + windowSeconds)
    ensures r[key].count != 1 ==> r[key] == Incr(counters, key, now)[key]
    ensures forall k :: k != key ==> (k in r <==> k in counters) && (k in r ==> r[k] == counters[k])
  {
    var incremented := Incr(counters, key, now);
    if incremented[key].count == 1 then incremented[key := Counter(1, Some(now + windowSeconds))] else incremented
  }

  /** Redis `TTL` on a live key: the seconds left, or -1 when it has no expiry. */
  function Ttl(c: Counter, now: int): int {
    if c.expiresAt.Some? then c.expiresAt.value - now else -1
  }

  /** `max(window.getSeconds(), 1)`. */
  function WindowSeconds(window: int): (w: int)
    ensures w >= 1 && w >= window && (window >= 1 ==> w == window)
  {
    if window > 1 then window else 1
  }

  /** The counter key: scoped to the node, so the limit holds per node. */
  function RateKey(hostName: string, clientId: string): string {
    "rate:" + hostName + ":" + clientId
  }

  /** The check's verdict once the counter reads `count` with `ttl` seconds left. */
  function Verdict(count: int, ttl: int, maxRequests: int, windowSeconds: int, now: int): (r: RateLimitCheckResult)
    ensures r.Rejected? <==> count > maxRequests
    ensures r.limit == maxRequests && r.windowSeconds == windowSeconds
    ensures r.resetSeconds == (if ttl > 0 then ttl else windowSeconds) && r.resetEpoch == now + r.resetSeconds
    ensures r.Allowed? ==> r.remaining == (if maxRequests - count > 0 then maxRequests - count else 0)
  {
    var resetSeconds := if ttl > 0 then ttl else windowSeconds;
    if count > maxRequests then Rejected(maxRequests, windowSeconds, now + resetSeconds, resetSeconds)
    else
      var remaining := if maxRequests - count > 0 then maxRequests - count else 0;
      Allowed(maxRequests, remaining, windowSeconds, now + resetSeconds, resetSeconds)
  }

  class RateLimitService {
    var hostName: string
    /** The shared store's counters. */
    var counters: map<string, Counter>

    /**
     * `hostNameSetting` is the `HOSTNAME` property; when unset, the
     * placeholder's default, which is the two-apostrophe text `''`.
     */
    constructor (hostNameSetting: string, counters: map<string, Counter>)
      ensures hostName == hostNameSetting && this.counters == counters
    {
      hostName := hostNameSetting;
      this.counters := counters;
    }

    /**
     * `init`: an empty setting is replaced by the local host name, or by
     * "unknown-" and eight characters of `uuid` when that lookup fails.
     */
    method Init(localHostName: Option<string>, uuid: string)
      requires |uuid| >= 8
      modifies this
      ensures counters == old(counters)
      ensures old(hostName) != "" ==> hostName == old(hostName)
      ensures old(hostName) == "" ==> hostName == localHostName.GetOr("unknown-" + uuid[..8])
    {
      if hostName != "" {
        return;
      }
      hostName := if localHostName.Some? then localHostName.value else "unknown-" + uuid[..8];
    }

    /** `checkRateLimit` at instant `now`, for a window of `window` seconds. */
    method CheckRateLimit(clientId: string, maxRequests: int, window: int, now: int) returns (result: RateLimitCheckResult)
      modifies this
      ensures hostName == old(hostName)
      ensures var key := RateKey(hostName, clientId);
              var windowSeconds := WindowSeconds(window);
              && counters == Counted(old(counters), key, now, windowSeconds)
              && result == Verdict(counters[key].count, Ttl(counters[key], now), maxRequests, windowSeconds, now)
    {
      var key := RateKey(hostName, clientId);
      var windowSeconds := WindowSeconds(window);
      counters := Incr(counters, key, now);
      var count := counters[key].count;
      if count == 1 {
        counters := counters[key := counters[key].(expiresAt := Some(now + windowSeconds))];
      }
      var ttl := Ttl(counters[key], now);
      result := Verdict(count, ttl, maxRequests, windowSeconds, now);
    }
  }

  /** The store after checks on one key at the instants `times`, in order. */
  function Run(counters: map<string, Counter>, key: string, times: seq<int>, windowSeconds: int): map<string, Counter> {
    if times == [] then counters
    else Counted(Run(counters, key, times[..|times| - 1], windowSeconds), key, times[|times| - 1], windowSeconds)
  }

  /**
   * A window opens with the first check on a missing key: the k-th check in
   * it reads k, and the counter expires `windowSeconds` after the first.
   */
  lemma {:induction false} RunWithinWindow(counters: map<string, Counter>, key: string, times: seq<int>, windowSeconds: int)
    requires windowSeconds >= 1 && |times| >= 1
    requires !Live(counters, key, times[0])
    requires forall i :: 0 <= i < |times| ==> times[0] <= times[i] < times[0] + windowSeconds
    ensures var r := Run(counters, key, times, windowSeconds);
            key in r && r[key] == Counter(|times|, Some(times[0] + windowSeconds))
  {
    if |times| > 1 {
      var front := times[..|times| - 1];
      RunWithinWindow(counters, key, front, windowSeconds);
      var prior := Run(counters, key, front, windowSeconds);
      assert Live(prior, key, times[|times| - 1]);
    }
  }

  /**
   * Within one window of `L` allowed requests, the first `L` checks are
   * allowed and the next is rejected; once the window has passed the counter
   * starts again at 1 and the check is allowed.
   */
  lemma {:induction false} FixedWindow(counters: map<string, Counter>, key: string, times: seq<int>, later: int,
                                       maxRequests: int, windowSeconds: int)
    requires windowSeconds >= 1 && |times| >= 1 && maxRequests >= 1
    requires !Live(counters, key, times[0])
    requires forall i :: 0 <= i < |times| ==> times[0] <= times[i] < times[0] + windowSeconds
    requires later >= times[0] + windowSeconds
    ensures var r := Run(counters, key, times, windowSeconds);
            var t := times[|times| - 1];
            Verdict(r[key].count, Ttl(r[key], t), maxRequests, windowSeconds, t).Rejected? <==> |times| > maxRequests
    ensures var r := Run(counters, key, times, windowSeconds);
            var again := Counted(r, key, later, windowSeconds);
            && again[key].count == 1
            && Verdict(again[key].count, Ttl(again[key], later), maxRequests, windowSeconds, later).Allowed?
  {
    RunWithinWindow(counters, key, times, windowSeconds);
  }
}
