/** The per-IP token bucket, the janitor that evicts idle buckets, and the
    middleware that decides which bucket a request is charged to.

    Seconds and token counts are reals. Every operation takes the clock reading
    it works with as a parameter. */
module RateLimiter {
  import opened Common

  datatype IpAddr = IpAddr(bits: nat)

  datatype Bucket = Bucket(tokens: real, lastRefill: real)

  datatype LimiterConfig = LimiterConfig(refillPerSec: real, capacity: real)

  datatype Outcome = Allow | Deny(retryAfter: nat)

  function Min(a: real, b: real): real { if a <= b then a else b }

  function FromPerMinute(perMinute: nat): LimiterConfig {
    LimiterConfig(perMinute as real / 60.0,
                  (if perMinute as real > 1.0 then perMinute as real else 1.0) * 2.0)
  }

  // What every enabled quota gives: an idle bucket is full after 120 seconds.
  ghost predicate Derived(cfg: LimiterConfig) {
    cfg.refillPerSec > 0.0 && cfg.capacity == 120.0 * cfg.refillPerSec && cfg.capacity >= 2.0
  }

  lemma QuotaIsDerived(perMinute: nat)
    ensures perMinute >= 1 <==> Derived(FromPerMinute(perMinute))
    ensures FromPerMinute(perMinute).refillPerSec * 60.0 == perMinute as real
    ensures FromPerMinute(perMinute).capacity == if perMinute == 0 then 2.0 else 2.0 * perMinute as real
  {
  }

  // A monotonic clock difference saturates at zero.
  function Elapsed(now: real, last: real): (d: real)
    ensures d >= 0.0
  {
    if now > last then now - last else 0.0
  }

  // Tokens that a span of time brings.
  function Refill(secs: real, perSec: real): real { secs * perSec }

  function Refilled(cfg: LimiterConfig, b: Bucket, now: real): real {
    Min(Refill(Elapsed(now, b.lastRefill), cfg.refillPerSec) + b.tokens, cfg.capacity)
  }

  lemma NoTimeNoRefill(cfg: LimiterConfig, tokens: real, now: real)
    ensures Refilled(cfg, Bucket(tokens, now), now) == Min(tokens, cfg.capacity)
  {
    assert Elapsed(now, now) == 0.0;
    NothingTimes(cfg.refillPerSec);
    hide Refill;
  }

  lemma NothingTimes(perSec: real)
    ensures Refill(0.0, perSec) == 0.0
  {
  }

  // Tokens a slot offers to a check at `now`; a missing bucket is created full.
  function Available(cfg: LimiterConfig, slot: Option<Bucket>, now: real): real {
    match slot
    case None => cfg.capacity
    case Some(b) => Refilled(cfg, b, now)
  }

  function RetryAfter(cfg: LimiterConfig, tokens: real): (secs: nat)
    requires cfg.refillPerSec > 0.0
    ensures secs >= 1
  {
    var secs := Ceil((1.0 - tokens) / cfg.refillPerSec);
    if secs > 1 then secs else 1
  }

  predicate Permits(cfg: LimiterConfig, slot: Option<Bucket>, now: real) {
    Available(cfg, slot, now) >= 1.0
  }

  function Decide(cfg: LimiterConfig, slot: Option<Bucket>, now: real): Outcome
    requires cfg.refillPerSec > 0.0
  {
    if Permits(cfg, slot, now) then Allow else Deny(RetryAfter(cfg, Available(cfg, slot, now)))
  }

  function Charged(cfg: LimiterConfig, slot: Option<Bucket>, now: real): Bucket {
    Bucket(Available(cfg, slot, now) - (if Permits(cfg, slot, now) then 1.0 else 0.0), now)
  }

  function Lookup(buckets: map<IpAddr, Bucket>, ip: IpAddr): Option<Bucket> {
    if ip in buckets then Some(buckets[ip]) else None
  }

  function Evicted(buckets: map<IpAddr, Bucket>, idle: real, now: real): map<IpAddr, Bucket> {
    map ip | ip in buckets && Elapsed(now, buckets[ip].lastRefill) < idle :: buckets[ip]
  }

  /** The shared limiter. */
  class IpRateLimiter {
    var buckets: map<IpAddr, Bucket>
    const cfg: LimiterConfig

    ghost predicate Valid() reads this { Derived(cfg) }

    constructor (perMinute: nat)
      requires perMinute >= 1
      ensures Valid() && cfg == FromPerMinute(perMinute) && buckets == map[]
    {
      buckets := map[];
      cfg := FromPerMinute(perMinute);
      new;
      QuotaIsDerived(perMinute);
    }

    // A quota of zero disables the limiter.
    static method Build(perMinute: nat) returns (l: IpRateLimiter?)
      ensures l == null <==> perMinute == 0
      ensures l != null ==> fresh(l) && l.Valid() && l.cfg == FromPerMinute(perMinute) && l.buckets == map[]
    {
      if perMinute == 0 {
        return null;
      }
      l := new IpRateLimiter(perMinute);
    }

    method Check(ip: IpAddr, now: real) returns (outcome: Outcome)
      requires Valid()
      modifies this`buckets
      ensures outcome == Decide(cfg, Lookup(old(buckets), ip), now)
      ensures buckets == old(buckets)[ip := Charged(cfg, Lookup(old(buckets), ip), now)]
    {
      NoTimeNoRefill(cfg, cfg.capacity, now);
      hide Refilled, RetryAfter;
      if ip !in buckets {
        buckets := buckets[ip := Bucket(cfg.capacity, now)];
      }
      var tokens := Refilled(cfg, buckets[ip], now);
      if tokens >= 1.0 {
        buckets := buckets[ip := Bucket(tokens - 1.0, now)];
        outcome := Allow;
      } else {
        buckets := buckets[ip := Bucket(tokens, now)];
        outcome := Deny(RetryAfter(cfg, tokens));
      }
    }

    method EvictIdle(idle: real, now: real) returns (removed: nat)
      modifies this`buckets
      ensures buckets == Evicted(old(buckets), idle, now)
      ensures removed == |old(buckets)| - |buckets|
    {
      var before := |buckets|;
      ghost var keys := buckets.Keys;
      buckets := map ip | ip in buckets && Elapsed(now, buckets[ip].lastRefill) < idle :: buckets[ip];
      SubsetSize(buckets.Keys, keys);
      removed := before - |buckets|;
    }
  }

  lemma SubsetSize<T>(a: set<T>, b: set<T>)
    requires a <= b
    ensures |a| <= |b|
  {
    assert b == a + (b - a);
  }
}
