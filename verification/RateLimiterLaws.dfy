/** Consequences of the limiter's law: the promised retry delay, requests that
    must not count, who a request is charged to, and where the law stops. */
module RateLimiterLaws {
  import opened Common
  import opened RateLimiter
  import opened RateLimiterRuns

  // ---- the promised retry delay ----

  lemma RetryArithmetic(cfg: LimiterConfig, tokens: real)
    requires Derived(cfg) && tokens < 1.0
    ensures var d := RetryAfter(cfg, tokens);
            && tokens + Refill(d as real, cfg.refillPerSec) >= 1.0
            && (d > 1 ==> tokens + Refill((d - 1) as real, cfg.refillPerSec) < 1.0)
  {
    var r, d := cfg.refillPerSec, RetryAfter(cfg, tokens);
    var wait := (1.0 - tokens) / r;
    assert Refill(wait, r) == 1.0 - tokens;
    Grow(r, wait, d as real);
    if d > 1 {
      StillShort(tokens, r, wait, (d - 1) as real);
    }
  }

  lemma StillShort(tokens: real, r: real, wait: real, m: real)
    requires r > 0.0 && Refill(wait, r) == 1.0 - tokens && m < wait
    ensures tokens + Refill(m, r) < 1.0
  {
    assert Refill(wait - m, r) > 0.0;
  }

  // Refilling in two legs is refilling in one.
  lemma TwoLegs(cap: real, x: real, r: real, a: real, s: real, t: real)
    requires r >= 0.0 && s <= t
    ensures Min(cap, Min(cap, x + Refill(s - a, r)) - 0.0 + Refill(t - s, r)) == Min(cap, x + Refill(t - a, r))
  {
    hide Refill;
    Split(r, a, s, t);
    Grow(r, 0.0, t - s);
  }

  lemma Reaches(cap: real, x: real, r: real, a: real, t: real, d: real)
    requires r >= 0.0 && cap >= 1.0 && x + Refill(d, r) >= 1.0 && a + d <= t
    ensures Min(cap, x + Refill(t - a, r)) >= 1.0
  {
    hide Refill;
    Grow(r, d, t - a);
  }

  lemma FallsShort(cap: real, x: real, r: real, a: real, t: real, d: real)
    requires r >= 0.0 && x + Refill(d, r) < 1.0 && t <= a + d
    ensures Min(cap, x + Refill(t - a, r)) < 1.0
  {
    hide Refill;
    Grow(r, t - a, d);
  }

  // Denied checks between k and n leave the bucket on the refill line of check k.
  lemma {:induction false} DeniedStretch(cfg: LimiterConfig, es: seq<Event>, ip: IpAddr, k: nat, n: nat, t: real)
    requires Derived(cfg) && ClockOrdered(es, ip) && k < n <= |es|
    requires Charges(es[k], ip) && NotBefore(es[..n], ip, t)
    requires forall m :: k <= m < n && Charges(es[m], ip) ==> Answers(cfg, es, false)[m] != Some(Allow)
    ensures Offered(cfg, es, ip, n, t)
         == Min(cfg.capacity, Offered(cfg, es, ip, k, es[k].now) + Refill(t - es[k].now, cfg.refillPerSec))
    decreases n
  {
    hide Refill, Available, Answers, ClockOrdered, NotBefore;
    var e := es[n - 1];
    LastNotAfter(es, ip, n, t);
    if Charges(e, ip) {
      OfferedStep(cfg, es, ip, n, t);
      PrefixOrdered(es, n - 1, ip);
      if k < n - 1 {
        DeniedStretch(cfg, es, ip, k, n - 1, e.now);
        var x := Offered(cfg, es, ip, k, es[k].now);
        TwoLegs(cfg.capacity, x, cfg.refillPerSec, es[k].now, e.now, t);
        assert Offered(cfg, es, ip, n - 1, e.now) == Min(cfg.capacity, x + Refill(e.now - es[k].now, cfg.refillPerSec));
      }
    } else {
      UnchargedStep(cfg, es, ip, k, n, t);
      DeniedStretch(cfg, es, ip, k, n - 1, t);
    }
  }

  // The answers of the janitor-free run, read off the bucket.
  lemma AllowedIffOffered(cfg: LimiterConfig, es: seq<Event>, j: nat)
    requires Derived(cfg) && j < |es| && es[j].Check?
    ensures Answers(cfg, es, false)[j]
         == Some(if Offered(cfg, es, es[j].ip, j, es[j].now) >= 1.0 then Allow
                 else Deny(RetryAfter(cfg, Offered(cfg, es, es[j].ip, j, es[j].now))))
  {
    AnswerAt(cfg, es, false, j);
  }

  lemma {:induction false} TooEarlyInKeptRun(cfg: LimiterConfig, es: seq<Event>, k: nat, j: nat, d: nat)
    requires Derived(cfg) && k < j < |es| && es[k].Check? && Charges(es[j], es[k].ip)
    requires ClockOrdered(es, es[k].ip)
    requires Answers(cfg, es, false)[k] == Some(Deny(d)) && d > 1
    requires es[j].now <= es[k].now + (d - 1) as real
    ensures Answers(cfg, es, false)[j] != Some(Allow)
    decreases j
  {
    hide Refill, Available, RetryAfter, Answers, NotBefore;
    var ip := es[k].ip;
    forall m | k < m < j && Charges(es[m], ip)
      ensures Answers(cfg, es, false)[m] != Some(Allow)
    {
      TooEarlyInKeptRun(cfg, es, k, m, d);
    }
    AllowedIffOffered(cfg, es, k);
    AllowedIffOffered(cfg, es, j);
    PrefixOrdered(es, j, ip);
    DeniedStretch(cfg, es, ip, k, j, es[j].now);
    var x := Offered(cfg, es, ip, k, es[k].now);
    RetryArithmetic(cfg, x);
    FallsShort(cfg.capacity, x, cfg.refillPerSec, es[k].now, es[j].now, (d - 1) as real);
  }

  lemma LateEnoughInKeptRun(cfg: LimiterConfig, es: seq<Event>, k: nat, j: nat, d: nat)
    requires Derived(cfg) && k < j < |es| && es[k].Check? && Charges(es[j], es[k].ip)
    requires ClockOrdered(es, es[k].ip)
    requires Answers(cfg, es, false)[k] == Some(Deny(d))
    requires forall m :: k < m < j && Charges(es[m], es[k].ip) ==> Answers(cfg, es, false)[m] != Some(Allow)
    requires es[j].now >= es[k].now + d as real
    ensures Answers(cfg, es, false)[j] == Some(Allow)
  {
    hide Refill, Available, RetryAfter, Answers, ClockOrdered, NotBefore;
    var ip := es[k].ip;
    AllowedIffOffered(cfg, es, k);
    AllowedIffOffered(cfg, es, j);
    PrefixOrdered(es, j, ip);
    DeniedStretch(cfg, es, ip, k, j, es[j].now);
    var x := Offered(cfg, es, ip, k, es[k].now);
    RetryArithmetic(cfg, x);
    Reaches(cfg.capacity, x, cfg.refillPerSec, es[k].now, es[j].now, d as real);
  }

  /** The delay sent with a refusal is exact to the second: every later check
      that comes more than one second short of it is refused, and the first one
      not preceded by an allowed check that waits it out is allowed. */
  lemma RetryDelayIsExact(cfg: LimiterConfig, es: seq<Event>, k: nat, j: nat, d: nat)
    requires Derived(cfg) && k < j < |es| && es[k].Check? && Charges(es[j], es[k].ip)
    requires ClockOrdered(es, es[k].ip) && Patient(es)
    requires Answers(cfg, es, true)[k] == Some(Deny(d))
    ensures d > 1 && es[j].now <= es[k].now + (d - 1) as real ==> Answers(cfg, es, true)[j] != Some(Allow)
    ensures es[j].now >= es[k].now + d as real
            && (forall m :: k < m < j && Charges(es[m], es[k].ip) ==> Answers(cfg, es, true)[m] != Some(Allow))
            ==> Answers(cfg, es, true)[j] == Some(Allow)
  {
    forall m | k <= m <= j && Charges(es[m], es[k].ip)
      ensures Answers(cfg, es, true)[m] == Answers(cfg, es, false)[m]
    {
      EvictionIsInvisible(cfg, es, m);
    }
    if d > 1 && es[j].now <= es[k].now + (d - 1) as real {
      TooEarlyInKeptRun(cfg, es, k, j, d);
    }
    if es[j].now >= es[k].now + d as real
       && forall m :: k < m < j && Charges(es[m], es[k].ip) ==> Answers(cfg, es, true)[m] != Some(Allow) {
      LateEnoughInKeptRun(cfg, es, k, j, d);
    }
  }

  // ---- refused requests do not count ----

  function Drop(es: seq<Event>, p: nat): (rest: seq<Event>)
    requires p < |es|
    ensures |rest| == |es| - 1
    ensures forall i :: 0 <= i < |rest| ==> rest[i] == es[if i < p then i else i + 1]
  {
    es[..p] + es[p + 1..]
  }

  lemma DropPrefix(es: seq<Event>, p: nat, n: nat)
    requires p < n < |es|
    ensures Drop(es, p)[..p] == es[..p]
    ensures Drop(es, p)[..n][..n - 1] == Drop(es, p)[..n - 1] && Drop(es, p)[..n][n - 1] == es[n]
    ensures es[..n + 1][..n] == es[..n] && es[..n + 1][n] == es[n]
  {
  }

  lemma DropOrdered(es: seq<Event>, p: nat, ip: IpAddr)
    requires p < |es| && ClockOrdered(es, ip) && Patient(es)
    ensures ClockOrdered(Drop(es, p), ip) && Patient(Drop(es, p))
  {
  }

  lemma {:induction false} DenyLeavesNoTrace(cfg: LimiterConfig, es: seq<Event>, p: nat, n: nat, ip: IpAddr, t: real)
    requires Derived(cfg) && p < n <= |es| && es[p].Check? && ClockOrdered(es, ip) && NotBefore(es[..n], ip, t)
    requires !Permits(cfg, Lookup(After(cfg, es[..p], false), es[p].ip), es[p].now)
    ensures Offered(cfg, es, ip, n, t) == Offered(cfg, Drop(es, p), ip, n - 1, t)
    decreases n
  {
    hide RetryAfter, Available, ClockOrdered, NotBefore;
    LastNotAfter(es, ip, n, t);
    if n == p + 1 {
      assert es[..n][..p] == es[..p] == Drop(es, p)[..p] && es[..n][p] == es[p];
      if Charges(es[p], ip) {
        PrefixOrdered(es, p, ip);
        SlotBounds(cfg, es[..p], ip, false, es[p].now);
        DenyKeepsAvailable(cfg, Lookup(After(cfg, es[..p], false), ip), es[p].now, t);
      }
    } else {
      DropPrefix(es, p, n - 1);
      var f := es[n - 1];
      if Charges(f, ip) {
        PrefixOrdered(es, n - 1, ip);
        DenyLeavesNoTrace(cfg, es, p, n - 1, ip, f.now);
      } else {
        DenyLeavesNoTrace(cfg, es, p, n - 1, ip, t);
      }
    }
  }

  /** Refused checks never influence anything: leaving one out of a run changes
      no later answer. */
  lemma DroppingADeniedCheck(cfg: LimiterConfig, es: seq<Event>, p: nat, k: nat)
    requires Derived(cfg) && p < k < |es| && es[p].Check? && es[k].Check?
    requires ClockOrdered(es, es[p].ip) && ClockOrdered(es, es[k].ip) && Patient(es)
    requires Answers(cfg, es, true)[p] != Some(Allow)
    ensures Answers(cfg, Drop(es, p), true)[k - 1] == Answers(cfg, es, true)[k]
  {
    hide Available, RetryAfter, ClockOrdered, Patient, NotBefore, After, Answers;
    EvictionIsInvisible(cfg, es, p);
    AnswerAt(cfg, es, false, p);
    PrefixOrdered(es, k, es[k].ip);
    DenyLeavesNoTrace(cfg, es, p, k, es[k].ip, es[k].now);
    DropOrdered(es, p, es[k].ip);
    EvictionIsInvisible(cfg, es, k);
    EvictionIsInvisible(cfg, Drop(es, p), k - 1);
    AllowedIffOffered(cfg, es, k);
    AllowedIffOffered(cfg, Drop(es, p), k - 1);
  }

  // ---- who a request is charged to ----

  datatype Headers = Headers(forwarded: Option<string>, xForwardedFor: Option<string>)

  // How a header value is turned into an address, if it can be.
  datatype Parsers = Parsers(forwarded: string -> Option<IpAddr>, firstHop: string -> Option<IpAddr>)

  function ClientIp(headers: Headers, peer: Option<IpAddr>, trusted: set<IpAddr>, p: Parsers): Option<IpAddr> {
    if peer.Some? && peer.value in trusted then
      if headers.forwarded.Some? && p.forwarded(headers.forwarded.value).Some? then
        p.forwarded(headers.forwarded.value)
      else if headers.xForwardedFor.Some? && p.firstHop(headers.xForwardedFor.value).Some? then
        p.firstHop(headers.xForwardedFor.value)
      else peer
    else peer
  }

  /** Headers matter only behind a trusted proxy; there a readable `Forwarded` wins
      over `X-Forwarded-For`, and an unreadable one is as good as none. Without a
      socket address there is no client address. */
  lemma ClientIpLaws(h: Headers, h': Headers, peer: Option<IpAddr>, trusted: set<IpAddr>, p: Parsers)
    ensures ClientIp(h, peer, trusted, p).None? <==> peer.None?
    ensures peer.Some? && peer.value !in trusted ==> ClientIp(h, peer, trusted, p) == peer
    ensures peer.Some? && peer.value in trusted && h.forwarded.Some? && h.forwarded == h'.forwarded
            && p.forwarded(h.forwarded.value).Some?
            ==> ClientIp(h, peer, trusted, p) == ClientIp(h', peer, trusted, p) == p.forwarded(h.forwarded.value)
    ensures h.forwarded.Some? && p.forwarded(h.forwarded.value).None?
            ==> ClientIp(h, peer, trusted, p) == ClientIp(h.(forwarded := None), peer, trusted, p)
    ensures peer.Some? && peer.value in trusted && h.xForwardedFor.Some? && p.firstHop(h.xForwardedFor.value).Some?
            ==> ClientIp(h.(forwarded := None), peer, trusted, p) == p.firstHop(h.xForwardedFor.value)
    ensures (h.forwarded.None? || p.forwarded(h.forwarded.value).None?)
            && (h.xForwardedFor.None? || p.firstHop(h.xForwardedFor.value).None?)
            ==> ClientIp(h, peer, trusted, p) == peer
  {
  }

  datatype Arrival =
    | Http(headers: Headers, peer: Option<IpAddr>, now: real)
    | Sweep(idle: real, now: real)

  function ToEvent(a: Arrival, trusted: set<IpAddr>, p: Parsers): Event {
    match a
    case Sweep(idle, now) => Janitor(idle, now)
    case Http(headers, peer, now) =>
      var ip := ClientIp(headers, peer, trusted, p);
      if ip.Some? then Check(ip.value, now) else NoAddress(now)
  }

  function Events(arrivals: seq<Arrival>, trusted: set<IpAddr>, p: Parsers): (es: seq<Event>)
    ensures |es| == |arrivals|
    ensures forall i :: 0 <= i < |es| ==> es[i] == ToEvent(arrivals[i], trusted, p)
  {
    seq(|arrivals|, i requires 0 <= i < |arrivals| => ToEvent(arrivals[i], trusted, p))
  }

  // Requests of one TCP peer that the guard let through, among arrivals i..n.
  function AdmittedFrom(arrivals: seq<Arrival>, answers: seq<Option<Outcome>>, peer: IpAddr, i: nat, n: nat): nat
    requires i <= n <= |arrivals| == |answers|
    decreases n
  {
    if i == n then 0
    else AdmittedFrom(arrivals, answers, peer, i, n - 1)
         + (if arrivals[n - 1].Http? && arrivals[n - 1].peer == Some(peer) && answers[n - 1] == Some(Allow)
            then 1 else 0)
  }

  lemma {:induction false} AdmittedAreCharged(arrivals: seq<Arrival>, trusted: set<IpAddr>, p: Parsers,
                                              answers: seq<Option<Outcome>>, peer: IpAddr, i: nat, n: nat)
    requires peer !in trusted && i <= n <= |arrivals| == |answers|
    ensures AdmittedFrom(arrivals, answers, peer, i, n) <= AllowedIn(Events(arrivals, trusted, p), answers, peer, i, n)
    decreases n
  {
    if i < n {
      AdmittedAreCharged(arrivals, trusted, p, answers, peer, i, n - 1);
      assert Events(arrivals, trusted, p)[n - 1] == ToEvent(arrivals[n - 1], trusted, p);
    }
  }

  /** The guard fails closed: a request without a socket address is refused and charged
      to nobody. */
  lemma GuardFailsClosed(cfg: LimiterConfig, arrivals: seq<Arrival>, trusted: set<IpAddr>, p: Parsers, i: nat)
    requires Derived(cfg) && i < |arrivals| && arrivals[i].Http? && arrivals[i].peer.None?
    ensures var es := Events(arrivals, trusted, p);
            && Answers(cfg, es, true)[i] != Some(Allow)
            && After(cfg, es[..i + 1], true) == After(cfg, es[..i], true)
  {
    var es := Events(arrivals, trusted, p);
    AnswerAt(cfg, es, true, i);
    assert es[..i + 1][..i] == es[..i] && es[i] == ToEvent(arrivals[i], trusted, p);
  }

  /** A peer that is not a trusted proxy cannot exceed its quota whatever headers
      it sends, and whatever any other peer sends on its behalf. */
  lemma UntrustedPeerIsBounded(cfg: LimiterConfig, arrivals: seq<Arrival>, trusted: set<IpAddr>, p: Parsers,
                               peer: IpAddr, i: nat, n: nat, start: real, length: real)
    requires Derived(cfg) && i <= n <= |arrivals| && length >= 0.0 && peer !in trusted
    requires var es := Events(arrivals, trusted, p);
             ClockOrdered(es, peer) && Patient(es)
             && forall j :: i <= j < n && Charges(es[j], peer) ==> start <= es[j].now <= start + length
    ensures AdmittedFrom(arrivals, Answers(cfg, Events(arrivals, trusted, p), true), peer, i, n) as real
         <= cfg.capacity + Refill(length, cfg.refillPerSec)
  {
    var es := Events(arrivals, trusted, p);
    AllowedInWindowBound(cfg, es, peer, i, n, start, length);
    AdmittedAreCharged(arrivals, trusted, p, Answers(cfg, es, true), peer, i, n);
  }

  // ---- where the law stops ----

  function Burst(ip: IpAddr, t: real, m: nat): (es: seq<Event>)
    ensures |es| == m && forall i :: 0 <= i < m ==> es[i] == Check(ip, t)
  {
    seq(m, _ => Check(ip, t))
  }

  // A check that finds the given number of tokens.
  lemma CheckOnce(cfg: LimiterConfig, es: seq<Event>, ip: IpAddr, t: real, tokens: real,
                  evicting: bool)
    requires cfg.refillPerSec > 0.0 && Available(cfg, Lookup(After(cfg, es, evicting), ip), t) == tokens
    ensures var es' := es + [Check(ip, t)];
            && Lookup(After(cfg, es', evicting), ip) == Some(Bucket(if tokens >= 1.0 then tokens - 1.0 else tokens, t))
            && Answers(cfg, es', evicting)
               == Answers(cfg, es, evicting) + [Some(if tokens >= 1.0 then Allow else Deny(RetryAfter(cfg, tokens)))]
  {
    hide Available, RetryAfter;
    assert (es + [Check(ip, t)])[..|es|] == es;
  }

  // A burst into an empty slot is allowed as long as it fits the capacity.
  lemma {:induction false} BurstTokens(cfg: LimiterConfig, pre: seq<Event>, ip: IpAddr, t: real, m: nat, evicting: bool)
    requires Derived(cfg) && m as real <= cfg.capacity && Lookup(After(cfg, pre, evicting), ip) == None
    ensures Lookup(After(cfg, pre + Burst(ip, t, m), evicting), ip)
         == if m == 0 then None else Some(Bucket(cfg.capacity - m as real, t))
  {
    hide After, Lookup, Refilled;
    if m == 0 {
      assert pre + Burst(ip, t, 0) == pre;
    } else {
      var es, tokens := pre + Burst(ip, t, m - 1), cfg.capacity - (m - 1) as real;
      BurstTokens(cfg, pre, ip, t, m - 1, evicting);
      NoTimeNoRefill(cfg, tokens, t);
      assert pre + Burst(ip, t, 0) == pre;
      CheckOnce(cfg, es, ip, t, tokens, evicting);
      assert es + [Check(ip, t)] == pre + Burst(ip, t, m);
    }
  }

  // Drain a bucket, evict it after `idle` seconds, then drain it again.
  function DrainTwice(ip: IpAddr, capacity: nat, idle: real): (es: seq<Event>)
    ensures |es| == 2 * capacity + 1
    ensures forall i :: 0 <= i < |es| ==>
              es[i] == if i < capacity then Check(ip, 0.0)
                       else if i == capacity then Janitor(idle, idle) else Check(ip, idle)
  {
    Burst(ip, 0.0, capacity) + [Janitor(idle, idle)] + Burst(ip, idle, capacity)
  }

  lemma DrainTwicePrefix(ip: IpAddr, capacity: nat, idle: real, k: nat)
    requires k <= 2 * capacity + 1
    ensures k <= capacity ==> DrainTwice(ip, capacity, idle)[..k] == [] + Burst(ip, 0.0, k)
    ensures k > capacity
            ==> DrainTwice(ip, capacity, idle)[..k]
                == Burst(ip, 0.0, capacity) + [Janitor(idle, idle)] + Burst(ip, idle, k - capacity - 1)
  {
  }

  lemma DrainedIsEvicted(cfg: LimiterConfig, ip: IpAddr, capacity: nat, idle: real)
    requires Derived(cfg) && capacity as real == cfg.capacity && idle >= 0.0
    ensures Lookup(After(cfg, Burst(ip, 0.0, capacity) + [Janitor(idle, idle)], true), ip) == None
  {
    var pre := Burst(ip, 0.0, capacity) + [Janitor(idle, idle)];
    assert pre[..|pre| - 1] == [] + Burst(ip, 0.0, capacity);
    BurstTokens(cfg, [], ip, 0.0, capacity, true);
  }

  lemma DrainTwiceAllowed(cfg: LimiterConfig, ip: IpAddr, capacity: nat, idle: real, k: nat)
    requires Derived(cfg) && capacity as real == cfg.capacity && idle >= 0.0
    requires k < 2 * capacity + 1 && k != capacity
    ensures Answers(cfg, DrainTwice(ip, capacity, idle), true)[k] == Some(Allow)
  {
    hide After, RetryAfter, Refilled;
    AnswerAt(cfg, DrainTwice(ip, capacity, idle), true, k);
    DrainTwicePrefix(ip, capacity, idle, k);
    if k < capacity {
      assert Lookup(After(cfg, [], true), ip) == None by { EmptyStart(cfg, ip); }
      BurstTokens(cfg, [], ip, 0.0, k, true);
      NoTimeNoRefill(cfg, cfg.capacity - k as real, 0.0);
    } else {
      DrainedIsEvicted(cfg, ip, capacity, idle);
      BurstTokens(cfg, Burst(ip, 0.0, capacity) + [Janitor(idle, idle)], ip, idle, k - capacity - 1, true);
      NoTimeNoRefill(cfg, cfg.capacity - (k - capacity - 1) as real, idle);
    }
  }

  lemma EmptyStart(cfg: LimiterConfig, ip: IpAddr)
    ensures Lookup(After(cfg, [], true), ip) == None
  {
  }

  lemma {:induction false} DrainTwiceCount(ip: IpAddr, capacity: nat, idle: real, answers: seq<Option<Outcome>>, n: nat)
    requires n <= 2 * capacity + 1 == |answers|
    requires forall i :: 0 <= i < n && i != capacity ==> answers[i] == Some(Allow)
    ensures AllowedIn(DrainTwice(ip, capacity, idle), answers, ip, 0, n) == if n <= capacity then n else n - 1
  {
    if n > 0 {
      DrainTwiceCount(ip, capacity, idle, answers, n - 1);
    }
  }

  // Without eviction the second drain cannot pass completely.
  lemma KeptBucketIsOverdrawn(cfg: LimiterConfig, ip: IpAddr, capacity: nat, idle: real)
    requires Derived(cfg) && capacity as real == cfg.capacity && 0.0 <= idle < 120.0
    requires forall i :: 0 <= i < 2 * capacity && i != capacity
                ==> Answers(cfg, DrainTwice(ip, capacity, idle), false)[i] == Some(Allow)
    ensures Answers(cfg, DrainTwice(ip, capacity, idle), false)[2 * capacity] != Some(Allow)
  {
    hide Refill, Available, RetryAfter, After;
    var es, k := DrainTwice(ip, capacity, idle), 2 * capacity;
    DrainTwiceCount(ip, capacity, idle, Answers(cfg, es, false), k);
    OfferedBelowWindow(cfg, es, ip, 0, k, idle);
    ClimbIsSpanIff(es, ip, 0, k, idle);
    AllowedIffOffered(cfg, es, k);
    FullAfterTwoMinutes(cfg);
    StillShort(1.0 - cfg.capacity, cfg.refillPerSec, 120.0, idle);
    assert idle - es[0].now == idle;
  }

  /** The 120 s threshold is sharp: for every quota and every shorter idle
      threshold there is a run on which eviction shows in an answer. */
  lemma EarlyEvictionShows(perMinute: nat, ip: IpAddr, idle: real) returns (k: nat)
    requires perMinute >= 1 && 0.0 <= idle < 120.0
    ensures Derived(FromPerMinute(perMinute)) && k <= 4 * perMinute
    ensures var es := DrainTwice(ip, 2 * perMinute, idle);
            && ClockOrdered(es, ip)
            && Answers(FromPerMinute(perMinute), es, true)[k] != Answers(FromPerMinute(perMinute), es, false)[k]
  {
    QuotaIsDerived(perMinute);
    hide Available, RetryAfter, After, Answers;
    var cfg, capacity, es := FromPerMinute(perMinute), 2 * perMinute, DrainTwice(ip, 2 * perMinute, idle);
    var seen, kept := Answers(cfg, es, true), Answers(cfg, es, false);
    k := 0;
    while k < 2 * capacity && seen[k] == kept[k]
      invariant k <= 2 * capacity
      invariant forall i :: 0 <= i < k ==> seen[i] == kept[i]
    {
      k := k + 1;
    }
    DrainTwiceAllowed(cfg, ip, capacity, idle, 2 * capacity);
    if k == 2 * capacity && seen[k] == kept[k] {
      forall i | 0 <= i < k && i != capacity ensures kept[i] == Some(Allow) {
        DrainTwiceAllowed(cfg, ip, capacity, idle, i);
      }
      KeptBucketIsOverdrawn(cfg, ip, capacity, idle);
      assert false;
    }
  }

  /** Clock order is needed too: a check that reads the clock early and takes the
      bucket late winds the refill clock back, and three checks of the same
      instant pass a limit of two. */
  lemma StaleClockBreaksTheBound(ip: IpAddr)
    ensures var cfg := FromPerMinute(1);
            var es := [Check(ip, 120.0), Check(ip, 120.0), Check(ip, 0.0), Check(ip, 120.0)];
            && Derived(cfg) && cfg.capacity == 2.0
            && Answers(cfg, es, true) == [Some(Allow), Some(Allow), Some(Deny(60)), Some(Allow)]
  {
    var cfg := FromPerMinute(1);
    StaleTokens(cfg);
    StaleDelay(cfg);
    hide FromPerMinute, Refilled, RetryAfter, Derived, Answers;
    StaleRun(cfg, ip);
  }

  lemma StaleRun(cfg: LimiterConfig, ip: IpAddr)
    requires cfg.refillPerSec > 0.0 && cfg.capacity == 2.0 && RetryAfter(cfg, 0.0) == 60
    requires Refilled(cfg, Bucket(1.0, 120.0), 120.0) == 1.0
    requires Refilled(cfg, Bucket(0.0, 120.0), 0.0) == 0.0
    requires Refilled(cfg, Bucket(0.0, 0.0), 120.0) == 2.0
    ensures var es := [Check(ip, 120.0), Check(ip, 120.0), Check(ip, 0.0), Check(ip, 120.0)];
            Answers(cfg, es, true) == [Some(Allow), Some(Allow), Some(Deny(60)), Some(Allow)]
  {
    var e, stale := Check(ip, 120.0), Check(ip, 0.0);
    EmptyStart(cfg, ip);
    assert Answers(cfg, [], true) == [];
    hide Refilled, RetryAfter, After, Answers, Lookup;
    CheckOnce(cfg, [], ip, 120.0, 2.0, true);
    assert [] + [e] == [e];
    CheckOnce(cfg, [e], ip, 120.0, 1.0, true);
    assert [e] + [e] == [e, e];
    CheckOnce(cfg, [e, e], ip, 0.0, 0.0, true);
    assert [e, e] + [stale] == [e, e, stale];
    CheckOnce(cfg, [e, e, stale], ip, 120.0, 2.0, true);
    assert [e, e, stale] + [e] == [e, e, stale, e];
  }

  // The tokens a bucket of two per 120 s offers along that run.
  lemma StaleTokens(cfg: LimiterConfig)
    requires cfg == FromPerMinute(1)
    ensures Derived(cfg) && cfg.capacity == 2.0
    ensures Refilled(cfg, Bucket(1.0, 120.0), 120.0) == 1.0
    ensures Refilled(cfg, Bucket(0.0, 120.0), 0.0) == 0.0
    ensures Refilled(cfg, Bucket(0.0, 0.0), 120.0) == 2.0
  {
    QuotaIsDerived(1);
    FullAfterTwoMinutes(cfg);
    NothingTimes(cfg.refillPerSec);
    hide Refill;
    assert Elapsed(120.0, 120.0) == 0.0 && Elapsed(0.0, 120.0) == 0.0 && Elapsed(120.0, 0.0) == 120.0;
  }

  lemma StaleDelay(cfg: LimiterConfig)
    requires cfg == FromPerMinute(1)
    ensures cfg.refillPerSec > 0.0 && RetryAfter(cfg, 0.0) == 60
  {
    assert (1.0 - 0.0) / cfg.refillPerSec == 60.0;
    assert Ceil(60.0) == 60;
  }
}
