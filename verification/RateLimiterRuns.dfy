/** Whole runs of the limiter: checks from any number of addresses interleaved
    with janitor sweeps. */
module RateLimiterRuns {
  import opened Common
  import opened RateLimiter

  datatype Event =
    | Check(ip: IpAddr, now: real)
    | Janitor(idle: real, now: real)
    | NoAddress(now: real)  // a request refused before any bucket is touched

  function StepMap(cfg: LimiterConfig, buckets: map<IpAddr, Bucket>, e: Event, evicting: bool): map<IpAddr, Bucket> {
    match e
    case Check(ip, now) => buckets[ip := Charged(cfg, Lookup(buckets, ip), now)]
    case Janitor(idle, now) => if evicting then Evicted(buckets, idle, now) else buckets
    case NoAddress(_) => buckets
  }

  // The bucket map after a run. `evicting` is false for a limiter without a janitor.
  function After(cfg: LimiterConfig, es: seq<Event>, evicting: bool): map<IpAddr, Bucket> {
    if es == [] then map[] else StepMap(cfg, After(cfg, es[..|es| - 1], evicting), es[|es| - 1], evicting)
  }

  function Answer(cfg: LimiterConfig, buckets: map<IpAddr, Bucket>, e: Event): Option<Outcome>
    requires cfg.refillPerSec > 0.0
  {
    if e.Check? then Some(Decide(cfg, Lookup(buckets, e.ip), e.now)) else None
  }

  // What each event of a run is answered.
  function Answers(cfg: LimiterConfig, es: seq<Event>, evicting: bool): (answers: seq<Option<Outcome>>)
    requires cfg.refillPerSec > 0.0
    ensures |answers| == |es|
  {
    if es == [] then []
    else var pre := es[..|es| - 1];
         Answers(cfg, pre, evicting) + [Answer(cfg, After(cfg, pre, evicting), es[|es| - 1])]
  }

  lemma {:induction false} AnswerAt(cfg: LimiterConfig, es: seq<Event>, evicting: bool, k: nat)
    requires Derived(cfg) && k < |es|
    ensures Answers(cfg, es, evicting)[k] == Answer(cfg, After(cfg, es[..k], evicting), es[k])
    ensures Answers(cfg, es, evicting)[k] == Some(Allow) <==>
            es[k].Check? && Permits(cfg, Lookup(After(cfg, es[..k], evicting), es[k].ip), es[k].now)
  {
    var pre := es[..|es| - 1];
    if k < |es| - 1 {
      AnswerAt(cfg, pre, evicting, k);
      assert pre[..k] == es[..k];
    }
  }

  predicate Charges(e: Event, ip: IpAddr) { e.Check? && e.ip == ip }

  predicate Touches(e: Event, ip: IpAddr) { e.Janitor? || Charges(e, ip) }

  // The earliest clock reading with which a check may still follow an event. A sweep
  // that evicts only long-idle buckets leaves slack; a check leaves none.
  function Since(e: Event): real {
    if e.Janitor? && e.idle > 120.0 then e.now - (e.idle - 120.0) else e.now
  }

  // Checks reach one bucket in the order of their clock readings, and lag behind a
  // sweep by no more than its slack.
  ghost predicate ClockOrdered(es: seq<Event>, ip: IpAddr) {
    forall i, j :: 0 <= i < j < |es| && Touches(es[i], ip) && Charges(es[j], ip) ==> Since(es[i]) <= es[j].now
  }

  ghost predicate Patient(es: seq<Event>) {
    forall i :: 0 <= i < |es| && es[i].Janitor? ==> es[i].idle >= 120.0
  }

  ghost predicate NotBefore(es: seq<Event>, ip: IpAddr, t: real) {
    forall i :: 0 <= i < |es| && Touches(es[i], ip) ==> Since(es[i]) <= t
  }

  // The number of checks of `ip` allowed among events i..n.
  function AllowedIn(es: seq<Event>, answers: seq<Option<Outcome>>, ip: IpAddr, i: nat, n: nat): nat
    requires i <= n <= |es| == |answers|
    decreases n
  {
    if i == n then 0
    else AllowedIn(es, answers, ip, i, n - 1)
         + (if Charges(es[n - 1], ip) && answers[n - 1] == Some(Allow) then 1 else 0)
  }

  lemma LastNotAfter(es: seq<Event>, ip: IpAddr, n: nat, t: real)
    requires 0 < n <= |es| && NotBefore(es[..n], ip, t)
    ensures NotBefore(es[..n - 1], ip, t)
    ensures Charges(es[n - 1], ip) ==> es[n - 1].now <= t
  {
    assert es[..n][n - 1] == es[n - 1];
    assert forall i :: 0 <= i < n - 1 ==> es[..n][i] == es[..n - 1][i];
  }

  lemma PrefixOrdered(es: seq<Event>, n: nat, ip: IpAddr)
    requires n < |es| && Charges(es[n], ip) && ClockOrdered(es, ip)
    ensures NotBefore(es[..n], ip, es[n].now)
  {
  }

  // ---- one step of one slot ----

  lemma Split(r: real, a: real, b: real, c: real)
    ensures Refill(c - a, r) == Refill(b - a, r) + Refill(c - b, r)
  {
  }

  lemma Add(r: real, a: real, b: real)
    ensures Refill(a + b, r) == Refill(a, r) + Refill(b, r)
  {
  }

  lemma Widen(count: real, r: real, a: real, b: real)
    requires r >= 0.0 && a <= b && count <= Refill(a, r)
    ensures count <= Refill(b, r)
  {
  }

  lemma Grow(r: real, a: real, b: real)
    requires r >= 0.0 && a <= b
    ensures Refill(a, r) <= Refill(b, r) && Refill(0.0, r) == 0.0
  {
  }

  lemma FullAfterTwoMinutes(cfg: LimiterConfig)
    requires Derived(cfg)
    ensures Refill(120.0, cfg.refillPerSec) == cfg.capacity
  {
  }

  lemma AvailableAfterCharge(cfg: LimiterConfig, slot: Option<Bucket>, s: real, t: real)
    requires Derived(cfg)
    ensures Available(cfg, Some(Charged(cfg, slot, s)), t)
         == Min(cfg.capacity, Available(cfg, slot, s) - (if Permits(cfg, slot, s) then 1.0 else 0.0)
                              + Refill(Elapsed(t, s), cfg.refillPerSec))
  {
    hide Refill;
  }

  // A denied check leaves the bucket offering exactly what it offered before.
  lemma DenyKeepsAvailable(cfg: LimiterConfig, slot: Option<Bucket>, s: real, t: real)
    requires Derived(cfg) && s <= t
    requires !Permits(cfg, slot, s)
    requires slot.Some? ==> slot.value.lastRefill <= s
    ensures Available(cfg, Some(Charged(cfg, slot, s)), t) == Available(cfg, slot, t)
  {
    hide Refill;
    AvailableAfterCharge(cfg, slot, s, t);
    var r, last := cfg.refillPerSec, slot.value.lastRefill;
    assert Elapsed(s, last) == s - last && Elapsed(t, last) == t - last && Elapsed(t, s) == t - s;
    Split(r, last, s, t);
    Grow(r, 0.0, t - s);
  }

  // ---- the slot of one address ----

  lemma {:induction false} SlotBounds(cfg: LimiterConfig, es: seq<Event>, ip: IpAddr, evicting: bool, t: real)
    requires Derived(cfg) && NotBefore(es, ip, t)
    ensures var slot := Lookup(After(cfg, es, evicting), ip);
            slot.Some? ==> 0.0 <= slot.value.tokens <= cfg.capacity && slot.value.lastRefill <= t
  {
    hide Refill;
    if es != [] {
      var pre, e := es[..|es| - 1], es[|es| - 1];
      SlotBounds(cfg, pre, ip, evicting, t);
      if Charges(e, ip) {
        var slot := Lookup(After(cfg, pre, evicting), ip);
        if slot.Some? {
          Grow(cfg.refillPerSec, 0.0, Elapsed(e.now, slot.value.lastRefill));
        }
      }
    }
  }

  lemma EvictedIsFull(cfg: LimiterConfig, b: Bucket, idle: real, now: real, t: real)
    requires Derived(cfg) && b.tokens >= 0.0 && idle >= 120.0
    requires Elapsed(now, b.lastRefill) >= idle && now - (idle - 120.0) <= t
    ensures Available(cfg, Some(b), t) == cfg.capacity
  {
    hide Refill;
    FullAfterTwoMinutes(cfg);
    Grow(cfg.refillPerSec, 120.0, Elapsed(t, b.lastRefill));
  }

  // Simulation: a missing bucket stands for one that has refilled completely.
  lemma {:induction false} EvictionSimulation(cfg: LimiterConfig, es: seq<Event>, ip: IpAddr, t: real)
    requires Derived(cfg) && ClockOrdered(es, ip) && Patient(es) && NotBefore(es, ip, t)
    ensures var slot, kept := Lookup(After(cfg, es, true), ip), Lookup(After(cfg, es, false), ip);
            slot == kept || (slot.None? && Available(cfg, kept, t) == cfg.capacity)
  {
    hide Refilled;
    if es != [] {
      var pre, e := es[..|es| - 1], es[|es| - 1];
      var slot, kept := Lookup(After(cfg, pre, true), ip), Lookup(After(cfg, pre, false), ip);
      if Charges(e, ip) {
        EvictionSimulation(cfg, pre, ip, e.now);
      } else {
        EvictionSimulation(cfg, pre, ip, t);
        SlotBounds(cfg, pre, ip, false, t);
        if e.Janitor? && kept.Some? && Elapsed(e.now, kept.value.lastRefill) >= e.idle {
          EvictedIsFull(cfg, kept.value, e.idle, e.now, t);
        }
      }
    }
  }

  /** Eviction is invisible: with an idle threshold of at least 120 s the janitor
      changes no answer and no retry delay on any run. */
  lemma EvictionIsInvisible(cfg: LimiterConfig, es: seq<Event>, k: nat)
    requires Derived(cfg) && k < |es|
    requires es[k].Check? ==> ClockOrdered(es, es[k].ip)
    requires Patient(es)
    ensures Answers(cfg, es, true)[k] == Answers(cfg, es, false)[k]
  {
    AnswerAt(cfg, es, true, k);
    AnswerAt(cfg, es, false, k);
    if es[k].Check? {
      EvictionSimulation(cfg, es[..k], es[k].ip, es[k].now);
    }
  }

  lemma {:induction false} AllowedInIgnoresJanitor(cfg: LimiterConfig, es: seq<Event>, ip: IpAddr, i: nat, n: nat)
    requires Derived(cfg) && ClockOrdered(es, ip) && Patient(es)
    requires i <= n <= |es|
    ensures AllowedIn(es, Answers(cfg, es, true), ip, i, n) == AllowedIn(es, Answers(cfg, es, false), ip, i, n)
    decreases n
  {
    if i < n {
      AllowedInIgnoresJanitor(cfg, es, ip, i, n - 1);
      if Charges(es[n - 1], ip) {
        EvictionIsInvisible(cfg, es, n - 1);
      }
    }
  }

  // ---- the sliding-window characterisation ----

  // The time that the checks of an address see pass from check i, through those
  // before event n, to a reading t: the clock's climbs, without its falls.
  function Climb(es: seq<Event>, ip: IpAddr, i: nat, n: nat, t: real): (d: real)
    requires i <= n <= |es| && i < |es|
    ensures d >= 0.0
    decreases n
  {
    if n <= i + 1 then Elapsed(t, es[i].now)
    else if Charges(es[n - 1], ip) then Climb(es, ip, i, n - 1, es[n - 1].now) + Elapsed(t, es[n - 1].now)
    else Climb(es, ip, i, n - 1, t)
  }

  // The checks of an address from check i on, and the reading t, are in clock order.
  ghost predicate InOrder(es: seq<Event>, ip: IpAddr, i: nat, n: nat, t: real)
    requires i <= n <= |es|
  {
    && (forall a, b :: i <= a < b < n && Charges(es[a], ip) && Charges(es[b], ip) ==> es[a].now <= es[b].now)
    && (forall a :: i <= a < n && Charges(es[a], ip) ==> es[a].now <= t)
  }

  /** The climb is never less than the span from first to last reading, and exceeds it
      exactly when the readings are out of order. */
  lemma {:induction false} ClimbIsSpanIff(es: seq<Event>, ip: IpAddr, i: nat, n: nat, t: real)
    requires i < n <= |es| && Charges(es[i], ip)
    ensures Climb(es, ip, i, n, t) >= t - es[i].now
    ensures Climb(es, ip, i, n, t) == t - es[i].now <==> InOrder(es, ip, i, n, t)
    decreases n
  {
    if i + 1 < n {
      var e := es[n - 1];
      if Charges(e, ip) {
        ClimbIsSpanIff(es, ip, i, n - 1, e.now);
        assert InOrder(es, ip, i, n, t) <==> InOrder(es, ip, i, n - 1, e.now) && e.now <= t;
      } else {
        ClimbIsSpanIff(es, ip, i, n - 1, t);
        assert InOrder(es, ip, i, n, t) <==> InOrder(es, ip, i, n - 1, t);
      }
    }
  }

  // What the window opened by check i still permits at reading t, after n events.
  function WindowLeft(cfg: LimiterConfig, es: seq<Event>, ip: IpAddr, i: nat, n: nat, t: real): real
    requires cfg.refillPerSec > 0.0
    requires i <= n <= |es| && i < |es|
  {
    cfg.capacity + Refill(Climb(es, ip, i, n, t), cfg.refillPerSec)
    - AllowedIn(es, Answers(cfg, es, false), ip, i, n) as real
  }

  function Spent(cfg: LimiterConfig, es: seq<Event>, k: nat): nat
    requires cfg.refillPerSec > 0.0 && k < |es|
  {
    if Answers(cfg, es, false)[k] == Some(Allow) then 1 else 0
  }

  lemma WindowStep(cfg: LimiterConfig, es: seq<Event>, ip: IpAddr, i: nat, n: nat, t: real)
    requires Derived(cfg) && i < n <= |es| && Charges(es[n - 1], ip)
    ensures WindowLeft(cfg, es, ip, i, n, t)
         == WindowLeft(cfg, es, ip, i, n - 1, es[n - 1].now)
            - Spent(cfg, es, n - 1) as real + Refill(Elapsed(t, es[n - 1].now), cfg.refillPerSec)
  {
    hide Refill, Answers;
    var s, r := es[n - 1].now, cfg.refillPerSec;
    NothingTimes(r);
    assert Climb(es, ip, i, n, t) == Climb(es, ip, i, n - 1, s) + Elapsed(t, s);
    Add(r, Climb(es, ip, i, n - 1, s), Elapsed(t, s));
  }

  // What the slot offers at t after a check at event n - 1.
  lemma OfferedStep(cfg: LimiterConfig, es: seq<Event>, ip: IpAddr, n: nat, t: real)
    requires Derived(cfg) && 0 < n <= |es| && Charges(es[n - 1], ip)
    ensures Offered(cfg, es, ip, n, t)
         == Min(cfg.capacity, Offered(cfg, es, ip, n - 1, es[n - 1].now) - Spent(cfg, es, n - 1) as real
                              + Refill(Elapsed(t, es[n - 1].now), cfg.refillPerSec))
  {
    hide Refill;
    var slot := Lookup(After(cfg, es[..n - 1], false), ip);
    assert es[..n][..n - 1] == es[..n - 1];
    AnswerAt(cfg, es, false, n - 1);
    AvailableAfterCharge(cfg, slot, es[n - 1].now, t);
  }

  // What the bucket of `ip` offers at t, after n events of the janitor-free run.
  function Offered(cfg: LimiterConfig, es: seq<Event>, ip: IpAddr, n: nat, t: real): real
    requires n <= |es|
  {
    Available(cfg, Lookup(After(cfg, es[..n], false), ip), t)
  }

  lemma NeverOverfull(cfg: LimiterConfig, es: seq<Event>, ip: IpAddr, n: nat, t: real)
    requires n <= |es|
    ensures Offered(cfg, es, ip, n, t) <= cfg.capacity
  {
  }

  lemma UnchargedStep(cfg: LimiterConfig, es: seq<Event>, ip: IpAddr, i: nat, n: nat, t: real)
    requires Derived(cfg) && i < n <= |es| && !Charges(es[n - 1], ip)
    ensures i < n - 1 ==> WindowLeft(cfg, es, ip, i, n, t) == WindowLeft(cfg, es, ip, i, n - 1, t)
    ensures Offered(cfg, es, ip, n, t) == Offered(cfg, es, ip, n - 1, t)
  {
    hide Refill;
    assert es[..n][..n - 1] == es[..n - 1];
  }

  // No window ever permits less than the bucket offers.
  lemma {:induction false} OfferedBelowWindow(cfg: LimiterConfig, es: seq<Event>, ip: IpAddr, i: nat, n: nat, t: real)
    requires Derived(cfg) && i < n <= |es| && Charges(es[i], ip)
    ensures Offered(cfg, es, ip, n, t) <= WindowLeft(cfg, es, ip, i, n, t)
    decreases n
  {
    hide Refill, Available, Answers, WindowLeft;
    var e := es[n - 1];
    if Charges(e, ip) {
      OfferedStep(cfg, es, ip, n, t);
      WindowStep(cfg, es, ip, i, n, t);
      if i < n - 1 {
        OfferedBelowWindow(cfg, es, ip, i, n - 1, e.now);
      } else {
        NeverOverfull(cfg, es, ip, i, e.now);
        EmptyWindow(cfg, es, ip, i);
      }
    } else {
      UnchargedStep(cfg, es, ip, i, n, t);
      OfferedBelowWindow(cfg, es, ip, i, n - 1, t);
    }
  }

  lemma EmptyWindow(cfg: LimiterConfig, es: seq<Event>, ip: IpAddr, i: nat)
    requires Derived(cfg) && i < |es|
    ensures WindowLeft(cfg, es, ip, i, i, es[i].now) == cfg.capacity
  {
    hide Refill, Answers;
    NothingTimes(cfg.refillPerSec);
  }

  // Some window permits no more than the bucket offers, unless it is full.
  lemma {:induction false} OfferedAttained(cfg: LimiterConfig, es: seq<Event>, ip: IpAddr, n: nat, t: real)
    returns (i: nat)
    requires Derived(cfg) && n <= |es|
    ensures Offered(cfg, es, ip, n, t) == cfg.capacity
            || (i < n && Charges(es[i], ip) && Offered(cfg, es, ip, n, t) == WindowLeft(cfg, es, ip, i, n, t))
    decreases n
  {
    i := 0;
    if n == 0 {
      assert es[..0] == [];
    } else {
      hide Refill, Available, Answers, WindowLeft;
      var e := es[n - 1];
      if Charges(e, ip) {
        OfferedStep(cfg, es, ip, n, t);
        i := OfferedAttained(cfg, es, ip, n - 1, e.now);
        if Offered(cfg, es, ip, n - 1, e.now) == cfg.capacity {
          i := n - 1;
          EmptyWindow(cfg, es, ip, i);
        }
        WindowStep(cfg, es, ip, i, n, t);
      } else {
        i := OfferedAttained(cfg, es, ip, n - 1, t);
        UnchargedStep(cfg, es, ip, if i < n - 1 then i else 0, n, t);
      }
    }
  }

  // Check k, counted with the checks allowed since check i, fits what the clock
  // climbed between them.
  ghost predicate FitsClimb(cfg: LimiterConfig, es: seq<Event>, i: nat, k: nat)
    requires cfg.refillPerSec > 0.0
    requires i <= k < |es| && es[k].Check?
  {
    (AllowedIn(es, Answers(cfg, es, false), es[k].ip, i, k) + 1) as real
      <= cfg.capacity + Refill(Climb(es, es[k].ip, i, k, es[k].now), cfg.refillPerSec)
  }

  /** The exact law of the buckets, whatever clock readings the checks bring: a check is
      allowed if and only if, in every window that opens at a check of the same address
      and ends now, the allowed requests including this one number at most
      capacity + refill * climb of the clock. */
  lemma AllowedIffEveryClimbFits(cfg: LimiterConfig, es: seq<Event>, k: nat)
    requires Derived(cfg) && k < |es| && es[k].Check?
    ensures Answers(cfg, es, false)[k] == Some(Allow)
       <==> forall i :: 0 <= i <= k && Charges(es[i], es[k].ip) ==> FitsClimb(cfg, es, i, k)
  {
    hide Refill, Available;
    var ip, t := es[k].ip, es[k].now;
    AnswerAt(cfg, es, false, k);
    var offered := Offered(cfg, es, ip, k, t);
    forall i | 0 <= i <= k && Charges(es[i], ip)
      ensures offered >= 1.0 ==> FitsClimb(cfg, es, i, k)
      ensures i < k && FitsClimb(cfg, es, i, k) ==> WindowLeft(cfg, es, ip, i, k, t) >= 1.0
    {
      if i < k {
        OfferedBelowWindow(cfg, es, ip, i, k, t);
      } else {
        EmptyWindow(cfg, es, ip, k);
      }
    }
    var i := OfferedAttained(cfg, es, ip, k, t);
  }

  // Check k, counted with the checks allowed since check i, fits the window they span.
  ghost predicate FitsWindow(cfg: LimiterConfig, es: seq<Event>, i: nat, k: nat)
    requires cfg.refillPerSec > 0.0
    requires i <= k < |es| && es[k].Check?
  {
    (AllowedIn(es, Answers(cfg, es, true), es[k].ip, i, k) + 1) as real
      <= cfg.capacity + Refill(es[k].now - es[i].now, cfg.refillPerSec)
  }

  lemma WindowIsClimb(cfg: LimiterConfig, es: seq<Event>, i: nat, k: nat)
    requires Derived(cfg) && i <= k < |es| && es[k].Check? && Charges(es[i], es[k].ip)
    requires ClockOrdered(es, es[k].ip) && Patient(es)
    ensures FitsWindow(cfg, es, i, k) <==> FitsClimb(cfg, es, i, k)
  {
    AllowedInIgnoresJanitor(cfg, es, es[k].ip, i, k);
    hide Refill, Answers;
    if i < k {
      ClimbIsSpanIff(es, es[k].ip, i, k, es[k].now);
    }
  }

  /** The exact law of the limiter with its janitor: when checks come in clock order, a
      check is allowed if and only if, in every window that opens at a check of the same
      address and ends now, the allowed requests including this one number at most
      capacity + refill * length. */
  lemma AllowedIffEveryWindowFits(cfg: LimiterConfig, es: seq<Event>, k: nat)
    requires Derived(cfg) && k < |es| && es[k].Check?
    requires ClockOrdered(es, es[k].ip) && Patient(es)
    ensures Answers(cfg, es, true)[k] == Some(Allow)
       <==> forall i :: 0 <= i <= k && Charges(es[i], es[k].ip) ==> FitsWindow(cfg, es, i, k)
  {
    hide FitsWindow, FitsClimb, ClockOrdered, Answers;
    EvictionIsInvisible(cfg, es, k);
    AllowedIffEveryClimbFits(cfg, es, k);
    forall i | 0 <= i <= k && Charges(es[i], es[k].ip)
      ensures FitsWindow(cfg, es, i, k) <==> FitsClimb(cfg, es, i, k)
    {
      WindowIsClimb(cfg, es, i, k);
    }
  }

  /** Whatever happens elsewhere, the requests allowed to one address between
      events i and n number at most capacity + refill * length when the checks
      among them lie within `length` seconds. */
  lemma {:induction false} AllowedInWindowBound(cfg: LimiterConfig, es: seq<Event>, ip: IpAddr, i: nat, n: nat,
                                                start: real, length: real)
    requires Derived(cfg) && i <= n <= |es| && length >= 0.0
    requires ClockOrdered(es, ip) && Patient(es)
    requires forall j :: i <= j < n && Charges(es[j], ip) ==> start <= es[j].now <= start + length
    ensures AllowedIn(es, Answers(cfg, es, true), ip, i, n) as real
         <= cfg.capacity + Refill(length, cfg.refillPerSec)
    decreases n - i, n
  {
    hide Refill;
    var answers := Answers(cfg, es, true);
    if i == n {
      Grow(cfg.refillPerSec, 0.0, length);
    } else if !(Charges(es[n - 1], ip) && answers[n - 1] == Some(Allow)) {
      AllowedInWindowBound(cfg, es, ip, i, n - 1, start, length);
    } else if !Charges(es[i], ip) {
      AllowedInSkips(es, answers, ip, i, n);
      AllowedInWindowBound(cfg, es, ip, i + 1, n, start, length);
    } else {
      LastAllowed(cfg, es, ip, i, n, length);
    }
  }

  lemma LastAllowed(cfg: LimiterConfig, es: seq<Event>, ip: IpAddr, i: nat, n: nat, length: real)
    requires Derived(cfg) && i < n <= |es| && Charges(es[i], ip) && Charges(es[n - 1], ip)
    requires ClockOrdered(es, ip) && Patient(es)
    requires Answers(cfg, es, true)[n - 1] == Some(Allow) && es[n - 1].now - es[i].now <= length
    ensures AllowedIn(es, Answers(cfg, es, true), ip, i, n) as real
         <= cfg.capacity + Refill(length, cfg.refillPerSec)
  {
    hide Refill, Answers, ClockOrdered, Patient;
    AllowedIffEveryWindowFits(cfg, es, n - 1);
    assert FitsWindow(cfg, es, i, n - 1);
    var span, count := es[n - 1].now - es[i].now, AllowedIn(es, Answers(cfg, es, true), ip, i, n);
    Widen(count as real - cfg.capacity, cfg.refillPerSec, span, length);
  }

  lemma {:induction false} AllowedInSkips(es: seq<Event>, answers: seq<Option<Outcome>>, ip: IpAddr, i: nat, n: nat)
    requires i < n <= |es| == |answers| && !Charges(es[i], ip)
    ensures AllowedIn(es, answers, ip, i, n) == AllowedIn(es, answers, ip, i + 1, n)
    decreases n
  {
    if i + 1 < n {
      AllowedInSkips(es, answers, ip, i, n - 1);
    }
  }
}
