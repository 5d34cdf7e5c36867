/** Which buckets the janitor removes, read off the history of checks and sweeps. */
module RateLimiterEviction {
  import opened Common
  import opened RateLimiter
  import opened RateLimiterRuns

  ghost predicate IsLastCheck(es: seq<Event>, ip: IpAddr, i: nat) {
    && i < |es| && Charges(es[i], ip)
    && forall j :: i < j < |es| ==> !Charges(es[j], ip)
  }

  // No sweep since check i came `idle` seconds or more after it; a threshold that is not
  // positive spares nothing.
  ghost predicate Spared(es: seq<Event>, i: nat)
    requires i < |es|
  {
    forall j :: i < j < |es| && es[j].Janitor? ==> es[j].idle > 0.0 && es[j].now - es[i].now < es[j].idle
  }

  lemma LastCheckIsUnique(es: seq<Event>, ip: IpAddr, i: nat, k: nat)
    requires IsLastCheck(es, ip, i) && IsLastCheck(es, ip, k)
    ensures i == k
  {
  }

  lemma LastCheckExtends(es: seq<Event>, ip: IpAddr, i: nat)
    requires es != [] && !Charges(es[|es| - 1], ip)
    ensures IsLastCheck(es, ip, i) <==> IsLastCheck(es[..|es| - 1], ip, i)
    ensures IsLastCheck(es, ip, i)
            ==> (Spared(es, i) <==> Spared(es[..|es| - 1], i)
                                    && (es[|es| - 1].Janitor? ==> es[|es| - 1].idle > 0.0
                                                                  && es[|es| - 1].now - es[i].now < es[|es| - 1].idle))
  {
    var pre := es[..|es| - 1];
    assert forall j :: 0 <= j < |pre| ==> pre[j] == es[j];
  }

  // One event, seen from one address.
  lemma SlotStep(cfg: LimiterConfig, es: seq<Event>, ip: IpAddr)
    requires es != []
    ensures var pre, e := Lookup(After(cfg, es[..|es| - 1], true), ip), es[|es| - 1];
            var slot := Lookup(After(cfg, es, true), ip);
            if Charges(e, ip) then slot.Some? && slot.value.lastRefill == e.now
            else if e.Janitor? && pre.Some? && !(e.idle > 0.0 && e.now - pre.value.lastRefill < e.idle) then slot.None?
            else slot == pre
  {
    hide Refilled;
  }

  /** An address has a bucket exactly when it was checked and every sweep since its last
      check came before that check was `idle` seconds old; the bucket carries the time of
      that check. This holds for arbitrary thresholds and clock readings. */
  lemma {:induction false} BucketExistsIff(cfg: LimiterConfig, es: seq<Event>, ip: IpAddr)
    ensures Lookup(After(cfg, es, true), ip).Some? <==> exists i: nat :: IsLastCheck(es, ip, i) && Spared(es, i)
    ensures forall i: nat :: IsLastCheck(es, ip, i) && Spared(es, i)
                             ==> Lookup(After(cfg, es, true), ip).value.lastRefill == es[i].now
  {
    if es != [] {
      hide After;
      var pre, e := es[..|es| - 1], es[|es| - 1];
      BucketExistsIff(cfg, pre, ip);
      SlotStep(cfg, es, ip);
      if Charges(e, ip) {
        assert IsLastCheck(es, ip, |es| - 1) && Spared(es, |es| - 1);
        forall i: nat | IsLastCheck(es, ip, i) ensures i == |es| - 1 {
          LastCheckIsUnique(es, ip, i, |es| - 1);
        }
      } else {
        forall i: nat ensures IsLastCheck(es, ip, i) <==> IsLastCheck(pre, ip, i)
                      ensures IsLastCheck(es, ip, i) && Spared(es, i) ==> Spared(pre, i) {
          LastCheckExtends(es, ip, i);
        }
        if Lookup(After(cfg, pre, true), ip).Some? {
          var i: nat :| IsLastCheck(pre, ip, i) && Spared(pre, i);
          LastCheckExtends(es, ip, i);
          assert pre[i] == es[i];
          forall k: nat | IsLastCheck(es, ip, k) ensures k == i {
            LastCheckIsUnique(es, ip, k, i);
          }
        }
      }
    }
  }

  /** What one sweep does: a bucket whose last check is at least `idle` seconds old is
      gone, every younger one stays as it was, and none appears. */
  lemma SweepIsExact(cfg: LimiterConfig, es: seq<Event>, ip: IpAddr, idle: real, now: real, i: nat)
    requires idle > 0.0 && IsLastCheck(es, ip, i)
    ensures var before := Lookup(After(cfg, es, true), ip);
            var after := Lookup(After(cfg, es + [Janitor(idle, now)], true), ip);
            && (es[i].now <= now - idle ==> after.None?)
            && (es[i].now > now - idle ==> after == before)
  {
    var es' := es + [Janitor(idle, now)];
    assert es'[..|es|] == es;
    hide After;
    BucketExistsIff(cfg, es, ip);
    SlotStep(cfg, es', ip);
    if Lookup(After(cfg, es, true), ip).Some? {
      var k: nat :| IsLastCheck(es, ip, k) && Spared(es, k);
      LastCheckIsUnique(es, ip, i, k);
    }
  }
}
