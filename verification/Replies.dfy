/** What replies with one idempotency key have in common, exactly. */
module Replies {
  import opened Common
  import opened Idempotency
  import opened SingleFlight

  lemma CurrentAt(log: seq<Entry>, k: string, j: nat)
    requires j < |log| && LogOk(log)
    ensures Truthful(log[j], Current(log[..j], log[j].key))
    ensures Current(log[..j + 1], k) == if log[j].key == k && log[j].Kept? then Some(log[j].response)
                                        else if log[j].key == k && log[j].Evicted? then None
                                        else Current(log[..j], k)
  {
    assert log[..j + 1][..j] == log[..j];
  }

  lemma {:induction false} CurrentStays(log: seq<Entry>, k: string, i: nat, j: nat, r: Response)
    requires i <= j <= |log| && LogOk(log) && Current(log[..i], k) == Some(r)
    requires forall m :: i <= m < j ==> !(log[m].Evicted? && log[m].key == k)
    ensures Current(log[..j], k) == Some(r)
    decreases j
  {
    if i < j {
      hide Current, LogOk;
      CurrentStays(log, k, i, j - 1, r);
      CurrentAt(log, k, j - 1);
    }
  }

  // Two replies for one key, the first before the second, with no eviction of the
  // key between them.
  ghost predicate ReplyPair(es: seq<Event>, i: nat, j: nat) {
    var log := After(es).log;
    && i < j < |log| && log[i].Replied? && log[j].Replied? && log[i].key == log[j].key
    && forall m :: i < m < j ==> !(log[m].Evicted? && log[m].key == log[i].key)
  }

  /** A backed reply is repeated until the key is evicted: every later reply for the
      key, error replies included, is backed and identical. */
  lemma RepliesAreIdentical(es: seq<Event>, i: nat, j: nat)
    requires ReplyPair(es, i, j) && After(es).log[i].backed
    ensures After(es).log[j] == After(es).log[i]
  {
    ReachableInv(es);
    var log := After(es).log;
    CurrentStays(log, log[i].key, i, j, log[i].response);
  }

  // ---- replies that are not repeated ----

  // One request that comes, executes, and returns.
  function Visit(who: nat, k: string, outcome: Outcome): seq<Event> {
    Coming(who, k) + [Execute(who, outcome), Store(who), Abandon(who)]
  }

  function Coming(who: nat, k: string): seq<Event> {
    [Arrive(who, Some(k)), FirstLookup(who), Acquire(who)] + [Recheck(who)]
  }

  // What a visit that misses the cache logs.
  function VisitLog(k: string, outcome: Outcome): seq<Entry> {
    if outcome.Success? && Storable(outcome.response)
    then [Ran(k), Kept(k, outcome.response), Replied(k, outcome.response, true)]
    else [Ran(k), Dropped(k), Replied(k, outcome.response, false)]
  }

  lemma Extend(es: seq<Event>, e: Event)
    ensures After(es + [e]) == Step(After(es), e)
  {
    assert (es + [e])[..|es|] == es;
  }

  ghost predicate Idle(s: System, who: nat, k: string) {
    who !in s.requests && k !in s.cache && k !in s.lock
  }

  // The steps of a visit up to the second miss.
  lemma VisitMisses(s: System, who: nat, k: string)
    requires Idle(s, who, k)
    ensures Step(Step(Step(Step(s, Arrive(who, Some(k))), FirstLookup(who)), Acquire(who)), Recheck(who))
         == s.(lock := s.lock[k := who], requests := s.requests[who := Request(Some(k), Missed)])
  {
    var s1 := Step(s, Arrive(who, Some(k)));
    var s2 := Step(s1, FirstLookup(who));
    assert s2 == s.(requests := s.requests[who := Request(Some(k), Waiting)]);
    var s3 := Step(s2, Acquire(who));
    assert s3 == s.(lock := s.lock[k := who], requests := s.requests[who := Request(Some(k), Holding)]);
  }

  // The rest of a visit.
  lemma VisitReturns(s: System, who: nat, k: string, outcome: Outcome)
    requires At(s, who, Missed) && s.requests[who].key == Some(k) && k in s.lock && s.lock[k] == who
    ensures var t := Step(Step(Step(s, Execute(who, outcome)), Store(who)), Abandon(who));
            && t.log == s.log + VisitLog(k, outcome) && t.lock == s.lock - {k}
            && t.requests.Keys == s.requests.Keys
            && t.cache == if outcome.Success? then CachePut(s.cache, Some(k), outcome.response) else s.cache
  {
    var s1 := Step(s, Execute(who, outcome));
    var s2 := Step(s1, Store(who));
    if outcome.Success? {
      assert s1 == Move(s.(log := s.log + [Ran(k)]), who, Stage.Executed(outcome.response));
      assert s2.log == s.log + VisitLog(k, outcome);
    } else {
      assert s2 == s1;
    }
  }

  lemma ExtendThrice(es: seq<Event>, a: Event, b: Event, c: Event)
    ensures After(es + [a, b, c]) == Step(Step(Step(After(es), a), b), c)
  {
    hide Step;
    Extend(es, a);
    Extend(es + [a], b);
    Extend(es + [a] + [b], c);
    assert es + [a] + [b] + [c] == es + [a, b, c];
  }

  /** A request whose body does not parse gets its error back, runs nothing, stores nothing
      and leaves nothing locked. */
  lemma RejectedVisit(es: seq<Event>, who: nat, k: string, error: Response)
    requires Idle(After(es), who, k)
    ensures var s, t := After(es), After(es + Coming(who, k) + [Reject(who, error)]);
            && t.log == s.log + [Replied(k, error, false)]
            && t.lock == s.lock && t.cache == s.cache && At(t, who, Finished)
  {
    ComingEffect(es, who, k);
    Extend(es + Coming(who, k), Reject(who, error));
    hide After, Coming;
  }

  // A whole visit from an idle state: its log, and nothing left behind but the cache.
  ghost predicate Visited(s: System, t: System, who: nat, k: string, outcome: Outcome) {
    && t.log == s.log + VisitLog(k, outcome) && t.lock == s.lock
    && t.requests.Keys == s.requests.Keys + {who}
    && t.cache == if outcome.Success? then CachePut(s.cache, Some(k), outcome.response) else s.cache
  }

  lemma ComingEffect(es: seq<Event>, who: nat, k: string)
    requires Idle(After(es), who, k)
    ensures var s := After(es);
            After(es + Coming(who, k))
            == s.(lock := s.lock[k := who], requests := s.requests[who := Request(Some(k), Missed)])
  {
    VisitMisses(After(es), who, k);
    hide Step, After;
    var three := [Arrive(who, Some(k)), FirstLookup(who), Acquire(who)];
    ExtendThrice(es, three[0], three[1], three[2]);
    Extend(es + three, Recheck(who));
    assert es + three + [Recheck(who)] == es + Coming(who, k);
  }

  lemma VisitEffect(es: seq<Event>, who: nat, k: string, outcome: Outcome)
    requires Idle(After(es), who, k)
    ensures Visited(After(es), After(es + Visit(who, k, outcome)), who, k, outcome)
  {
    ComingEffect(es, who, k);
    hide Step, After, VisitLog, Coming, CachePut;
    var inside := es + Coming(who, k);
    VisitReturns(After(inside), who, k, outcome);
    ExtendThrice(inside, Execute(who, outcome), Store(who), Abandon(who));
    var going := [Execute(who, outcome), Store(who), Abandon(who)];
    assert inside + going == es + (Coming(who, k) + going);
  }

  /** A reply that was not stored is forgotten: whatever a first request got back
      from a failed handler or as an oversize response, a second one with the same
      key executes again and may get anything. */
  lemma UnstoredReplyIsForgotten(k: string, first: Outcome, second: Outcome) returns (es: seq<Event>)
    requires first.Success? ==> !Storable(first.response)
    ensures After(es).log == VisitLog(k, first) + VisitLog(k, second)
    ensures ReplyPair(es, 2, 5)
    ensures After(es).log[2] == Replied(k, first.response, false) && After(es).log[5].response == second.response
  {
    hide After, VisitLog;
    Start();
    VisitEffect([], 0, k, first);
    var v := Visit(0, k, first);
    assert [] + v == v;
    VisitEffect(v, 1, k, second);
    es := v + Visit(1, k, second);
    assert [] + VisitLog(k, first) == VisitLog(k, first);
    TwoVisits(es, k, first, second);
  }

  lemma Start()
    ensures After([]) == START
  {
  }

  lemma TwoVisits(es: seq<Event>, k: string, first: Outcome, second: Outcome)
    requires After(es).log == VisitLog(k, first) + VisitLog(k, second)
    requires first.Success? ==> !Storable(first.response)
    ensures ReplyPair(es, 2, 5)
    ensures After(es).log[2] == Replied(k, first.response, false) && After(es).log[5].response == second.response
  {
    hide After;
  }

  // ---- the promise, reply by reply ----

  // The run has just given a reply.
  ghost predicate JustReplied(es: seq<Event>) {
    After(es).log != [] && After(es).log[|After(es).log| - 1].Replied?
  }

  /** A reply is the last thing its step logs, and is backed exactly if it was found in
      the cache, or came from a handler that succeeded with a body of at most 64 KiB;
      otherwise it is an oversize response or an error. */
  lemma BackedIff(s: System, e: Event)
    requires Step(s, e).log != s.log && Step(s, e).log[|Step(s, e).log| - 1].Replied?
    ensures var reply := Step(s, e).log[|Step(s, e).log| - 1];
            && (reply.backed <==> e.FirstLookup? || e.Recheck? || (e.Store? && |reply.response.body| <= 65536))
            && (!reply.backed <==> e.Reject? || (e.Execute? && e.outcome == Failure(reply.response))
                                   || (e.Store? && |reply.response.body| > 65536))
  {
  }

  lemma RepliesComeLast(s: System, e: Event, i: nat)
    requires |s.log| <= i < |Step(s, e).log| && Step(s, e).log[i].Replied?
    ensures i == |Step(s, e).log| - 1
  {
  }

  lemma StepExtendsLog(s: System, e: Event)
    ensures s.log <= Step(s, e).log
  {
  }

  lemma {:induction false} LogGrows(es: seq<Event>, fs: seq<Event>)
    ensures After(es).log <= After(es + fs).log
  {
    if fs == [] {
      assert es + fs == es;
    } else {
      hide Step;
      var n := |fs| - 1;
      LogGrows(es, fs[..n]);
      Extend(es + fs[..n], fs[n]);
      assert es + fs[..n] + [fs[n]] == es + fs;
      StepExtendsLog(After(es + fs[..n]), fs[n]);
    }
  }

  lemma FreshRequest(requests: map<nat, Request>) returns (who: nat)
    ensures who !in requests
  {
    who := 0;
    var rest := requests.Keys;
    while rest != {}
      invariant forall w :: w in requests && w !in rest ==> w < who
      decreases rest
    {
      var w :| w in rest;
      rest := rest - {w};
      who := if w < who then who else w + 1;
    }
  }

  // After an unbacked reply the key is not in the cache.
  lemma UnbackedMeansAbsent(es: seq<Event>)
    requires JustReplied(es) && !After(es).log[|After(es).log| - 1].backed
    ensures After(es).log[|After(es).log| - 1].key !in After(es).cache
  {
    hide After, Count;
    ReachableInv(es);
    var log, n := After(es).log, |After(es).log| - 1;
    CurrentAt(log, log[n].key, n);
    assert log[..n + 1] == log;
    assert Balanced(After(es), log[n].key);
  }

  // Whoever holds the key's lock returns; nothing is stored or evicted.
  lemma Unlock(es: seq<Event>, k: string) returns (fs: seq<Event>)
    ensures k !in After(es + fs).lock && After(es + fs).cache == After(es).cache
    ensures After(es).log <= After(es + fs).log
    ensures forall m :: |After(es).log| <= m < |After(es + fs).log| ==> !After(es + fs).log[m].Evicted?
  {
    ReachableInv(es);
    hide LogOk, Balanced, MissOk;
    fs := [];
    assert es + [] == es;
    var s := After(es);
    if k in s.lock {
      fs := [Abandon(s.lock[k])];
      Extend(es, Abandon(s.lock[k]));
    }
  }

  /** An unbacked reply binds nothing: on every run that has just given one, and for
      every outcome, the next request with the key can come back with that outcome, with
      no eviction between the two replies. */
  lemma UnbackedReplyBindsNothing(es: seq<Event>, outcome: Outcome) returns (fs: seq<Event>, j: nat)
    requires JustReplied(es) && !After(es).log[|After(es).log| - 1].backed
    ensures ReplyPair(es + fs, |After(es).log| - 1, j)
    ensures After(es + fs).log[j].response == outcome.response
  {
    var n := |After(es).log| - 1;
    var k := After(es).log[n].key;
    UnbackedMeansAbsent(es);
    hide After, VisitLog, ReplyPair;
    var gs := Unlock(es, k);
    fs := VisitNext(es, gs, k, outcome);
    j := |After(es + gs).log| + 2;
    VisitPair(es, gs, fs, k, outcome);
  }

  lemma VisitNext(es: seq<Event>, gs: seq<Event>, k: string, outcome: Outcome) returns (fs: seq<Event>)
    requires k !in After(es + gs).cache && k !in After(es + gs).lock
    ensures After(es + fs).log == After(es + gs).log + VisitLog(k, outcome)
  {
    hide After, VisitLog;
    var who := FreshRequest(After(es + gs).requests);
    VisitEffect(es + gs, who, k, outcome);
    hide Visit;
    fs := gs + Visit(who, k, outcome);
    assert es + gs + Visit(who, k, outcome) == es + fs;
  }

  lemma VisitPair(es: seq<Event>, gs: seq<Event>, fs: seq<Event>, k: string, outcome: Outcome)
    requires JustReplied(es) && After(es).log[|After(es).log| - 1].key == k
    requires After(es).log <= After(es + gs).log
    requires forall m :: |After(es).log| <= m < |After(es + gs).log| ==> !After(es + gs).log[m].Evicted?
    requires After(es + fs).log == After(es + gs).log + VisitLog(k, outcome)
    ensures var j := |After(es + gs).log| + 2;
            ReplyPair(es + fs, |After(es).log| - 1, j) && After(es + fs).log[j].response == outcome.response
  {
    hide After;
  }

  /** The promise of identical replies, exactly, for each reply that any run gives: all
      later replies for the key before its next eviction are the same, on every
      continuation, if and only if the reply is backed. */
  lemma ReplyBindsIffBacked(es: seq<Event>)
    requires JustReplied(es)
    ensures var n := |After(es).log| - 1;
            After(es).log[n].backed
            <==> forall fs, j: nat :: ReplyPair(es + fs, n, j)
                                      ==> After(es + fs).log[j].response == After(es).log[n].response
  {
    hide After;
    var n := |After(es).log| - 1;
    var reply := After(es).log[n];
    if reply.backed {
      forall fs, j: nat | ReplyPair(es + fs, n, j)
        ensures After(es + fs).log[j].response == reply.response
      {
        LogGrows(es, fs);
        RepliesAreIdentical(es + fs, n, j);
      }
    } else {
      var other := Response(reply.response.status + 1, "", []);
      var fs, j := UnbackedReplyBindsNothing(es, Success(other));
      assert ReplyPair(es + fs, n, j) && After(es + fs).log[j].response != reply.response;
    }
  }
}
