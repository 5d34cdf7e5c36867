/** The single-flight laws over every interleaving. */
module SingleFlight {
  import opened Common
  import opened Idempotency

  // ---- moving one request ----

  // A step that only moves a request, keeping lock ownership in line with its stage.
  lemma Moved(s: System, t: System, who: nat)
    requires Inv(s) && who in s.requests && who in t.requests
    requires t.cache == s.cache && t.log == s.log
    requires t.requests == s.requests[who := s.requests[who].(stage := t.requests[who].stage)]
    requires LockOk(t)
    requires !s.requests[who].stage.Executed? && !t.requests[who].stage.Executed?
    requires t.requests[who].stage.Missed? ==> s.requests[who].stage.Missed? || !Hit(s, who)
    ensures Inv(t)
  {
    hide LogOk, Count, Current;
    forall k ensures Balanced(t, k) {
      assert Balanced(s, k);
      SamePending(s, t, who, k);
      SamePending(t, s, who, k);
    }
  }

  lemma SamePending(s: System, t: System, who: nat, k: string)
    requires LockOk(s) && LockOk(t) && who in s.requests && !s.requests[who].stage.Executed?
    requires forall w :: w in s.requests && w != who ==> w in t.requests && t.requests[w] == s.requests[w]
    ensures Pending(s, k) ==> Pending(t, k)
  {
    if Pending(s, k) {
      var w := s.lock[k];
      assert t.requests[w] == s.requests[w];
    }
  }

  lemma LeaveKeepsLocks(s: System, who: nat)
    requires LockOk(s) && who in s.requests
    ensures LockOk(Leave(s, who))
    ensures forall k :: k in Leave(s, who).lock ==> k in s.lock && Leave(s, who).lock[k] == s.lock[k] != who
    ensures forall k :: k in s.lock && s.lock[k] != who ==> k in Leave(s, who).lock
  {
  }

  lemma LeaveKeepsInv(s: System, who: nat)
    requires Inv(s) && who in s.requests && !s.requests[who].stage.Executed?
    ensures Inv(Leave(s, who))
  {
    LeaveKeepsLocks(s, who);
    hide LogOk, Balanced;
    Moved(s, Leave(s, who), who);
  }

  // ---- writing to the log ----

  lemma ReplyKeepsInv(s: System, k: string, r: Response, backed: bool)
    requires Inv(s) && CacheGet(s.cache, Some(k)) == if backed then Some(r) else None
    ensures Inv(s.(log := s.log + [Replied(k, r, backed)]))
  {
    hide LogOk, Count, Current;
    var e := Replied(k, r, backed);
    var t := s.(log := s.log + [e]);
    assert Balanced(s, k);
    LogNext(s.log, e);
    forall j ensures Balanced(t, j) {
      assert Balanced(s, j);
      CountNext(s.log, e, j);
    }
  }

  lemma ReplayKeepsInv(s: System, who: nat)
    requires Inv(s) && who in s.requests && Hit(s, who) && !s.requests[who].stage.Executed?
    ensures Inv(Replay(s, who))
  {
    hide Inv;
    LeaveKeepsInv(s, who);
    var k := s.requests[who].key.value;
    ReplyKeepsInv(Leave(s, who), k, s.cache[k], true);
  }

  lemma UnbackedKeepsInv(s: System, key: Option<string>, r: Response)
    requires Inv(s) && CacheGet(s.cache, key) == None
    ensures Inv(Unbacked(s, key, r))
  {
    if key.Some? {
      ReplyKeepsInv(s, key.value, r, false);
    }
  }

  // Between a miss and the store the key is not in the cache.
  lemma MissedMeansAbsent(s: System, who: nat)
    requires Inv(s) && who in s.requests && (s.requests[who].stage.Missed? || s.requests[who].stage.Executed?)
    ensures CacheGet(s.cache, s.requests[who].key) == None
  {
  }

  lemma RejectKeepsInv(s: System, who: nat, error: Response)
    requires Inv(s) && At(s, who, Missed)
    ensures Inv(Step(s, Reject(who, error)))
  {
    MissedMeansAbsent(s, who);
    hide Inv;
    LeaveKeepsInv(s, who);
    UnbackedKeepsInv(Leave(s, who), s.requests[who].key, error);
  }

  lemma ExecuteOkKeepsInv(s: System, who: nat, r: Response)
    requires Inv(s) && At(s, who, Missed)
    ensures Inv(Step(s, Execute(who, Success(r))))
  {
    hide LogOk, Count, Current;
    var key, t := s.requests[who].key, Step(s, Execute(who, Success(r)));
    if key.Some? {
      var e := Ran(key.value);
      LogNext(s.log, e);
      forall k ensures Balanced(t, k) {
        assert Balanced(s, k);
        CountNext(s.log, e, k);
        assert Pending(t, k) == (Pending(s, k) || k == key.value);
        assert k == key.value ==> !Pending(s, k);
      }
    } else {
      forall k ensures Balanced(t, k) {
        assert Balanced(s, k);
        assert Pending(t, k) == Pending(s, k);
      }
    }
  }

  // Giving up an executed response: it is dropped and the lock is released.
  lemma GiveUpKeepsInv(s: System, who: nat)
    requires Inv(s) && who in s.requests && s.requests[who].stage.Executed?
    ensures Inv(Leave(Note(s, s.requests[who].key, k => Dropped(k)), who))
  {
    hide LogOk, Count, Current;
    var key := s.requests[who].key;
    var noted := Note(s, key, k => Dropped(k));
    var t := Leave(noted, who);
    assert LockOk(noted) && MissOk(t);
    LeaveKeepsLocks(noted, who);
    if key.Some? {
      var e := Dropped(key.value);
      LogNext(s.log, e);
      forall k ensures Balanced(t, k) {
        assert Balanced(s, k);
        CountNext(s.log, e, k);
        assert Pending(t, k) == (Pending(s, k) && k != key.value);
        assert k == key.value ==> Pending(s, k);
      }
    } else {
      forall k ensures Balanced(t, k) {
        assert Balanced(s, k);
        assert Pending(t, k) == Pending(s, k);
      }
    }
  }

  lemma ExecuteFailKeepsInv(s: System, who: nat, r: Response)
    requires Inv(s) && At(s, who, Missed)
    ensures Inv(Step(s, Execute(who, Failure(r))))
  {
    MissedMeansAbsent(s, who);
    ExecuteOkKeepsInv(s, who, r);
    hide Inv;
    var key, mid := s.requests[who].key, Step(s, Execute(who, Success(r)));
    GiveUpKeepsInv(mid, who);
    var left := Leave(Note(mid, key, k => Dropped(k)), who);
    assert left == Leave(Note(Note(s, key, k => Ran(k)), key, k => Dropped(k)), who);
    UnbackedKeepsInv(left, key, r);
  }

  // Moving on without having stored: the response is dropped.
  lemma DropKeepsInv(s: System, who: nat)
    requires Inv(s) && who in s.requests && s.requests[who].stage.Executed?
    ensures Inv(Note(Move(s, who, Stored), s.requests[who].key, k => Dropped(k)))
  {
    hide LogOk, Count, Current;
    var key := s.requests[who].key;
    var t := Note(Move(s, who, Stored), key, k => Dropped(k));
    if key.Some? {
      var e := Dropped(key.value);
      LogNext(s.log, e);
      forall k ensures Balanced(t, k) {
        assert Balanced(s, k);
        CountNext(s.log, e, k);
        assert Pending(t, k) == (Pending(s, k) && k != key.value);
        assert k == key.value ==> Pending(s, k);
      }
    } else {
      forall k ensures Balanced(t, k) {
        assert Balanced(s, k);
        assert Pending(t, k) == Pending(s, k);
      }
    }
  }

  lemma StoreDropKeepsInv(s: System, who: nat)
    requires Inv(s) && who in s.requests && s.requests[who].stage.Executed?
    requires s.requests[who].key.Some? ==> !Storable(s.requests[who].stage.response)
    ensures Inv(Step(s, Store(who)))
  {
    MissedMeansAbsent(s, who);
    hide Inv;
    var key, r := s.requests[who].key, s.requests[who].stage.response;
    DropKeepsInv(s, who);
    UnbackedKeepsInv(Note(Move(s, who, Stored), key, k => Dropped(k)), key, r);
  }

  lemma StoreKeepKeepsInv(s: System, who: nat)
    requires Inv(s) && who in s.requests && s.requests[who].stage.Executed?
    requires s.requests[who].key.Some? && Storable(s.requests[who].stage.response)
    ensures Inv(Step(s, Store(who)))
  {
    hide LogOk, Count, Current;
    var key, r := s.requests[who].key.value, s.requests[who].stage.response;
    var t := Step(s, Store(who));
    var kept, replied := Kept(key, r), Replied(key, r, true);
    var mid := s.log + [kept];
    assert Balanced(s, key);
    LogNext(s.log, kept);
    CountNext(s.log, kept, key);
    LogNext(mid, replied);
    assert t.log == mid + [replied];
    forall k ensures Balanced(t, k) {
      assert Balanced(s, k);
      CountNext(s.log, kept, k);
      CountNext(mid, replied, k);
      assert Pending(t, k) == (Pending(s, k) && k != key);
      assert k == key ==> Pending(s, k);
    }
    forall w | w in t.requests && t.requests[w].key.Some?
               && (t.requests[w].stage.Missed? || t.requests[w].stage.Executed?)
      ensures t.requests[w].key.value !in t.cache
    {
      assert w != who && s.requests[w] == t.requests[w];
      assert s.lock[s.requests[w].key.value] == w;
    }
  }

  lemma EvictKeepsInv(s: System, key: string)
    requires Inv(s) && key in s.cache
    ensures Inv(Step(s, Evict(key)))
  {
    hide LogOk, Count, Current;
    var t, e := Step(s, Evict(key)), Evicted(key);
    LogNext(s.log, e);
    forall k ensures Balanced(t, k) {
      assert Balanced(s, k);
      CountNext(s.log, e, k);
      assert Pending(t, k) == Pending(s, k);
    }
  }

  lemma ArriveKeepsInv(s: System, who: nat, key: Option<string>)
    requires Inv(s) && who !in s.requests
    ensures Inv(Step(s, Arrive(who, key)))
  {
    hide LogOk;
    var t := Step(s, Arrive(who, key));
    forall k ensures Balanced(t, k) {
      assert Balanced(s, k);
      assert Pending(t, k) == Pending(s, k);
    }
  }

  lemma AcquireKeepsInv(s: System, who: nat)
    requires Inv(s)
    ensures Inv(Step(s, Acquire(who)))
  {
    hide LogOk, Balanced;
    var t := Step(s, Acquire(who));
    if t != s {
      Moved(s, t, who);
    }
  }

  lemma StepKeepsInv(s: System, e: Event)
    requires Inv(s)
    ensures Inv(Step(s, e))
  {
    hide LogOk, Balanced;
    match e
    case Arrive(who, key) => if who !in s.requests { ArriveKeepsInv(s, who, key); }
    case FirstLookup(who) =>
      if At(s, who, Arrived) {
        if Hit(s, who) { ReplayKeepsInv(s, who); } else { Moved(s, Step(s, e), who); }
      }
    case Acquire(who) => AcquireKeepsInv(s, who);
    case Recheck(who) =>
      if At(s, who, Holding) {
        if Hit(s, who) { ReplayKeepsInv(s, who); } else { Moved(s, Step(s, e), who); }
      }
    case Reject(who, error) => if At(s, who, Missed) { RejectKeepsInv(s, who, error); }
    case Execute(who, outcome) =>
      if At(s, who, Missed) {
        var r := outcome.response;
        if outcome.Success? { ExecuteOkKeepsInv(s, who, r); } else { ExecuteFailKeepsInv(s, who, r); }
      }
    case Store(who) =>
      if who in s.requests && s.requests[who].stage.Executed? {
        if s.requests[who].key.Some? && Storable(s.requests[who].stage.response) {
          StoreKeepKeepsInv(s, who);
        } else {
          StoreDropKeepsInv(s, who);
        }
      }
    case Abandon(who) =>
      if who in s.requests {
        if s.requests[who].stage.Executed? { GiveUpKeepsInv(s, who); } else { LeaveKeepsInv(s, who); }
      }
    case Evict(key) => if key in s.cache { EvictKeepsInv(s, key); }
  }

  lemma {:induction false} ReachableInv(es: seq<Event>)
    ensures Inv(After(es))
  {
    if es == [] {
      forall k ensures Balanced(START, k) {
      }
    } else {
      ReachableInv(es[..|es| - 1]);
      StepKeepsInv(After(es[..|es| - 1]), es[|es| - 1]);
    }
  }

  predicate InsideFor(s: System, w: nat, k: string) {
    w in s.requests && s.requests[w].key == Some(k) && Inside(s.requests[w].stage)
  }

  /** Single flight: however many requests with one composite key interleave, and
      whatever the cache evicts, the handler runs at most once, plus once for each
      eviction of that key and each execution whose response was not stored. The
      count is exact, and at most one request is ever inside the handler. */
  lemma SingleFlight(es: seq<Event>, k: string)
    ensures var s := After(es);
            && Count(s.log, k, RAN)
               == Count(s.log, k, EVICTED) + Count(s.log, k, DROPPED) + Bit(k in s.cache) + Bit(Pending(s, k))
            && Count(s.log, k, RAN) <= 1 + Count(s.log, k, EVICTED) + Count(s.log, k, DROPPED)
            && (forall v, w :: InsideFor(s, v, k) && InsideFor(s, w, k) ==> v == w)
  {
    ReachableInv(es);
    var s := After(es);
    assert Balanced(s, k);
  }
}
