/** The idempotency cache: composite keys, and the single-flight protocol that any
    number of concurrent requests follow around it. */
module Idempotency {
  import opened Common

  datatype Response = Response(status: nat, contentType: string, body: seq<bv8>)

  const MAX_CACHED_BODY: nat := 65536

  // ---- keys ----

  predicate Blank(c: char) { c == ' ' || c == '\t' }

  function TrimStart(s: string): string { if s != [] && Blank(s[0]) then TrimStart(s[1..]) else s }

  function TrimEnd(s: string): string { if s != [] && Blank(s[|s| - 1]) then TrimEnd(s[..|s| - 1]) else s }

  function Trim(s: string): string { TrimEnd(TrimStart(s)) }

  ghost predicate AllBlank(s: string) { forall c :: c in s ==> c == ' ' || c == '\t' }

  lemma {:induction false} TrimStartMeaning(s: string) returns (n: nat)
    ensures n <= |s| && TrimStart(s) == s[n..] && AllBlank(s[..n])
    ensures n < |s| ==> !Blank(s[n])
  {
    n := 0;
    if s != [] && Blank(s[0]) {
      var k := TrimStartMeaning(s[1..]);
      n := k + 1;
      assert s[1..][k..] == s[n..] && s[..n] == [s[0]] + s[1..][..k];
    }
  }

  lemma {:induction false} TrimEndMeaning(s: string) returns (n: nat)
    ensures n <= |s| && TrimEnd(s) == s[..n] && AllBlank(s[n..])
    ensures n > 0 ==> !Blank(s[n - 1])
  {
    n := |s|;
    if s != [] && Blank(s[|s| - 1]) {
      n := TrimEndMeaning(s[..|s| - 1]);
      assert s[..|s| - 1][..n] == s[..n] && s[n..] == s[..|s| - 1][n..] + [s[|s| - 1]];
    }
  }

  /** Trimming removes blanks at both ends and nothing else. */
  lemma TrimMeaning(s: string) returns (i: nat, j: nat)
    ensures i <= j <= |s| && Trim(s) == s[i..j] && AllBlank(s[..i]) && AllBlank(s[j..])
    ensures i < j ==> s[i] != ' ' && s[i] != '\t' && s[j - 1] != ' ' && s[j - 1] != '\t'
  {
    i := TrimStartMeaning(s);
    var n := TrimEndMeaning(s[i..]);
    j := i + n;
    assert s[i..][..n] == s[i..j] && s[i..][n..] == s[j..];
  }

  // `digest` is the hexadecimal hash of the request body.
  function MakeKey(key: string, digest: string): string { key + ":" + digest }

  function HeaderKey(header: Option<string>, digest: string): Option<string> {
    if header.None? || Trim(header.value) == "" then None else Some(MakeKey(Trim(header.value), digest))
  }

  // Two requests that the cache must not tell apart.
  predicate SameRequest(h: Option<string>, d: string, h': Option<string>, d': string) {
    h.Some? && h'.Some? && Trim(h.value) == Trim(h'.value) != "" && d == d'
  }

  /** Digests have one length, so two requests share a composite key exactly when
      they carry the same key up to blanks and bodies of equal digest, whatever
      characters the keys contain. */
  lemma KeysMatchExactly(h: Option<string>, d: string, h': Option<string>, d': string)
    requires |d| == |d'|
    ensures HeaderKey(h, d).Some? && HeaderKey(h, d) == HeaderKey(h', d') <==> SameRequest(h, d, h', d')
    ensures h.Some? && Trim(h.value) != "" ==> HeaderKey(h, d) == Some(Trim(h.value) + ":" + d)
  {
    if HeaderKey(h, d).Some? && HeaderKey(h, d) == HeaderKey(h', d') {
      var k, a, b := HeaderKey(h, d).value, Trim(h.value), Trim(h'.value);
      assert k[|k| - |d|..] == d && k[|k| - |d|..] == d';
      assert k[..|k| - |d| - 1] == a && k[..|k| - |d| - 1] == b;
    }
  }

  // ---- the cache ----

  predicate Storable(r: Response) { |r.body| <= MAX_CACHED_BODY }

  function CacheGet(cache: map<string, Response>, key: Option<string>): Option<Response> {
    if key.Some? && key.value in cache then Some(cache[key.value]) else None
  }

  function CachePut(cache: map<string, Response>, key: Option<string>, r: Response): map<string, Response> {
    if key.Some? && Storable(r) then cache[key.value := r] else cache
  }

  /** Round trip: after a store, exactly the requests with the same trimmed key and
      the same digest get the response back, provided it was small enough to keep;
      every other request gets what it got before. */
  lemma StoreThenLookup(cache: map<string, Response>, h: Option<string>, d: string, r: Response,
                        h': Option<string>, d': string)
    requires |d| == |d'|
    ensures CacheGet(CachePut(cache, HeaderKey(h, d), r), HeaderKey(h', d'))
         == if SameRequest(h, d, h', d') && |r.body| <= 65536 then Some(r) else CacheGet(cache, HeaderKey(h', d'))
  {
    KeysMatchExactly(h, d, h', d');
  }

  /** The cache object. */
  class Cache {
    var entries: map<string, Response>

    constructor ()
      ensures entries == map[]
    {
      entries := map[];
    }

    method Lookup(header: Option<string>, digest: string) returns (hit: Option<Response>)
      ensures hit == CacheGet(entries, HeaderKey(header, digest))
    {
      var key := HeaderKey(header, digest);
      hit := if key.Some? && key.value in entries then Some(entries[key.value]) else None;
    }

    method Store(header: Option<string>, digest: string, response: Response)
      modifies this
      ensures entries == CachePut(old(entries), HeaderKey(header, digest), response)
      ensures forall h, d :: |d| == |digest|
                             ==> CacheGet(entries, HeaderKey(h, d))
                                 == if SameRequest(header, digest, h, d) && |response.body| <= 65536 then Some(response)
                                    else CacheGet(old(entries), HeaderKey(h, d))
    {
      forall h, d | |d| == |digest|
        ensures CacheGet(CachePut(entries, HeaderKey(header, digest), response), HeaderKey(h, d))
             == if SameRequest(header, digest, h, d) && |response.body| <= 65536 then Some(response)
                else CacheGet(entries, HeaderKey(h, d))
      {
        StoreThenLookup(entries, header, digest, response, h, d);
      }
      var key := HeaderKey(header, digest);
      if key.None? {
        return;
      }
      if |response.body| > MAX_CACHED_BODY {
        return;
      }
      entries := entries[key.value := response];
    }
  }

  // ---- the protocol ----

  // Where a request stands. `Holding` .. `Stored` are inside the per-key lock.
  datatype Stage =
    | Arrived
    | Waiting
    | Holding
    | Missed
    | Executed(response: Response)
    | Stored
    | Finished

  // A request without a usable header has no key and takes part in nothing shared.
  datatype Request = Request(key: Option<string>, stage: Stage)

  // What the handler came back with: a response to store and return, or an error to
  // return.
  datatype Outcome = Success(response: Response) | Failure(response: Response)

  // A reply is logged when its content is settled. It is backed if the cache holds
  // that content at that moment: it was replayed from there or just stored.
  datatype Entry =
    | Ran(key: string)
    | Kept(key: string, response: Response)
    | Dropped(key: string)                     // executed, but the response was not stored
    | Evicted(key: string)
    | Replied(key: string, response: Response, backed: bool)

  datatype System = System(
    cache: map<string, Response>,
    lock: map<string, nat>,
    requests: map<nat, Request>,
    log: seq<Entry>)

  datatype Event =
    | Arrive(who: nat, key: Option<string>)
    | FirstLookup(who: nat)
    | Acquire(who: nat)
    | Recheck(who: nat)
    | Reject(who: nat, error: Response)             // the body does not parse
    | Execute(who: nat, outcome: Outcome)
    | Store(who: nat)
    | Abandon(who: nat)                             // return, or the client went away
    | Evict(victim: string)

  const START := System(map[], map[], map[], [])

  predicate At(s: System, who: nat, stage: Stage) { who in s.requests && s.requests[who].stage == stage }

  function Move(s: System, who: nat, stage: Stage): System
    requires who in s.requests
  {
    s.(requests := s.requests[who := s.requests[who].(stage := stage)])
  }

  // Leaving the handler drops the lock guard, if there is one.
  function Leave(s: System, who: nat): System
    requires who in s.requests
  {
    var key := s.requests[who].key;
    var t := Move(s, who, Finished);
    if key.Some? && key.value in s.lock && s.lock[key.value] == who then t.(lock := s.lock - {key.value}) else t
  }

  function Note(s: System, key: Option<string>, e: string -> Entry): System {
    if key.Some? then s.(log := s.log + [e(key.value)]) else s
  }

  predicate Hit(s: System, who: nat)
    requires who in s.requests
  {
    CacheGet(s.cache, s.requests[who].key).Some?
  }

  function Replay(s: System, who: nat): System
    requires who in s.requests && Hit(s, who)
  {
    var k := s.requests[who].key.value;
    Leave(s, who).(log := s.log + [Replied(k, s.cache[k], true)])
  }

  // An answer that the cache knows nothing of.
  function Unbacked(s: System, key: Option<string>, r: Response): System { Note(s, key, k => Replied(k, r, false)) }

  function Step(s: System, e: Event): System {
    match e
    case Arrive(who, key) => if who in s.requests then s else s.(requests := s.requests[who := Request(key, Arrived)])
    case FirstLookup(who) =>
      if !At(s, who, Arrived) then s else if Hit(s, who) then Replay(s, who) else Move(s, who, Waiting)
    case Acquire(who) =>
      if !At(s, who, Waiting) then s
      else var key := s.requests[who].key;
           if key.None? then Move(s, who, Holding)
           else if key.value in s.lock then s
           else Move(s, who, Holding).(lock := s.lock[key.value := who])
    case Recheck(who) =>
      if !At(s, who, Holding) then s else if Hit(s, who) then Replay(s, who) else Move(s, who, Missed)
    case Reject(who, error) =>
      if At(s, who, Missed) then Unbacked(Leave(s, who), s.requests[who].key, error) else s
    case Execute(who, outcome) =>
      if !At(s, who, Missed) then s
      else var key := s.requests[who].key;
           var ran := Note(s, key, k => Ran(k));
           if outcome.Success? then Move(ran, who, Stage.Executed(outcome.response))
           else Unbacked(Leave(Note(ran, key, k => Dropped(k)), who), key, outcome.response)
    case Store(who) =>
      if who in s.requests && s.requests[who].stage.Executed? then
        var key, r := s.requests[who].key, s.requests[who].stage.response;
        var t := Move(s, who, Stored).(cache := CachePut(s.cache, key, r));
        if key.None? then t
        else if Storable(r) then t.(log := s.log + [Kept(key.value, r), Replied(key.value, r, true)])
        else Unbacked(Note(t, key, k => Dropped(k)), key, r)
      else s
    case Abandon(who) =>
      if who !in s.requests then s
      else if s.requests[who].stage.Executed? then Leave(Note(s, s.requests[who].key, k => Dropped(k)), who)
      else Leave(s, who)
    case Evict(key) =>
      if key in s.cache then s.(cache := s.cache - {key}, log := s.log + [Evicted(key)]) else s
  }

  function After(es: seq<Event>): System {
    if es == [] then START else Step(After(es[..|es| - 1]), es[|es| - 1])
  }

  // ---- accounting ----

  datatype Kind = RAN | KEPT | DROPPED | EVICTED

  predicate IsKind(e: Entry, k: string, kind: Kind) {
    e.key == k && match kind
                  case RAN => e.Ran?
                  case KEPT => e.Kept?
                  case DROPPED => e.Dropped?
                  case EVICTED => e.Evicted?
  }

  function Count(log: seq<Entry>, k: string, kind: Kind): nat {
    if log == [] then 0
    else Count(log[..|log| - 1], k, kind) + (if IsKind(log[|log| - 1], k, kind) then 1 else 0)
  }

  // What the cache would answer, read off the log.
  function Current(log: seq<Entry>, k: string): Option<Response> {
    if log == [] then None
    else var e := log[|log| - 1];
         if e.key == k && e.Kept? then Some(e.response)
         else if e.key == k && e.Evicted? then None
         else Current(log[..|log| - 1], k)
  }

  predicate Inside(stage: Stage) { stage.Holding? || stage.Missed? || stage.Executed? || stage.Stored? }

  // A request of key k is between executing and storing.
  predicate Pending(s: System, k: string) {
    k in s.lock && s.lock[k] in s.requests && s.requests[s.lock[k]].stage.Executed?
  }

  function Bit(b: bool): nat { if b then 1 else 0 }

  ghost predicate LockOk(s: System) {
    && (forall k :: k in s.lock ==> s.lock[k] in s.requests && s.requests[s.lock[k]].key == Some(k)
                                    && Inside(s.requests[s.lock[k]].stage))
    && (forall w :: w in s.requests && s.requests[w].key.Some? && Inside(s.requests[w].stage) ==>
          s.requests[w].key.value in s.lock && s.lock[s.requests[w].key.value] == w)
  }

  ghost predicate MissOk(s: System) {
    forall w :: w in s.requests && s.requests[w].key.Some?
                && (s.requests[w].stage.Missed? || s.requests[w].stage.Executed?)
                ==> s.requests[w].key.value !in s.cache
  }

  // Every execution is accounted for.
  ghost predicate Balanced(s: System, k: string) {
    && Count(s.log, k, RAN) == Count(s.log, k, KEPT) + Count(s.log, k, DROPPED) + Bit(Pending(s, k))
    && Count(s.log, k, KEPT) == Count(s.log, k, EVICTED) + Bit(k in s.cache)
    && Current(s.log, k) == (if k in s.cache then Some(s.cache[k]) else None)
  }

  // An entry is truthful given what the cache would have answered: a backed reply
  // repeats it, everything else that concerns responses happens on a miss.
  predicate Truthful(e: Entry, current: Option<Response>) {
    && (e.Replied? ==> current == if e.backed then Some(e.response) else None)
    && (e.Kept? ==> current == None)
  }

  // Each entry of the log was truthful when it was written.
  ghost predicate LogOk(log: seq<Entry>) {
    forall i :: 0 <= i < |log| ==>
      Truthful(log[i], Current(log[..i], log[i].key))
  }

  ghost predicate Inv(s: System) {
    LockOk(s) && MissOk(s) && (forall k :: Balanced(s, k)) && LogOk(s.log)
  }

  lemma CountNext(log: seq<Entry>, e: Entry, k: string)
    ensures forall kind :: Count(log + [e], k, kind) == Count(log, k, kind) + Bit(IsKind(e, k, kind))
    ensures Current(log + [e], k) == if e.key == k && e.Kept? then Some(e.response)
                                     else if e.key == k && e.Evicted? then None else Current(log, k)
  {
    assert (log + [e])[..|log|] == log;
  }

  lemma LogNext(log: seq<Entry>, e: Entry)
    requires LogOk(log) && Truthful(e, Current(log, e.key))
    ensures LogOk(log + [e])
  {
    var log' := log + [e];
    forall i | 0 <= i < |log'| ensures Truthful(log'[i], Current(log'[..i], log'[i].key)) {
      assert log'[..i] == log[..i];
    }
  }
}
