/** Any number of dispatch workers, the enqueuers and the purge job working on one
    delivery table, interleaved arbitrarily. */
module DeliveryProtocol {
  import opened Common
  import opened Deliveries

  // `held` is what each busy worker claimed; `claims` and `marks` are the times at
  // which each row was claimed and marked; `gone` lists the purged rows.
  datatype System = System(
    rows: seq<Delivery>,
    nextId: nat,
    held: map<nat, Delivery>,
    claims: map<nat, seq<int>>,
    marks: map<nat, seq<int>>,
    gone: seq<Delivery>)

  datatype Event =
    | Enqueue(now: int)
    | Claim(worker: nat, id: nat, now: int)
    | Finish(worker: nat, error: Option<string>, now: int)
    | Crash(worker: nat, now: int)      // also a mark that storage refused
    | Purge(cutoff: int, now: int)

  function Expireds(rows: seq<Delivery>, cutoff: int): seq<Delivery> {
    if rows == [] then []
    else var rest, d := Expireds(rows[..|rows| - 1], cutoff), rows[|rows| - 1];
         if Expired(d, cutoff) then rest + [d] else rest
  }

  function TimesOf(log: map<nat, seq<int>>, id: nat): seq<int> { if id in log then log[id] else [] }

  function Step(s: System, e: Event, duckDb: bool): System {
    match e
    case Enqueue(now) =>
      s.(rows := s.rows + [Delivery(s.nextId, Pending, 0, None, now, None, Some(now))], nextId := s.nextId + 1)
    case Claim(w, id, now) =>
      if w !in s.held && CanClaim(s.rows, id, now) then
        s.(rows := ClaimRow(s.rows, id, now),
           held := s.held[w := s.rows[Find(s.rows, id)].(status := Claimed)],
           claims := s.claims[id := TimesOf(s.claims, id) + [now]])
      else s
    case Finish(w, error, now) =>
      if w in s.held then
        var d := s.held[w];
        s.(rows := MarkRow(s.rows, d.id, Result(d, error), error, now, duckDb),
           held := s.held - {w},
           marks := s.marks[d.id := TimesOf(s.marks, d.id) + [now]])
      else s
    case Crash(w, _) => s.(held := s.held - {w})
    case Purge(cutoff, _) => s.(rows := Purged(s.rows, cutoff), gone := s.gone + Expireds(s.rows, cutoff))
  }

  const START := System([], 0, map[], map[], map[], [])

  function After(es: seq<Event>, duckDb: bool): System {
    if es == [] then START else Step(After(es[..|es| - 1], duckDb), es[|es| - 1], duckDb)
  }

  // ---- one row ----

  // The k-th retry waited out its backoff.
  ghost predicate Spaced(claims: seq<int>, marks: seq<int>) {
    forall k :: 1 <= k < |claims| && k <= |marks| ==> claims[k] >= marks[k - 1] + Backoff(k)
  }

  predicate StatusOk(d: Delivery, marks: seq<int>)
    requires |marks| == d.attempts
  {
    && (d.status == Pending ==> d.attempts == 0 && d.sentAt.None? && d.lastError.None?
                                && d.nextAttemptAt == Some(d.createdAt))
    && (d.status == Claimed ==> d.attempts <= 6 && d.sentAt.None?)
    && (d.status == Failed ==> 1 <= d.attempts <= 6 && d.sentAt.None? && d.lastError.Some?
                               && d.nextAttemptAt == Some(marks[|marks| - 1] + Backoff(d.attempts)))
    && (d.status == Sent ==> 1 <= d.attempts <= 7 && d.sentAt == Some(marks[|marks| - 1])
                             && d.nextAttemptAt.None? && d.lastError.None?)
    && (d.status == DeadLetter ==> d.attempts == 7 && d.sentAt.None? && d.nextAttemptAt.None? && d.lastError.Some?)
  }

  ghost predicate RowOk(d: Delivery, claims: seq<int>, marks: seq<int>) {
    && |marks| == d.attempts
    && |claims| == d.attempts + (if d.status == Claimed then 1 else 0)
    && StatusOk(d, marks)
    && Spaced(claims, marks)
  }

  lemma ClaimKeepsRowOk(d: Delivery, claims: seq<int>, marks: seq<int>, now: int)
    requires RowOk(d, claims, marks) && Claimable(d, now)
    ensures RowOk(d.(status := Claimed), claims + [now], marks) && |claims| == |marks| <= 6
  {
  }

  lemma MarkKeepsRowOk(d: Delivery, claims: seq<int>, marks: seq<int>, error: Option<string>, now: int)
    requires RowOk(d, claims, marks) && d.status == Claimed
    ensures RowOk(MarkInMemory(d, Result(d, error), error, now), claims, marks + [now])
    ensures MarkInMemory(d, Result(d, error), error, now) == MarkInDuckDb(d, Result(d, error), error, now)
  {
    MarksAgreeIff(d, Result(d, error), error, now);
  }

  // ---- the whole system ----

  ghost predicate DistinctIds(rows: seq<Delivery>) {
    forall i, j :: 0 <= i < j < |rows| ==> rows[i].id != rows[j].id
  }

  ghost predicate Rows(s: System, rows: seq<Delivery>) {
    forall i :: 0 <= i < |rows| ==>
      rows[i].id < s.nextId && RowOk(rows[i], TimesOf(s.claims, rows[i].id), TimesOf(s.marks, rows[i].id))
  }

  // Each busy worker holds a claimed row of the table, and no two hold the same.
  ghost predicate Holders(s: System) {
    && (forall w :: w in s.held ==> s.held[w].status == Claimed && s.held[w] in s.rows)
    && (forall w, v :: w in s.held && v in s.held && s.held[w].id == s.held[v].id ==> w == v)
  }

  ghost predicate Inv(s: System) {
    && DistinctIds(s.rows + s.gone)
    && Rows(s, s.rows) && Rows(s, s.gone)
    && (forall i :: 0 <= i < |s.gone| ==> Terminal(s.gone[i]))
    && (forall id :: id in s.claims || id in s.marks ==> id < s.nextId)
    && (forall id :: |TimesOf(s.claims, id)| <= 7)
    && Holders(s)
    && |s.rows| + |s.gone| == s.nextId
  }

  lemma FindRow(rows: seq<Delivery>, d: Delivery)
    requires DistinctIds(rows) && d in rows
    ensures Find(rows, d.id) < |rows| && rows[Find(rows, d.id)] == d
  {
    var i :| 0 <= i < |rows| && rows[i] == d;
    var k := Find(rows, d.id);
  }

  lemma Survives(rows: seq<Delivery>, k: nat, d: Delivery, x: Delivery)
    requires DistinctIds(rows) && k < |rows| && x in rows
    ensures x != rows[k] ==> x in rows[k := d] && x.id != rows[k].id
  {
    var i :| 0 <= i < |rows| && rows[i] == x;
    if x != rows[k] {
      assert rows[k := d][i] == x;
    }
  }

  // Replacing one row by another of the same identity.
  lemma ReplaceRow(s: System, t: System, k: nat, d: Delivery)
    requires Inv(s) && k < |s.rows| && d.id == s.rows[k].id
    requires t.rows == s.rows[k := d] && t.gone == s.gone && t.nextId == s.nextId
    requires forall id :: id != d.id ==> TimesOf(t.claims, id) == TimesOf(s.claims, id)
    requires forall id :: id != d.id ==> TimesOf(t.marks, id) == TimesOf(s.marks, id)
    requires RowOk(d, TimesOf(t.claims, d.id), TimesOf(t.marks, d.id))
    ensures DistinctIds(t.rows + t.gone) && Rows(t, t.rows) && Rows(t, t.gone)
  {
    hide RowOk;
    var all, all' := s.rows + s.gone, t.rows + t.gone;
    forall i | 0 <= i < |all| ensures all'[i].id == all[i].id {
    }
    forall i | 0 <= i < |t.gone| ensures t.gone[i].id != d.id {
      assert all[|s.rows| + i] == s.gone[i] && all[k] == s.rows[k];
    }
    forall i | 0 <= i < |t.rows| && i != k ensures t.rows[i].id != d.id {
      assert all[i] == s.rows[i] && all[k] == s.rows[k];
    }
  }

  lemma DistinctRows(s: System)
    requires Inv(s)
    ensures DistinctIds(s.rows)
  {
    forall i, j | 0 <= i < j < |s.rows| ensures s.rows[i].id != s.rows[j].id {
      assert (s.rows + s.gone)[i] == s.rows[i] && (s.rows + s.gone)[j] == s.rows[j];
    }
  }

  lemma DistinctInsert(rows: seq<Delivery>, gone: seq<Delivery>, d: Delivery)
    requires DistinctIds(rows + gone) && forall x :: x in rows + gone ==> x.id != d.id
    ensures DistinctIds(rows + [d] + gone)
  {
    var all, all' := rows + gone, rows + [d] + gone;
    forall i | 0 <= i < |all'| ensures i != |rows| ==> all'[i] == all[if i < |rows| then i else i - 1] {
    }
  }

  lemma EnqueueKeepsInv(s: System, now: int, duckDb: bool)
    requires Inv(s)
    ensures Inv(Step(s, Enqueue(now), duckDb))
  {
    hide RowOk, TimesOf, DistinctIds, Terminal;
    var t := Step(s, Enqueue(now), duckDb);
    var d := t.rows[|s.rows|];
    FreshRow(s, now);
    DistinctInsert(s.rows, s.gone, d);
    assert forall i :: 0 <= i < |s.rows| ==> t.rows[i] == s.rows[i];
  }

  lemma FreshRow(s: System, now: int)
    requires Inv(s)
    ensures RowOk(Delivery(s.nextId, Pending, 0, None, now, None, Some(now)),
                  TimesOf(s.claims, s.nextId), TimesOf(s.marks, s.nextId))
    ensures forall x :: x in s.rows + s.gone ==> x.id != s.nextId
  {
    hide Backoff;
    assert TimesOf(s.claims, s.nextId) == [] && TimesOf(s.marks, s.nextId) == [];
  }

  lemma RowIsOk(s: System, k: nat)
    requires Inv(s) && k < |s.rows|
    ensures var id := s.rows[k].id;
            id < s.nextId && RowOk(s.rows[k], TimesOf(s.claims, id), TimesOf(s.marks, id))
  {
  }

  lemma ClaimKeepsInv(s: System, w: nat, id: nat, now: int, duckDb: bool)
    requires Inv(s)
    ensures Inv(Step(s, Claim(w, id, now), duckDb))
  {
    hide RowOk, DistinctIds, Rows, Terminal;
    var t := Step(s, Claim(w, id, now), duckDb);
    if w !in s.held && CanClaim(s.rows, id, now) {
      DistinctRows(s);
      var k := Find(s.rows, id);
      var d := s.rows[k];
      RowIsOk(s, k);
      ClaimKeepsRowOk(d, TimesOf(s.claims, id), TimesOf(s.marks, id), now);
      ReplaceRow(s, t, k, d.(status := Claimed));
      forall v | v in s.held ensures s.held[v] in t.rows && s.held[v].id != id {
        Survives(s.rows, k, d.(status := Claimed), s.held[v]);
      }
      assert t.rows[k] in t.rows;
    }
  }

  lemma FinishKeepsInv(s: System, w: nat, error: Option<string>, now: int, duckDb: bool)
    requires Inv(s)
    ensures Inv(Step(s, Finish(w, error, now), duckDb))
    ensures Step(s, Finish(w, error, now), duckDb) == Step(s, Finish(w, error, now), !duckDb)
  {
    hide RowOk, MarkInMemory, MarkInDuckDb, DistinctIds, Rows, Terminal;
    var t := Step(s, Finish(w, error, now), duckDb);
    if w in s.held {
      DistinctRows(s);
      var d := s.held[w];
      FindRow(s.rows, d);
      var k := Find(s.rows, d.id);
      RowIsOk(s, k);
      MarkKeepsRowOk(d, TimesOf(s.claims, d.id), TimesOf(s.marks, d.id), error, now);
      MarkIdentity(d, Result(d, error), error, now);
      ReplaceRow(s, t, k, MarkInMemory(d, Result(d, error), error, now));
      forall v | v in t.held ensures t.held[v] in t.rows {
        Survives(s.rows, k, MarkInMemory(d, Result(d, error), error, now), s.held[v]);
      }
    }
  }

  lemma MarkIdentity(d: Delivery, status: Status, error: Option<string>, now: int)
    ensures MarkInMemory(d, status, error, now).id == d.id && MarkInMemory(d, status, error, now).status == status
  {
  }

  lemma {:induction false} PurgeSplits(rows: seq<Delivery>, cutoff: int)
    requires DistinctIds(rows)
    ensures |Purged(rows, cutoff)| + |Expireds(rows, cutoff)| == |rows|
    ensures forall d :: d in Purged(rows, cutoff) <==> d in rows && !Expired(d, cutoff)
    ensures forall d :: d in Expireds(rows, cutoff) <==> d in rows && Expired(d, cutoff)
    ensures DistinctIds(Purged(rows, cutoff)) && DistinctIds(Expireds(rows, cutoff))
  {
    if rows != [] {
      var pre, d := rows[..|rows| - 1], rows[|rows| - 1];
      assert rows == pre + [d];
      PurgeSplits(pre, cutoff);
      forall x | x in pre ensures x.id != d.id {
      }
      forall i | 0 <= i < |Purged(pre, cutoff)| ensures Purged(pre, cutoff)[i].id != d.id {
        assert Purged(pre, cutoff)[i] in Purged(pre, cutoff);
      }
      forall i | 0 <= i < |Expireds(pre, cutoff)| ensures Expireds(pre, cutoff)[i].id != d.id {
        assert Expireds(pre, cutoff)[i] in Expireds(pre, cutoff);
      }
    }
  }

  lemma DistinctParts(a: seq<Delivery>, b: seq<Delivery>)
    ensures DistinctIds(a + b) <==>
            DistinctIds(a) && DistinctIds(b) && forall x, y :: x in a && y in b ==> x.id != y.id
  {
    var all := a + b;
    if DistinctIds(all) {
      forall i, j | 0 <= i < j < |a| ensures a[i].id != a[j].id {
        assert all[i] == a[i] && all[j] == a[j];
      }
      forall i, j | 0 <= i < j < |b| ensures b[i].id != b[j].id {
        assert all[|a| + i] == b[i] && all[|a| + j] == b[j];
      }
      forall x, y | x in a && y in b ensures x.id != y.id {
        var i :| 0 <= i < |a| && a[i] == x;
        var j :| 0 <= j < |b| && b[j] == y;
        assert all[i] == x && all[|a| + j] == y;
      }
    }
  }

  lemma PurgeKeepsDistinct(rows: seq<Delivery>, gone: seq<Delivery>, cutoff: int)
    requires DistinctIds(rows + gone)
    ensures DistinctIds(Purged(rows, cutoff) + (gone + Expireds(rows, cutoff)))
    ensures |Purged(rows, cutoff)| + |Expireds(rows, cutoff)| == |rows|
    ensures forall d :: d in Purged(rows, cutoff) <==> d in rows && !Expired(d, cutoff)
    ensures forall d :: d in Expireds(rows, cutoff) <==> d in rows && Expired(d, cutoff)
  {
    hide DistinctIds, Purged, Expireds, Expired;
    var kept, out := Purged(rows, cutoff), Expireds(rows, cutoff);
    DistinctParts(rows, gone);
    PurgeSplits(rows, cutoff);
    DistinctParts(gone, out);
    forall x, y | x in kept && y in out ensures x.id != y.id {
      SameIdSameRow(rows, x, y);
    }
    DistinctParts(kept, gone + out);
  }

  lemma SameIdSameRow(rows: seq<Delivery>, x: Delivery, y: Delivery)
    requires DistinctIds(rows) && x in rows && y in rows
    ensures x.id == y.id ==> x == y
  {
  }

  lemma PurgeKeepsInv(s: System, cutoff: int, now: int, duckDb: bool)
    requires Inv(s)
    ensures Inv(Step(s, Purge(cutoff, now), duckDb))
  {
    hide RowOk, Expired, DistinctIds, Purged, Expireds;
    var t := Step(s, Purge(cutoff, now), duckDb);
    var out := Expireds(s.rows, cutoff);
    PurgeKeepsDistinct(s.rows, s.gone, cutoff);
    ExpiredIsTerminal(cutoff);
    forall i | 0 <= i < |t.rows| ensures t.rows[i] in s.rows {
      assert t.rows[i] in t.rows;
    }
    forall i | 0 <= i < |out| ensures out[i] in s.rows && Terminal(out[i]) {
      assert out[i] in out;
    }
  }

  lemma ExpiredIsTerminal(cutoff: int)
    ensures forall d :: Expired(d, cutoff) ==> Terminal(d)
  {
  }

  lemma StepKeepsInv(s: System, e: Event, duckDb: bool)
    requires Inv(s)
    ensures Inv(Step(s, e, duckDb)) && Step(s, e, duckDb) == Step(s, e, !duckDb)
  {
    match e
    case Enqueue(now) => EnqueueKeepsInv(s, now, duckDb);
    case Claim(w, id, now) => ClaimKeepsInv(s, w, id, now, duckDb);
    case Finish(w, error, now) => FinishKeepsInv(s, w, error, now, duckDb);
    case Crash(_, _) =>
    case Purge(cutoff, now) => PurgeKeepsInv(s, cutoff, now, duckDb);
  }

  lemma {:induction false} ReachableInv(es: seq<Event>, duckDb: bool)
    ensures Inv(After(es, duckDb))
  {
    if es != [] {
      ReachableInv(es[..|es| - 1], duckDb);
      StepKeepsInv(After(es[..|es| - 1], duckDb), es[|es| - 1], duckDb);
    }
  }

  /** On every run the two backends hold equal tables. */
  lemma {:induction false} BackendsAgree(es: seq<Event>)
    ensures After(es, true) == After(es, false)
  {
    if es != [] {
      BackendsAgree(es[..|es| - 1]);
      ReachableInv(es[..|es| - 1], false);
      StepKeepsInv(After(es[..|es| - 1], false), es[|es| - 1], false);
    }
  }
}
