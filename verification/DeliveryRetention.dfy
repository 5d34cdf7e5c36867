/** Which rows a purge removes, read off the history of a run. */
module DeliveryRetention {
  import opened Common
  import opened Deliveries
  import opened DeliveryProtocol
  import opened DeliveryTheorems

  // The times of the enqueues of a run, in order; the row enqueued k-th has identifier k.
  function EnqueueTimes(es: seq<Event>): seq<int> {
    if es == [] then []
    else var rest, e := EnqueueTimes(es[..|es| - 1]), es[|es| - 1];
         if e.Enqueue? then rest + [e.now] else rest
  }

  ghost predicate Created(rows: seq<Delivery>, times: seq<int>) {
    forall i :: 0 <= i < |rows| ==> rows[i].id < |times| && rows[i].createdAt == times[rows[i].id]
  }

  lemma CreatedReplaced(rows: seq<Delivery>, k: nat, d: Delivery, times: seq<int>)
    requires Created(rows, times) && k < |rows| && d.id == rows[k].id && d.createdAt == rows[k].createdAt
    ensures Created(rows[k := d], times)
  {
  }

  lemma MarkKeepsCreation(d: Delivery, status: Status, error: Option<string>, now: int)
    ensures MarkInMemory(d, status, error, now).id == d.id
    ensures MarkInMemory(d, status, error, now).createdAt == d.createdAt
  {
  }

  lemma StepKeepsCreated(s: System, e: Event, times: seq<int>)
    requires Inv(s) && Created(s.rows, times) && |times| == s.nextId
    ensures var t := Step(s, e, false);
            var times' := if e.Enqueue? then times + [e.now] else times;
            Created(t.rows, times') && |times'| == t.nextId
  {
    hide RowOk, MarkInMemory, Expired;
    var t := Step(s, e, false);
    match e
    case Enqueue(_) =>
    case Claim(w, id, now) =>
      if w !in s.held && CanClaim(s.rows, id, now) {
        CreatedReplaced(s.rows, Find(s.rows, id), t.rows[Find(s.rows, id)], times);
      }
    case Finish(w, error, now) =>
      if w in s.held {
        var d := s.held[w];
        DistinctRows(s);
        FindRow(s.rows, d);
        MarkKeepsCreation(d, Result(d, error), error, now);
        CreatedReplaced(s.rows, Find(s.rows, d.id), t.rows[Find(s.rows, d.id)], times);
      }
    case Crash(_, _) =>
    case Purge(cutoff, _) =>
      DistinctRows(s);
      PurgeSplits(s.rows, cutoff);
      forall i | 0 <= i < |t.rows| ensures t.rows[i] in s.rows {
        assert t.rows[i] in t.rows;
      }
  }

  lemma {:induction false} CreatedWhenEnqueued(es: seq<Event>)
    ensures var s := After(es, false);
            Created(s.rows, EnqueueTimes(es)) && |EnqueueTimes(es)| == s.nextId
  {
    if es != [] {
      hide Step, Created;
      var pre := es[..|es| - 1];
      CreatedWhenEnqueued(pre);
      ReachableInv(pre, false);
      StepKeepsCreated(After(pre, false), es[|es| - 1], EnqueueTimes(pre));
    } else {
      assert Created([], []);
    }
  }

  // What the history says about when a row may go: a sent row when its last mark, a
  // dead-lettered one when its enqueue, lies before the cutoff; no other row.
  predicate Retired(d: Delivery, marks: seq<int>, enqueued: seq<int>, cutoff: int) {
    || (d.status == Sent && marks != [] && marks[|marks| - 1] < cutoff)
    || (d.status == DeadLetter && d.id < |enqueued| && enqueued[d.id] < cutoff)
  }

  lemma ExpiredIffRetired(d: Delivery, claims: seq<int>, marks: seq<int>, enqueued: seq<int>, cutoff: int)
    requires RowOk(d, claims, marks) && d.id < |enqueued| && d.createdAt == enqueued[d.id]
    ensures Expired(d, cutoff) <==> Retired(d, marks, enqueued, cutoff)
  {
    hide Backoff, Spaced;
  }

  /** A purge removes exactly the sent rows whose last mark and the dead-lettered rows
      whose enqueue lies before the cutoff, on every run; all others stay, and none
      appears. */
  lemma PurgeIsExact(es: seq<Event>, cutoff: int, now: int, d: Delivery)
    ensures var s, t := After(es, false), After(es + [Purge(cutoff, now)], false);
            && (d in t.rows <==> d in s.rows && !Retired(d, TimesOf(s.marks, d.id), EnqueueTimes(es), cutoff))
            && (d in s.rows && d !in t.rows ==> d in t.gone)
  {
    hide After, Expired, RowOk, EnqueueTimes, Retired;
    PurgedAfter(es, cutoff, now);
    ReachableInv(es, false);
    CreatedWhenEnqueued(es);
    var s := After(es, false);
    DistinctRows(s);
    PurgeSplits(s.rows, cutoff);
    hide Purged, Expireds, Inv;
    if d in s.rows {
      RowIsRetiredIff(es, cutoff, d);
    }
  }

  lemma PurgedAfter(es: seq<Event>, cutoff: int, now: int)
    ensures var s, t := After(es, false), After(es + [Purge(cutoff, now)], false);
            t.rows == Purged(s.rows, cutoff) && t.gone == s.gone + Expireds(s.rows, cutoff)
  {
    assert (es + [Purge(cutoff, now)])[..|es|] == es;
  }

  lemma RowIsRetiredIff(es: seq<Event>, cutoff: int, d: Delivery)
    requires d in After(es, false).rows
    ensures Expired(d, cutoff) <==> Retired(d, TimesOf(After(es, false).marks, d.id), EnqueueTimes(es), cutoff)
  {
    hide After, Expired, RowOk, EnqueueTimes, Retired;
    ReachableInv(es, false);
    CreatedWhenEnqueued(es);
    var s := After(es, false);
    var k :| 0 <= k < |s.rows| && s.rows[k] == d;
    RowIsOk(s, k);
    ExpiredIffRetired(d, TimesOf(s.claims, d.id), TimesOf(s.marks, d.id), EnqueueTimes(es), cutoff);
  }

  // ---- the order of a batch ----

  ghost predicate IdsAscend(rows: seq<Delivery>) {
    forall i, j :: 0 <= i < j < |rows| ==> rows[i].id < rows[j].id
  }

  lemma {:induction false} PurgeKeepsOrder(rows: seq<Delivery>, cutoff: int)
    requires IdsAscend(rows)
    ensures IdsAscend(Purged(rows, cutoff))
    ensures forall d :: d in Purged(rows, cutoff) ==> d in rows
  {
    if rows != [] {
      hide Expired;
      var pre, d := rows[..|rows| - 1], rows[|rows| - 1];
      assert rows == pre + [d];
      PurgeKeepsOrder(pre, cutoff);
      var kept := Purged(pre, cutoff);
      forall i | 0 <= i < |kept| ensures kept[i].id < d.id {
        assert kept[i] in kept;
      }
    }
  }

  lemma {:induction false} RowsInOrder(es: seq<Event>)
    ensures IdsAscend(After(es, false).rows)
  {
    if es != [] {
      hide RowOk, MarkInMemory, Expired;
      var pre, e := es[..|es| - 1], es[|es| - 1];
      RowsInOrder(pre);
      ReachableInv(pre, false);
      var s := After(pre, false);
      hide After;
      StepKeepsOrder(s, e);
    }
  }

  lemma StepKeepsOrder(s: System, e: Event)
    requires Inv(s) && IdsAscend(s.rows)
    ensures IdsAscend(Step(s, e, false).rows)
  {
    hide RowOk, MarkInMemory, Expired;
    if e.Finish? && e.worker in s.held {
      var d := s.held[e.worker];
      MarkIdentity(d, Result(d, e.error), e.error, e.now);
      DistinctRows(s);
      FindRow(s.rows, d);
    } else if e.Purge? {
      PurgeKeepsOrder(s.rows, e.cutoff);
    }
  }

  predicate Earlier(x: Delivery, y: Delivery) {
    x.createdAt < y.createdAt || (x.createdAt == y.createdAt && x.id < y.id)
  }

  // By age, and by identifier where the age is the same.
  ghost predicate ByAge(rows: seq<Delivery>) {
    forall i, j :: 0 <= i < j < |rows| ==> Earlier(rows[i], rows[j])
  }

  lemma ByAgeCons(x: Delivery, rest: seq<Delivery>)
    requires ByAge(rest) && forall y :: y in rest ==> Earlier(x, y)
    ensures ByAge([x] + rest)
  {
    hide Earlier;
    var rows := [x] + rest;
    forall i, j | 0 <= i < j < |rows| ensures Earlier(rows[i], rows[j]) {
      assert rows[j] in rest;
    }
  }

  lemma {:induction false} InsertByAgeOrder(sorted: seq<Delivery>, d: Delivery)
    requires ByAge(sorted) && forall x :: x in sorted ==> x.id < d.id
    ensures ByAge(InsertByAge(sorted, d))
  {
    if sorted != [] {
      assert sorted == [sorted[0]] + sorted[1..];
      forall y | y in sorted ensures y == sorted[0] || Earlier(sorted[0], y) {
      }
      if d.createdAt >= sorted[0].createdAt {
        InsertByAgeOrder(sorted[1..], d);
        forall y | y in sorted[1..] ensures Earlier(sorted[0], y) {
        }
        hide ByAge;
        ByAgeCons(sorted[0], InsertByAge(sorted[1..], d));
      } else {
        hide ByAge;
        ByAgeCons(d, sorted);
      }
    }
  }

  lemma {:induction false} DueByAge(rows: seq<Delivery>, now: int)
    requires IdsAscend(rows)
    ensures ByAge(Due(rows, now))
  {
    if rows != [] {
      var pre, d := rows[..|rows| - 1], rows[|rows| - 1];
      DueByAge(pre, now);
      if Claimable(d, now) {
        forall x | x in Due(pre, now) ensures x.id < d.id {
          assert x in pre;
        }
        InsertByAgeOrder(Due(pre, now), d);
      }
    }
  }

  /** On every run a batch is in the order of enqueueing. */
  lemma BatchIsByAge(es: seq<Event>, now: int, limit: nat)
    ensures ByAge(ListPending(After(es, false).rows, now, limit))
  {
    RowsInOrder(es);
    DueByAge(After(es, false).rows, now);
  }
}
