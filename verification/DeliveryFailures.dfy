/** What failures do to the delivery protocol: crashed workers strand rows, and
    failing dispatches end in the dead-letter state. */
module DeliveryFailures {
  import opened Common
  import opened Deliveries
  import opened DeliveryProtocol
  import opened DeliveryTheorems

  // ---- crashes ----

  // A claimed row that no worker holds.
  ghost predicate Stranded(s: System, d: Delivery) {
    d in s.rows && d.status == Claimed && forall w :: w in s.held ==> s.held[w].id != d.id
  }

  lemma StrandedStep(s: System, e: Event, d: Delivery)
    requires Inv(s) && Stranded(s, d)
    ensures Stranded(Step(s, e, false), d)
  {
    hide RowOk;
    var t := Step(s, e, false);
    DistinctRows(s);
    match e
    case Enqueue(_) =>
    case Claim(w, id, now) =>
      if w !in s.held && CanClaim(s.rows, id, now) {
        Survives(s.rows, Find(s.rows, id), t.rows[Find(s.rows, id)], d);
      }
    case Finish(w, error, now) =>
      if w in s.held {
        FindRow(s.rows, s.held[w]);
        Survives(s.rows, Find(s.rows, s.held[w].id), t.rows[Find(s.rows, s.held[w].id)], d);
      }
    case Crash(_, _) =>
    case Purge(cutoff, _) =>
      PurgeSplits(s.rows, cutoff);
  }

  /** A stranded row stays stranded on every continuation: it is never claimed
      again, marked or purged. */
  lemma {:induction false} StrandedForever(es: seq<Event>, n: nat, d: Delivery)
    requires n <= |es| && Stranded(After(es[..n], false), d)
    ensures Stranded(After(es, false), d)
    decreases |es|
  {
    if n == |es| {
      assert es[..n] == es;
    } else {
      var pre := es[..|es| - 1];
      assert pre[..n] == es[..n];
      StrandedForever(pre, n, d);
      ReachableInv(pre, false);
      StrandedStep(After(pre, false), es[|es| - 1], d);
    }
  }

  // Event n is the crash of the worker that held row d.
  ghost predicate HolderCrashed(es: seq<Event>, n: nat, d: Delivery)
    requires n < |es|
  {
    var s := After(es[..n], false);
    es[n].Crash? && es[n].worker in s.held && s.held[es[n].worker] == d
  }

  lemma CrashStrands(s: System, w: nat, now: int)
    requires Inv(s) && w in s.held
    ensures Stranded(Step(s, Crash(w, now), false), s.held[w])
  {
  }

  // A row is stranded by nothing but the crash of its holder.
  lemma StrandedBefore(s: System, e: Event, d: Delivery)
    requires Inv(s) && Stranded(Step(s, e, false), d)
    ensures Stranded(s, d) || (e.Crash? && e.worker in s.held && s.held[e.worker] == d)
  {
    hide RowOk;
    var t := Step(s, e, false);
    DistinctRows(s);
    match e
    case Enqueue(_) =>
    case Claim(w, id, now) =>
      if w !in s.held && CanClaim(s.rows, id, now) {
        ClaimLeaves(s, w, id, now, d);
      }
    case Finish(w, error, now) =>
      if w in s.held {
        FinishLeaves(s, w, error, now, d);
        forall v | v in s.held ensures s.held[v].id != d.id {
          assert v != w ==> v in t.held && t.held[v] == s.held[v];
        }
      }
    case Crash(w, _) =>
      if w in s.held && s.held[w].id == d.id {
        SameIdSameRow(s.rows, s.held[w], d);
      } else {
        forall v | v in s.held ensures s.held[v].id != d.id {
          assert v != w ==> v in t.held && t.held[v] == s.held[v];
        }
      }
    case Purge(cutoff, _) =>
      PurgeSplits(s.rows, cutoff);
  }

  lemma ClaimLeaves(s: System, w: nat, id: nat, now: int, d: Delivery)
    requires w !in s.held && CanClaim(s.rows, id, now) && Stranded(Step(s, Claim(w, id, now), false), d)
    ensures Stranded(s, d)
  {
    var t, k := Step(s, Claim(w, id, now), false), Find(s.rows, id);
    var i :| 0 <= i < |t.rows| && t.rows[i] == d;
    assert i != k by { assert t.held[w] == t.rows[k]; }
    assert s.rows[i] == d;
    forall v | v in s.held ensures s.held[v].id != d.id {
      assert t.held[v] == s.held[v];
    }
  }

  // A claimed row left after a finish was there before it, and was not the one finished.
  lemma FinishLeaves(s: System, w: nat, error: Option<string>, now: int, d: Delivery)
    requires Inv(s) && w in s.held && d.status == Claimed && d in Step(s, Finish(w, error, now), false).rows
    ensures d in s.rows && d.id != s.held[w].id
  {
    hide RowOk, MarkInMemory;
    DistinctRows(s);
    var t, mine := Step(s, Finish(w, error, now), false), s.held[w];
    FindRow(s.rows, mine);
    var k := Find(s.rows, mine.id);
    MarkIdentity(mine, Result(mine, error), error, now);
    var i :| 0 <= i < |t.rows| && t.rows[i] == d;
    assert i != k && s.rows[i] == d;
  }

  /** A row is stranded exactly if the worker that held it has crashed. */
  lemma {:induction false} StrandedIffHolderCrashed(es: seq<Event>, d: Delivery)
    ensures Stranded(After(es, false), d) <==> exists n :: 0 <= n < |es| && HolderCrashed(es, n, d)
  {
    if n :| 0 <= n < |es| && HolderCrashed(es, n, d) {
      assert es[..n + 1][..n] == es[..n];
      ReachableInv(es[..n], false);
      CrashStrands(After(es[..n], false), es[n].worker, es[n].now);
      StrandedForever(es, n + 1, d);
    }
    if Stranded(After(es, false), d) {
      var n := FindCrash(es, d);
    }
  }

  lemma {:induction false} FindCrash(es: seq<Event>, d: Delivery) returns (n: nat)
    requires Stranded(After(es, false), d)
    ensures n < |es| && HolderCrashed(es, n, d)
  {
    var last := |es| - 1;
    var pre := es[..last];
    ReachableInv(pre, false);
    StrandedBefore(After(pre, false), es[last], d);
    if Stranded(After(pre, false), d) {
      n := FindCrash(pre, d);
      assert pre[..n] == es[..n];
    } else {
      n := last;
    }
  }

  lemma Extend(es: seq<Event>, e: Event)
    ensures After(es + [e], false) == Step(After(es, false), e, false)
  {
    assert (es + [e])[..|es|] == es;
  }

  // ---- the way to the dead-letter state ----

  // The k-th moment at which a delivery that is retried as soon as possible, and
  // fails at once, is claimed and marked.
  function Tick(k: nat): int { if k == 0 then 0 else Tick(k - 1) + Backoff(k) }

  const REFUSED: Option<string> := Some("connection refused")

  // A delivery that has failed k times in that way.
  function Failing(k: nat): seq<Event> {
    if k == 0 then [Enqueue(0)]
    else Failing(k - 1) + [Claim(0, 0, Tick(k - 1))] + [Finish(0, REFUSED, Tick(k - 1))]
  }

  function FailedRow(k: nat): Delivery {
    if k == 0 then Delivery(0, Pending, 0, None, 0, None, Some(0))
    else if k <= 6 then Delivery(0, Failed, k, REFUSED, 0, None, Some(Tick(k)))
    else Delivery(0, DeadLetter, k, REFUSED, 0, None, None)
  }

  function Ticks(k: nat): (ts: seq<int>)
    ensures |ts| == k && forall i :: 0 <= i < k ==> ts[i] == Tick(i)
  {
    seq(k, i requires 0 <= i < k => Tick(i))
  }

  ghost predicate HasFailed(s: System, k: nat) {
    && s.rows == [FailedRow(k)] && s.held == map[]
    && TimesOf(s.claims, 0) == Ticks(k) && TimesOf(s.marks, 0) == Ticks(k)
  }

  lemma ClaimOnce(s: System, k: nat)
    requires k < 7 && HasFailed(s, k)
    ensures var c, d := Step(s, Claim(0, 0, Tick(k)), false), FailedRow(k).(status := Claimed);
            && c == s.(rows := [d], held := map[0 := d], claims := c.claims)
            && TimesOf(c.claims, 0) == Ticks(k + 1)
  {
    hide Backoff, Tick;
    assert Claimable(s.rows[0], Tick(k)) && Find(s.rows, 0) == 0;
    assert Ticks(k) + [Tick(k)] == Ticks(k + 1);
  }

  /** Three events strand a row. */
  lemma CrashRun()
    ensures Stranded(After([Enqueue(0), Claim(0, 0, 0), Crash(0, 0)], false),
                     Delivery(0, Claimed, 0, None, 0, None, Some(0)))
  {
    hide Step, HasFailed;
    var enqueue, claim, crash: Event := Enqueue(0), Claim(0, 0, 0), Crash(0, 0);
    FailingRun(0);
    ClaimOnce(After(Failing(0), false), 0);
    Extend([enqueue], claim);
    assert [enqueue] + [claim] == [enqueue, claim];
    ReachableInv([enqueue, claim], false);
    CrashStrands(After([enqueue, claim], false), 0, 0);
    Extend([enqueue, claim], crash);
    assert [enqueue, claim] + [crash] == [enqueue, claim, crash];
  }

  lemma FailOnce(s: System, k: nat)
    requires k < 7 && HasFailed(s, k)
    ensures HasFailed(Step(Step(s, Claim(0, 0, Tick(k)), false), Finish(0, REFUSED, Tick(k)), false), k + 1)
  {
    hide Claimable;
    ClaimOnce(s, k);
    var d, c := FailedRow(k).(status := Claimed), Step(s, Claim(0, 0, Tick(k)), false);
    assert Result(d, REFUSED) == FailedRow(k + 1).status;
    FailMark(k);
    hide Step, MarkInMemory, FailedRow, Ticks, Result, Tick;
    FinishOnce(c, d, Tick(k));
    assert Ticks(k) + [Tick(k)] == Ticks(k + 1);
  }

  lemma FailMark(k: nat)
    requires k < 7
    ensures var d := FailedRow(k).(status := Claimed);
            MarkInMemory(d, Result(d, REFUSED), REFUSED, Tick(k)) == FailedRow(k + 1)
  {
    hide Backoff;
  }

  lemma FinishOnce(c: System, d: Delivery, now: int)
    requires c.rows == [d] && c.held == map[0 := d] && d.id == 0
    ensures var t := Step(c, Finish(0, REFUSED, now), false);
            && t.rows == [MarkInMemory(d, Result(d, REFUSED), REFUSED, now)] && t.held == map[]
            && t.claims == c.claims && TimesOf(t.marks, 0) == TimesOf(c.marks, 0) + [now]
  {
    hide MarkInMemory, Result;
  }

  lemma {:induction false} FailingRun(k: nat)
    requires k <= 7
    ensures HasFailed(After(Failing(k), false), k)
  {
    if k == 0 {
      Extend([], Enqueue(0));
      assert [] + [Enqueue(0)] == [Enqueue(0)];
    } else {
      hide Step, HasFailed;
      FailingRun(k - 1);
      FailOnce(After(Failing(k - 1), false), k - 1);
      Extend(Failing(k - 1), Claim(0, 0, Tick(k - 1)));
      Extend(Failing(k - 1) + [Claim(0, 0, Tick(k - 1))], Finish(0, REFUSED, Tick(k - 1)));
    }
  }

  /** Seven dispatches and 3780 s are attained: a delivery that fails on every
      earliest retry is claimed at 0, 60, 180, 420, 900, 1860 and 3780 s, and only
      then dead-lettered. */
  lemma DeadLetterRun()
    ensures ClockOrdered(Failing(7))
    ensures var s := After(Failing(7), false);
            && s.rows == [Delivery(0, DeadLetter, 7, REFUSED, 0, None, None)]
            && TimesOf(s.claims, 0) == [0, 60, 180, 420, 900, 1860, 3780] == TimesOf(s.marks, 0)
    ensures After(Failing(6), false).rows[0].status == Failed
  {
    hide Backoff;
    BackoffTable();
    FailingRun(6);
    FailingRun(7);
    assert Tick(1) == 60 && Tick(2) == 180 && Tick(3) == 420;
    assert Tick(4) == 900 && Tick(5) == 1860 && Tick(6) == 3780;
    FailingIsOrdered(7);
  }

  lemma {:induction false} FailingIsOrdered(k: nat)
    requires k <= 7
    ensures ClockOrdered(Failing(k))
    ensures forall i :: 0 <= i < |Failing(k)| ==> Failing(k)[i].now <= if k == 0 then 0 else Tick(k - 1)
  {
    hide Backoff;
    if k > 0 {
      FailingIsOrdered(k - 1);
      if k > 1 {
        BackoffLaws(k - 1, k - 1);
      }
    }
  }
}
