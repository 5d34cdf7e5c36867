/** What holds over every run of the delivery protocol. */
module DeliveryTheorems {
  import opened Common
  import opened Deliveries
  import opened DeliveryProtocol

  // ---- claiming ----

  /** No two workers ever hold the same row, what a worker holds is claimed in the
      table, and no row is dispatched more than seven times. */
  lemma ExclusiveAndBounded(es: seq<Event>, w: nat, v: nat, id: nat)
    ensures var s := After(es, false);
            && (w in s.held && v in s.held && s.held[w].id == s.held[v].id ==> w == v)
            && (w in s.held ==> s.held[w].status == Claimed && s.held[w] in s.rows)
            && |TimesOf(s.claims, id)| <= 7
  {
    ReachableInv(es, false);
  }

  ghost predicate AllHeld(s: System) {
    forall d :: d in s.rows && d.status == Claimed ==> HasHolder(s, d)
  }

  ghost predicate HasHolder(s: System, d: Delivery) { exists w :: w in s.held && s.held[w] == d }

  lemma ClaimKeepsAllHeld(s: System, w: nat, id: nat, now: int)
    requires Inv(s) && AllHeld(s) && w !in s.held && CanClaim(s.rows, id, now)
    ensures AllHeld(Step(s, Claim(w, id, now), false))
  {
    hide Inv;
    var t := Step(s, Claim(w, id, now), false);
    assert HasHolder(t, t.held[w]);
    forall d | d in t.rows && d.status == Claimed && d != t.held[w] ensures HasHolder(t, d) {
      assert d in s.rows;
      assert HasHolder(s, d);
      var v :| v in s.held && s.held[v] == d;
      assert v in t.held && t.held[v] == d;
    }
  }

  lemma FinishKeepsAllHeld(s: System, w: nat, error: Option<string>, now: int)
    requires Inv(s) && AllHeld(s) && w in s.held
    ensures AllHeld(Step(s, Finish(w, error, now), false))
  {
    DistinctRows(s);
    hide RowOk, MarkInMemory, Rows, Terminal;
    var t, mine := Step(s, Finish(w, error, now), false), s.held[w];
    FindRow(s.rows, mine);
    var k := Find(s.rows, mine.id);
    var marked := MarkInMemory(mine, Result(mine, error), error, now);
    MarkIdentity(mine, Result(mine, error), error, now);
    forall d | d in t.rows && d.status == Claimed ensures HasHolder(t, d) {
      var i :| 0 <= i < |t.rows| && t.rows[i] == d;
      assert i != k && s.rows[i] == d;
      assert HasHolder(s, d);
      var v :| v in s.held && s.held[v] == d;
      assert v in t.held && t.held[v] == d;
    }
  }

  lemma StepKeepsAllHeld(s: System, e: Event)
    requires Inv(s) && AllHeld(s) && !e.Crash?
    ensures AllHeld(Step(s, e, false))
  {
    if e.Claim? {
      if e.worker !in s.held && CanClaim(s.rows, e.id, e.now) {
        ClaimKeepsAllHeld(s, e.worker, e.id, e.now);
      }
    } else if e.Finish? {
      if e.worker in s.held {
        FinishKeepsAllHeld(s, e.worker, e.error, e.now);
      }
    } else {
      hide RowOk;
      DistinctRows(s);
      var t := Step(s, e, false);
      if e.Purge? {
        PurgeSplits(s.rows, e.cutoff);
      }
      forall d | d in t.rows && d.status == Claimed ensures HasHolder(t, d) {
        assert HasHolder(s, d);
      }
    }
  }

  /** As long as no worker crashes, every claimed row is held by a worker, which
      with the previous law means exactly one. A crash is what strands a row. */
  lemma {:induction false} ClaimedRowsAreHeld(es: seq<Event>)
    requires forall i :: 0 <= i < |es| ==> !es[i].Crash?
    ensures AllHeld(After(es, false))
  {
    if es != [] {
      var pre := es[..|es| - 1];
      ClaimedRowsAreHeld(pre);
      ReachableInv(pre, false);
      StepKeepsAllHeld(After(pre, false), es[|es| - 1]);
    }
  }

  // Replacing a row that is not final leaves a final one alone.
  lemma TerminalSurvives(s: System, k: nat, d: Delivery, x: Delivery)
    requires Inv(s) && k < |s.rows| && !Terminal(s.rows[k]) && x in s.rows + s.gone && Terminal(x)
    ensures x in s.rows[k := d] + s.gone && x.id != s.rows[k].id
  {
    hide RowOk;
    DistinctRows(s);
    DistinctParts(s.rows, s.gone);
    assert s.rows[k] in s.rows;
    if x in s.rows {
      Survives(s.rows, k, d, x);
    }
  }

  lemma TerminalStep(s: System, e: Event, d: Delivery)
    requires Inv(s) && d in s.rows + s.gone && Terminal(d)
    ensures var t := Step(s, e, false);
            d in t.rows + t.gone && TimesOf(t.claims, d.id) == TimesOf(s.claims, d.id)
  {
    hide RowOk, MarkInMemory, Expired;
    var t := Step(s, e, false);
    DistinctRows(s);
    match e
    case Enqueue(_) =>
    case Claim(w, id, now) =>
      if w !in s.held && CanClaim(s.rows, id, now) {
        TerminalSurvives(s, Find(s.rows, id), t.rows[Find(s.rows, id)], d);
      }
    case Finish(w, error, now) =>
      if w in s.held {
        FindRow(s.rows, s.held[w]);
        var k := Find(s.rows, s.held[w].id);
        TerminalSurvives(s, k, t.rows[k], d);
      }
    case Crash(_, _) =>
    case Purge(cutoff, _) =>
      PurgeSplits(s.rows, cutoff);
  }

  /** A row that was sent or dead-lettered never changes again and is never claimed
      again; it can only be purged. */
  lemma {:induction false} TerminalIsFinal(es: seq<Event>, n: nat, d: Delivery)
    requires n <= |es| && d in After(es[..n], false).rows && Terminal(d)
    ensures var s := After(es, false);
            && d in s.rows + s.gone
            && TimesOf(s.claims, d.id) == TimesOf(After(es[..n], false).claims, d.id)
    decreases |es|
  {
    if n == |es| {
      assert es[..n] == es;
    } else {
      var pre := es[..|es| - 1];
      assert pre[..n] == es[..n];
      TerminalIsFinal(pre, n, d);
      ReachableInv(pre, false);
      TerminalStep(After(pre, false), es[|es| - 1], d);
    }
  }

  /** On every run a row can be claimed exactly if it was never claimed before, or if its
      last dispatch failed and the backoff since that mark has passed. */
  lemma ClaimableIff(es: seq<Event>, d: Delivery, now: int)
    requires d in After(es, false).rows
    ensures var s := After(es, false);
            var claims, marks := TimesOf(s.claims, d.id), TimesOf(s.marks, d.id);
            CanClaim(s.rows, d.id, now)
            <==> claims == [] || (d.status == Failed && marks != [] && now >= marks[|marks| - 1] + Backoff(d.attempts))
  {
    ReachableInv(es, false);
    hide After, Backoff, Spaced;
    var s := After(es, false);
    DistinctRows(s);
    FindRow(s.rows, d);
    RowIsOk(s, Find(s.rows, d.id));
  }

  /** A claim by an idle worker changes the status of the row and nothing else, and gives
      the worker that row; a claim that fails changes nothing. */
  lemma ClaimMeaning(s: System, w: nat, id: nat, now: int)
    requires w !in s.held
    ensures var t, k := Step(s, Claim(w, id, now), false), Find(s.rows, id);
            if CanClaim(s.rows, id, now)
            then && k < |s.rows| && s.rows[k].id == id && t.rows == s.rows[k := s.rows[k].(status := Claimed)]
                 && w in t.held && t.held[w] == t.rows[k]
            else t == s
  {
  }

  // What a dispatch leaves behind: the row it claimed, one attempt later.
  predicate IsMarked(row: Delivery, d: Delivery, error: Option<string>, now: int) {
    && row.id == d.id && row.createdAt == d.createdAt && row.attempts == d.attempts + 1 && row.lastError == error
    && row.status == (if error.None? then Sent else if d.attempts >= 6 then DeadLetter else Failed)
    && row.sentAt == (if error.None? then Some(now) else None)
    && row.nextAttemptAt == (if error.Some? && d.attempts < 6 then Some(now + Backoff(d.attempts + 1)) else None)
  }

  /** Finishing a dispatch, on every run: the claimed row is sent, retried or, after six
      earlier attempts, dead-lettered, and no other row changes. */
  lemma FinishMeaning(es: seq<Event>, w: nat, error: Option<string>, now: int)
    requires w in After(es, false).held
    ensures var s, t := After(es, false), After(es + [Finish(w, error, now)], false);
            var k := Find(s.rows, s.held[w].id);
            && k < |s.rows| && s.rows[k] == s.held[w] && |t.rows| == |s.rows| && w !in t.held
            && IsMarked(t.rows[k], s.held[w], error, now)
            && forall i :: 0 <= i < |s.rows| && i != k ==> t.rows[i] == s.rows[i]
  {
    hide After, MarkInMemory, IsMarked, RowOk;
    FinishedAfter(es, w, error, now);
    ReachableInv(es, false);
    var s := After(es, false);
    DistinctRows(s);
    FindRow(s.rows, s.held[w]);
    RowIsOk(s, Find(s.rows, s.held[w].id));
    MarkMeaning(s.held[w], TimesOf(s.claims, s.held[w].id), TimesOf(s.marks, s.held[w].id), error, now);
  }

  lemma FinishedAfter(es: seq<Event>, w: nat, error: Option<string>, now: int)
    requires w in After(es, false).held
    ensures var s, t := After(es, false), After(es + [Finish(w, error, now)], false);
            var d := s.held[w];
            t.rows == MarkRow(s.rows, d.id, Result(d, error), error, now, false) && t.held == s.held - {w}
  {
    assert (es + [Finish(w, error, now)])[..|es|] == es;
  }

  lemma MarkMeaning(d: Delivery, claims: seq<int>, marks: seq<int>, error: Option<string>, now: int)
    requires d.status == Claimed && RowOk(d, claims, marks)
    ensures IsMarked(MarkInMemory(d, Result(d, error), error, now), d, error, now)
  {
    hide Backoff, Spaced;
  }

  // ---- time ----

  ghost predicate ClockOrdered(es: seq<Event>) {
    forall i, j :: 0 <= i < j < |es| ==> es[i].now <= es[j].now
  }

  ghost predicate Timely(s: System, clock: int) {
    && (forall id, k :: 0 <= k < |TimesOf(s.claims, id)| ==> TimesOf(s.claims, id)[k] <= clock)
    && (forall id, k :: 0 <= k < |TimesOf(s.claims, id)| && k < |TimesOf(s.marks, id)| ==>
          TimesOf(s.claims, id)[k] <= TimesOf(s.marks, id)[k])
  }

  // One more claim or mark in the logs of a row, not before the clock.
  lemma LogKeepsTimely(s: System, t: System, id: nat, clock: int)
    requires Timely(s, clock)
    requires forall other :: other != id ==> TimesOf(t.claims, other) == TimesOf(s.claims, other)
                                             && TimesOf(t.marks, other) == TimesOf(s.marks, other)
    requires var claims, marks := TimesOf(s.claims, id), TimesOf(s.marks, id);
             || (TimesOf(t.claims, id) == claims + [clock] && TimesOf(t.marks, id) == marks && |marks| <= |claims|)
             || (TimesOf(t.claims, id) == claims && TimesOf(t.marks, id) == marks + [clock])
    ensures Timely(t, clock)
  {
    hide TimesOf;
  }

  lemma StepKeepsTimely(s: System, e: Event, clock: int)
    requires Inv(s) && Timely(s, clock) && clock <= e.now
    ensures Timely(Step(s, e, false), e.now)
  {
    hide RowOk, MarkRow, Timely;
    Later(s, clock, e.now);
    var t := Step(s, e, false);
    if e.Claim? && e.worker !in s.held && CanClaim(s.rows, e.id, e.now) {
      RowTimes(s, Find(s.rows, e.id));
      LogKeepsTimely(s, t, e.id, e.now);
    } else if e.Finish? && e.worker in s.held {
      LogKeepsTimely(s, t, s.held[e.worker].id, e.now);
    } else {
      SameLogs(s, t, e.now);
    }
  }

  lemma Later(s: System, clock: int, now: int)
    requires Timely(s, clock) && clock <= now
    ensures Timely(s, now)
  {
    hide TimesOf;
  }

  lemma SameLogs(s: System, t: System, clock: int)
    requires Timely(s, clock) && t.claims == s.claims && t.marks == s.marks
    ensures Timely(t, clock)
  {
    hide TimesOf;
  }

  lemma RowTimes(s: System, k: nat)
    requires Inv(s) && k < |s.rows|
    ensures |TimesOf(s.marks, s.rows[k].id)| <= |TimesOf(s.claims, s.rows[k].id)|
  {
    hide StatusOk, Spaced;
    RowIsOk(s, k);
  }

  lemma {:induction false} ReachableTimely(es: seq<Event>, clock: int)
    requires ClockOrdered(es) && forall i :: 0 <= i < |es| ==> es[i].now <= clock
    ensures Timely(After(es, false), clock)
  {
    if es != [] {
      var pre, e := es[..|es| - 1], es[|es| - 1];
      ReachableTimely(pre, e.now);
      ReachableInv(pre, false);
      StepKeepsTimely(After(pre, false), e, e.now);
    }
  }

  /** With a clock that does not run backwards, a dead-lettered row was claimed for
      the last time at least 3780 s after its first attempt was marked. */
  lemma DeadLetterTakesAnHour(es: seq<Event>, d: Delivery)
    requires ClockOrdered(es) && d.status == DeadLetter
    requires d in After(es, false).rows + After(es, false).gone
    ensures var s := After(es, false);
            var claims, marks := TimesOf(s.claims, d.id), TimesOf(s.marks, d.id);
            |claims| == |marks| == 7 && claims[6] - marks[0] >= 3780
  {
    hide Backoff;
    ReachableInv(es, false);
    ReachableTimely(es, if es == [] then 0 else es[|es| - 1].now);
    var s := After(es, false);
    var claims, marks := TimesOf(s.claims, d.id), TimesOf(s.marks, d.id);
    assert RowOk(d, claims, marks);
    BackoffTable();
    assert claims[6] >= marks[5] + 1920 && claims[5] >= marks[4] + 960 && claims[4] >= marks[3] + 480;
    assert claims[3] >= marks[2] + 240 && claims[2] >= marks[1] + 120 && claims[1] >= marks[0] + 60;
    assert marks[5] >= claims[5] && marks[4] >= claims[4] && marks[3] >= claims[3];
    assert marks[2] >= claims[2] && marks[1] >= claims[1];
  }

  // ---- conservation ----

  function Count(rows: seq<Delivery>, status: Status): nat {
    if rows == [] then 0
    else Count(rows[..|rows| - 1], status) + (if rows[|rows| - 1].status == status then 1 else 0)
  }

  lemma {:induction false} CountsCover(rows: seq<Delivery>)
    ensures |rows| == Count(rows, Pending) + Count(rows, Claimed) + Count(rows, Failed)
                      + Count(rows, Sent) + Count(rows, DeadLetter)
  {
    if rows != [] {
      CountsCover(rows[..|rows| - 1]);
    }
  }

  function Enqueued(es: seq<Event>): nat {
    if es == [] then 0 else Enqueued(es[..|es| - 1]) + (if es[|es| - 1].Enqueue? then 1 else 0)
  }

  lemma {:induction false} EnqueuedIsNextId(es: seq<Event>)
    ensures After(es, false).nextId == Enqueued(es)
  {
    if es != [] {
      EnqueuedIsNextId(es[..|es| - 1]);
    }
  }

  /** No delivery is lost: everything enqueued is in the table in one of the five
      states or was purged after reaching a final one, and the state fixes how
      often the row was attempted. */
  lemma NoDeliveryIsLost(es: seq<Event>)
    ensures var s := After(es, false);
            && Enqueued(es) == Count(s.rows, Pending) + Count(s.rows, Claimed) + Count(s.rows, Failed)
                               + Count(s.rows, Sent) + Count(s.rows, DeadLetter) + |s.gone|
            && (forall i :: 0 <= i < |s.gone| ==> Terminal(s.gone[i]))
            && (forall i :: 0 <= i < |s.rows| ==> StateFixesAttempts(s.rows[i]))
  {
    ReachableInv(es, false);
    EnqueuedIsNextId(es);
    CountsCover(After(es, false).rows);
    var s := After(es, false);
    forall i | 0 <= i < |s.rows| ensures StateFixesAttempts(s.rows[i]) {
      assert RowOk(s.rows[i], TimesOf(s.claims, s.rows[i].id), TimesOf(s.marks, s.rows[i].id));
    }
  }

  predicate StateFixesAttempts(d: Delivery) {
    match d.status
    case Pending => d.attempts == 0
    case Claimed => d.attempts <= 6
    case Failed => 1 <= d.attempts <= 6 && d.nextAttemptAt.Some?
    case Sent => 1 <= d.attempts <= 7 && d.sentAt.Some?
    case DeadLetter => d.attempts == 7
  }

  // ---- termination ----

  // Claims and marks a row can still cause.
  function Left(d: Delivery): int {
    if Terminal(d) then 0 else 2 * (7 - d.attempts) - (if d.status == Claimed then 1 else 0)
  }

  function Work(rows: seq<Delivery>): int {
    if rows == [] then 0 else Work(rows[..|rows| - 1]) + Left(rows[|rows| - 1])
  }

  lemma {:induction false} WorkReplaced(rows: seq<Delivery>, k: nat, d: Delivery)
    requires k < |rows|
    ensures Work(rows[k := d]) == Work(rows) - Left(rows[k]) + Left(d)
  {
    var n := |rows| - 1;
    if k < n {
      WorkReplaced(rows[..n], k, d);
      assert rows[k := d][..n] == rows[..n][k := d];
    } else {
      assert rows[k := d][..n] == rows[..n];
    }
  }

  lemma {:induction false} WorkPurged(rows: seq<Delivery>, cutoff: int)
    ensures Work(Purged(rows, cutoff)) == Work(rows)
  {
    if rows != [] {
      var pre, d := rows[..|rows| - 1], rows[|rows| - 1];
      WorkPurged(pre, cutoff);
      var kept := Purged(pre, cutoff);
      assert (kept + [d])[..|kept|] == kept;
    }
  }

  // A claim that succeeds or a dispatch that is marked.
  predicate Moving(s: System, e: Event) {
    (e.Claim? && e.worker !in s.held && CanClaim(s.rows, e.id, e.now)) || (e.Finish? && e.worker in s.held)
  }

  function Moves(es: seq<Event>): nat {
    if es == [] then 0
    else var pre := es[..|es| - 1];
         Moves(pre) + (if Moving(After(pre, false), es[|es| - 1]) then 1 else 0)
  }

  lemma ClaimWork(s: System, w: nat, id: nat, now: int)
    requires Inv(s) && w !in s.held && CanClaim(s.rows, id, now)
    ensures Work(Step(s, Claim(w, id, now), false).rows) == Work(s.rows) - 1
  {
    hide RowOk;
    var k := Find(s.rows, id);
    WorkReplaced(s.rows, k, s.rows[k].(status := Claimed));
  }

  lemma FinishWork(s: System, w: nat, error: Option<string>, now: int)
    requires Inv(s) && w in s.held
    ensures Work(Step(s, Finish(w, error, now), false).rows) <= Work(s.rows) - 1
  {
    hide RowOk, Work, MarkInMemory, Left;
    DistinctRows(s);
    var d := s.held[w];
    FindRow(s.rows, d);
    var k := Find(s.rows, d.id);
    RowIsOk(s, k);
    WorkReplaced(s.rows, k, MarkInMemory(d, Result(d, error), error, now));
    MarkLeavesLess(d, TimesOf(s.claims, d.id), TimesOf(s.marks, d.id), error, now);
  }

  lemma MarkLeavesLess(d: Delivery, claims: seq<int>, marks: seq<int>, error: Option<string>, now: int)
    requires d.status == Claimed && RowOk(d, claims, marks)
    ensures Left(MarkInMemory(d, Result(d, error), error, now)) < Left(d)
  {
    hide Backoff, Spaced;
  }

  lemma StepWork(s: System, e: Event)
    requires Inv(s)
    ensures Work(Step(s, e, false).rows) + (if Moving(s, e) then 1 else 0)
         <= Work(s.rows) + (if e.Enqueue? then 14 else 0)
  {
    hide Inv, Find;
    match e
    case Enqueue(_) => assert Step(s, e, false).rows[..|s.rows|] == s.rows;
    case Claim(w, id, now) => if Moving(s, e) { ClaimWork(s, w, id, now); }
    case Finish(w, error, now) => if Moving(s, e) { FinishWork(s, w, error, now); }
    case Crash(_, _) =>
    case Purge(cutoff, _) => WorkPurged(s.rows, cutoff);
  }

  lemma {:induction false} WorkIsSpent(es: seq<Event>)
    ensures Moves(es) + Work(After(es, false).rows) <= 14 * Enqueued(es)
  {
    if es != [] {
      hide Inv, Step, Moving, Work;
      var pre := es[..|es| - 1];
      WorkIsSpent(pre);
      ReachableInv(pre, false);
      StepWork(After(pre, false), es[|es| - 1]);
    }
  }

  lemma {:induction false} WorkIsNotNegative(s: System, rows: seq<Delivery>)
    requires Rows(s, rows)
    ensures Work(rows) >= 0
  {
    if rows != [] {
      WorkIsNotNegative(s, rows[..|rows| - 1]);
      var d := rows[|rows| - 1];
      assert RowOk(d, TimesOf(s.claims, d.id), TimesOf(s.marks, d.id));
    }
  }

  /** The protocol runs out of work: however the workers interleave, they make at
      most fourteen claims and marks per enqueued delivery. */
  lemma WorkIsBounded(es: seq<Event>)
    ensures Moves(es) <= 14 * Enqueued(es)
  {
    WorkIsSpent(es);
    ReachableInv(es, false);
    WorkIsNotNegative(After(es, false), After(es, false).rows);
  }

  // ---- one sweep is a run ----

  /** What the sweep loop does to a row is what an idle worker's claim and finish
      do to it in the protocol. */
  lemma SweepTurnIsARun(s: System, w: nat, id: nat, turn: Turn)
    requires Inv(s) && w !in s.held
    ensures var t := Step(Step(s, Claim(w, id, turn.claimAt), false), Finish(w, turn.error, turn.markAt), false);
            t.rows == WorkOne(s.rows, id, turn) && w !in t.held
  {
    hide Inv, RowOk;
    if CanClaim(s.rows, id, turn.claimAt) {
      var claimed := s.rows[Find(s.rows, id)].(status := Claimed);
      assert Step(s, Claim(w, id, turn.claimAt), false).held[w] == claimed;
    }
  }

  // The protocol steps of a worker that works through a batch alone.
  function Swept(s: System, w: nat, ids: seq<nat>, turns: seq<Turn>): System
    requires |ids| == |turns|
  {
    if ids == [] then s
    else var n := |ids| - 1;
         var pre := Swept(s, w, ids[..n], turns[..n]);
         Step(Step(pre, Claim(w, ids[n], turns[n].claimAt), false), Finish(w, turns[n].error, turns[n].markAt), false)
  }

  /** So a whole sweep, whatever batch it listed and however its dispatches go, is a
      run of the protocol and inherits every law above. */
  lemma {:induction false} SweepIsARun(s: System, w: nat, ids: seq<nat>, turns: seq<Turn>)
    requires Inv(s) && w !in s.held && |ids| == |turns|
    ensures var t := Swept(s, w, ids, turns);
            t.rows == WorkAll(s.rows, ids, turns) && w !in t.held && Inv(t)
  {
    if ids != [] {
      hide Inv, Step, WorkOne;
      var n := |ids| - 1;
      var pre := Swept(s, w, ids[..n], turns[..n]);
      SweepIsARun(s, w, ids[..n], turns[..n]);
      SweepTurnIsARun(pre, w, ids[n], turns[n]);
      var claim := Claim(w, ids[n], turns[n].claimAt);
      StepKeepsInv(pre, claim, false);
      StepKeepsInv(Step(pre, claim, false), Finish(w, turns[n].error, turns[n].markAt), false);
    }
  }
}
