/** Runs of the coalescer: probes, evaluations, background sweeps and purges in
    any order. */
module IncidentRuns {
  import opened Common
  import opened CheckResults
  import opened Incidents

  // An evaluator may read the windows of several targets first and apply them later,
  // one at a time, as the background sweep does. `Background` is a sweep during which
  // nothing else happens.
  datatype Event =
    | Record(r: CheckResult)                               // a result written without evaluation
    | Probe(r: CheckResult, maintenance: bool)             // the scheduler: record, then evaluate
    | Reevaluate(target: nat, maintenance: bool)
    | Background(targets: seq<nat>, maintained: set<nat>)
    | ReadWindows(reader: nat, targets: seq<nat>)
    | ApplyWindow(reader: nat, target: nat, maintenance: bool)
    | Purge(cutoff: int)

  // The windows each evaluator has read, by target.
  type Batches = map<nat, map<nat, seq<CheckResult>>>

  function WindowRead(read: Batches, reader: nat, target: nat): seq<CheckResult> {
    if reader in read && target in read[reader] then read[reader][target] else []
  }

  ghost function Probing(db: Db, r: CheckResult, maintenance: bool): Db {
    Evaluate(db.(results := RecordResult(db.results, r)), r.target, maintenance)
  }

  function Purging(db: Db, cutoff: int): Db { db.(results := DeleteOlder(db.results, cutoff)) }

  // Applying a window, whenever it was read; the open incident is looked up now.
  ghost function Applying(db: Db, target: nat, window: seq<CheckResult>, maintenance: bool): Db {
    if maintenance then db else Apply(db, target, window, FindOpen(db.incidents, target))
  }

  ghost function Step(db: Db, read: Batches, e: Event): Db {
    match e
    case Record(r) => db.(results := RecordResult(db.results, r))
    case Probe(r, m) => Probing(db, r, m)
    case Reevaluate(t, m) => Evaluate(db, t, m)
    case Background(ts, m) => Sweep(db, ts, m)
    case ReadWindows(_, _) => db
    case ApplyWindow(reader, t, m) => Applying(db, t, WindowRead(read, reader, t), m)
    case Purge(cutoff) => Purging(db, cutoff)
  }

  function Reading(db: Db, read: Batches, e: Event): Batches {
    if e.ReadWindows? then read[e.reader := map t | t in e.targets :: ListResults(db.results, t, LOOKBACK)] else read
  }

  const EMPTY := Db([], map[], 0)

  // The tables after a run.
  ghost function After(es: seq<Event>): Db
    decreases |es|
  {
    if es == [] then EMPTY
    else var pre := es[..|es| - 1];
         Step(After(pre), Read(pre), es[|es| - 1])
  }

  // The windows the evaluators hold after a run.
  ghost function Read(es: seq<Event>): Batches
    decreases |es|
  {
    if es == [] then map[]
    else var pre := es[..|es| - 1];
         Reading(After(pre), Read(pre), es[|es| - 1])
  }

  // ---- at most one open incident ----

  lemma {:induction false} SweepKeepsWf(db: Db, targets: seq<nat>, maintained: set<nat>)
    requires Wf(db)
    ensures Wf(Sweep(db, targets, maintained)) && Sweep(db, targets, maintained).results == db.results
  {
    if targets != [] {
      var last := targets[|targets| - 1];
      SweepKeepsWf(db, targets[..|targets| - 1], maintained);
      EvaluateEffect(Sweep(db, targets[..|targets| - 1], maintained), last, last in maintained);
    }
  }

  lemma StepKeepsWf(db: Db, read: Batches, e: Event)
    requires Wf(db)
    ensures Wf(Step(db, read, e))
  {
    match e
    case Record(r) =>
      RecordKeepsUnique(db.results, r);
    case Probe(r, m) =>
      RecordKeepsUnique(db.results, r);
      EvaluateEffect(db.(results := RecordResult(db.results, r)), r.target, m);
    case Reevaluate(t, m) =>
      EvaluateEffect(db, t, m);
    case Background(ts, m) =>
      SweepKeepsWf(db, ts, m);
    case ReadWindows(_, _) =>
    case ApplyWindow(reader, t, m) =>
      ApplyEffect(db, t, WindowRead(read, reader, t), FindOpen(db.incidents, t));
    case Purge(cutoff) =>
      PurgeElements(db.results, cutoff);
  }

  /** Whatever interleaving of probes, evaluations, sweeps and purges, and however old
      the windows that evaluators apply, no target ever has two open incidents. */
  lemma {:induction false} NeverTwoOpen(es: seq<Event>, target: nat)
    ensures Wf(After(es)) && |OpenIds(After(es).incidents, target)| <= 1
  {
    if es != [] {
      NeverTwoOpen(es[..|es| - 1], target);
      StepKeepsWf(After(es[..|es| - 1]), Read(es[..|es| - 1]), es[|es| - 1]);
    }
    var open := OpenIds(After(es).incidents, target);
    assert AtMostOne(After(es).incidents, target);
    if open != {} {
      var id :| id in open;
      assert open == {id};
    }
  }

  // ---- what one event does to one target ----

  // The event evaluates the target outside maintenance.
  predicate Evaluates(e: Event, target: nat) {
    match e
    case Record(_) => false
    case Probe(r, maintenance) => r.target == target && !maintenance
    case Reevaluate(t, maintenance) => t == target && !maintenance
    case Background(targets, maintained) => target in targets && target !in maintained
    case ReadWindows(_, _) => false
    case ApplyWindow(_, t, maintenance) => t == target && !maintenance
    case Purge(_) => false
  }

  // The window that an evaluating event sees: the one read earlier, or the current one.
  function WindowSeen(after: Db, read: Batches, e: Event, target: nat): seq<CheckResult> {
    if e.ApplyWindow? then WindowRead(read, e.reader, target) else ListResults(after.results, target, LOOKBACK)
  }

  // What an evaluation makes of a target, given the window it sees.
  predicate OpenAfter(window: seq<CheckResult>, was: bool) {
    if SameClass(window, true) then false else if SameClass(window, false) then true else was
  }

  lemma {:induction false} SweepOpens(db: Db, targets: seq<nat>, maintained: set<nat>, t: nat)
    requires Wf(db)
    ensures IsOpen(Sweep(db, targets, maintained), t)
       <==> if t in targets && t !in maintained
            then OpenAfter(ListResults(db.results, t, LOOKBACK), IsOpen(db, t)) else IsOpen(db, t)
  {
    if targets != [] {
      var pre, last := targets[..|targets| - 1], targets[|targets| - 1];
      assert targets == pre + [last];
      SweepOpens(db, pre, maintained, t);
      SweepKeepsWf(db, pre, maintained);
      hide ListResults;
      EvaluateEffect(Sweep(db, pre, maintained), last, last in maintained);
    }
  }

  lemma StepOpens(db: Db, read: Batches, e: Event, t: nat)
    requires Wf(db)
    ensures IsOpen(Step(db, read, e), t)
       <==> if Evaluates(e, t) then OpenAfter(WindowSeen(Step(db, read, e), read, e, t), IsOpen(db, t))
            else IsOpen(db, t)
  {
    hide ListResults, Evaluate, Sweep;
    match e
    case Record(_) =>
    case Probe(r, m) =>
      RecordKeepsUnique(db.results, r);
      EvaluateEffect(db.(results := RecordResult(db.results, r)), r.target, m);
    case Reevaluate(u, m) =>
      EvaluateEffect(db, u, m);
    case Background(ts, m) =>
      SweepOpens(db, ts, m, t);
      SweepKeepsWf(db, ts, m);
    case ReadWindows(_, _) =>
    case ApplyWindow(reader, u, m) =>
      ApplyEffect(db, u, WindowRead(read, reader, u), FindOpen(db.incidents, u));
    case Purge(_) =>
  }

  // ---- nothing new, nothing changes ----

  /** Evaluating again without new results changes nothing. */
  lemma ReevaluationIsIdle(db: Db, target: nat, m: bool, m': bool)
    requires Wf(db) && (m ==> m')
    ensures Evaluate(Evaluate(db, target, m), target, m') == Evaluate(db, target, m)
  {
    EvaluateEffect(db, target, m);
    EvaluateEffect(Evaluate(db, target, m), target, m');
  }

  /** A purge never causes a transition: whatever the evaluator would do after it,
      it would have done without it. */
  lemma PurgeCausesNothing(db: Db, target: nat, cutoff: int)
    ensures var purged := db.(results := DeleteOlder(db.results, cutoff));
            VerdictOf(purged, target) == VerdictOf(db, target) || VerdictOf(purged, target) == Keep
  {
    PurgeTruncatesHistory(db.results, target, cutoff);
  }

  // ---- the full-history automaton ----

  // What a target's run shows: a good or bad result, or a gap left by a purge of
  // everything it had recorded.
  datatype Observation = Seen(up: bool) | Gap

  function LastTime(es: seq<Event>, target: nat): Option<int> {
    if es == [] then None
    else var e := es[|es| - 1];
         if e.Probe? && e.r.target == target then Some(e.r.timestamp)
         else LastTime(es[..|es| - 1], target)
  }

  function Observed(es: seq<Event>, target: nat): seq<Observation> {
    if es == [] then []
    else var pre, e := es[..|es| - 1], es[|es| - 1];
         if e.Probe? && e.r.target == target then Observed(pre, target) + [Seen(e.r.status == Up)]
         else if e.Purge? && LastTime(pre, target).Some? && LastTime(pre, target).value < e.cutoff
         then Observed(pre, target) + [Gap]
         else Observed(pre, target)
  }

  predicate PairAt(h: seq<Observation>, i: nat, up: bool)
    requires i + 1 < |h|
  {
    h[i] == Seen(up) && h[i + 1] == Seen(up)
  }

  // The latest pair of equal adjacent observations is a bad one.
  ghost predicate LatestPairIsBad(h: seq<Observation>) {
    exists i :: 0 <= i && i + 1 < |h| && PairAt(h, i, false) && forall j :: i < j && j + 1 < |h| ==> !PairAt(h, j, true)
  }

  lemma LatestPairStep(h: seq<Observation>, o: Observation)
    ensures LatestPairIsBad(h + [o]) <==>
            if h != [] && o.Seen? && h[|h| - 1] == o then !o.up else LatestPairIsBad(h)
  {
    var h', n := h + [o], |h|;
    forall i, up | 0 <= i && i + 1 < n ensures PairAt(h', i, up) == PairAt(h, i, up) {
    }
    if h != [] && o.Seen? && h[n - 1] == o {
      assert PairAt(h', n - 1, o.up);
    } else {
      if LatestPairIsBad(h) {
        var i :| 0 <= i && i + 1 < |h| && PairAt(h, i, false)
                 && forall j :: i < j && j + 1 < |h| ==> !PairAt(h, j, true);
        assert PairAt(h', i, false);
        assert forall j :: i < j && j + 1 < |h'| ==> !PairAt(h', j, true);
      }
      if LatestPairIsBad(h') {
        var i :| 0 <= i && i + 1 < |h'| && PairAt(h', i, false)
                 && forall j :: i < j && j + 1 < |h'| ==> !PairAt(h', j, true);
        assert PairAt(h, i, false);
        assert forall j :: i < j && j + 1 < |h| ==> !PairAt(h, j, true) by {
          forall j | i < j && j + 1 < |h| ensures !PairAt(h, j, true) {
            assert !PairAt(h', j, true);
          }
        }
      }
    }
  }

  // Every result is evaluated when it is written, outside maintenance, and no window is
  // applied later than it is read.
  predicate Attended(es: seq<Event>) {
    forall i :: 0 <= i < |es| ==> !es[i].Record? && !es[i].ApplyWindow? && (es[i].Probe? ==> !es[i].maintenance)
  }

  ghost predicate TimesIncrease(es: seq<Event>) {
    forall i, j :: 0 <= i < j < |es| && es[i].Probe? && es[j].Probe? && es[i].r.target == es[j].r.target
      ==> es[i].r.timestamp < es[j].r.timestamp
  }

  // The table and the observations tell the same story about a target.
  ghost predicate Agrees(db: Db, target: nat, h: seq<Observation>, last: Option<int>) {
    var rs := History(db.results, target);
    && (IsOpen(db, target) <==> LatestPairIsBad(h))
    && (rs != [] ==> h != [] && h[|h| - 1] == Seen(rs[0].status == Up) && last == Some(rs[0].timestamp))
    && (rs == [] ==> h == [] || h[|h| - 1] == Gap)
    && (forall up :: SameClass(rs, up) ==> IsOpen(db, target) == !up)
    && NewestFirst(rs)
  }

  // A target on which the evaluator has nothing to do.
  lemma SettledMeansKeep(db: Db, target: nat)
    requires forall up :: SameClass(History(db.results, target), up) ==> IsOpen(db, target) == !up
    ensures VerdictOf(db, target) == Keep
  {
    var rs, w := History(db.results, target), ListResults(db.results, target, LOOKBACK);
    assert SameClass(w, true) ==> SameClass(rs, true);
    assert SameClass(w, false) ==> SameClass(rs, false);
  }

  lemma {:induction false} SweepOfSettled(db: Db, targets: seq<nat>, maintained: set<nat>)
    requires Wf(db) && forall t :: t in targets ==> VerdictOf(db, t) == Keep
    ensures Sweep(db, targets, maintained) == db
  {
    if targets != [] {
      SweepOfSettled(db, targets[..|targets| - 1], maintained);
      EvaluateEffect(db, targets[|targets| - 1], targets[|targets| - 1] in maintained);
    }
  }

  // Ten results are enough to see the newest pair.
  lemma WindowShowsPair(results: seq<CheckResult>, target: nat, up: bool)
    ensures SameClass(ListResults(results, target, LOOKBACK), up) <==> SameClass(History(results, target), up)
  {
    hide History;
  }

  // Recording a newer result and evaluating it.
  lemma ProbeEffect(db: Db, r: CheckResult)
    requires Wf(db) && Newer(r, History(db.results, r.target))
    ensures var after, rs := Probing(db, r, false), [r] + History(db.results, r.target);
            && History(after.results, r.target) == rs && NewestFirst(rs)
            && (IsOpen(after, r.target) <==> OpenAfter(rs, IsOpen(db, r.target)))
  {
    RecordNewest(db.results, r);
    RecordKeepsUnique(db.results, r);
    HistorySorted(db.results + [r], r.target);
    hide History, OpenIds, Wf, RecordResult, VerdictOf, ListResults, NewestFirst, Evaluate;
    EvaluateEffect(db.(results := db.results + [r]), r.target, false);
    StepOpens(db, map[], Probe(r, false), r.target);
    WindowShowsPair(db.results + [r], r.target, true);
    WindowShowsPair(db.results + [r], r.target, false);
  }

  lemma ProbeAgrees(db: Db, r: CheckResult, h: seq<Observation>, last: Option<int>)
    requires Wf(db) && Agrees(db, r.target, h, last)
    requires last.Some? ==> last.value < r.timestamp
    ensures Agrees(Probing(db, r, false), r.target, h + [Seen(r.status == Up)], Some(r.timestamp))
  {
    hide LatestPairIsBad, History, IsOpen, Probing, Wf;
    var rs := History(db.results, r.target);
    forall x | x in rs ensures x.timestamp < r.timestamp {
      assert x.timestamp <= rs[0].timestamp;
    }
    ProbeEffect(db, r);
    LatestPairStep(h, Seen(r.status == Up));
  }

  lemma OtherProbeAgrees(db: Db, r: CheckResult, target: nat, h: seq<Observation>, last: Option<int>)
    requires Wf(db) && target != r.target && Agrees(db, target, h, last)
    requires Newer(r, History(db.results, r.target))
    ensures Agrees(Probing(db, r, false), target, h, last)
  {
    RecordNewest(db.results, r);
    RecordKeepsUnique(db.results, r);
    EvaluateEffect(db.(results := db.results + [r]), r.target, false);
  }

  lemma PurgeAgrees(db: Db, cutoff: int, target: nat, h: seq<Observation>, last: Option<int>)
    requires Wf(db) && Agrees(db, target, h, last)
    ensures Agrees(Purging(db, cutoff), target,
                   if last.Some? && last.value < cutoff then h + [Gap] else h, last)
  {
    PurgeTruncatesHistory(db.results, target, cutoff);
    LatestPairStep(h, Gap);
    var rs := History(db.results, target);
    var kept := rs[..KeptCount(rs, cutoff)];
    if last.Some? && last.value < cutoff {
      assert kept == [];
    } else {
      assert rs != [] ==> kept[0] == rs[0];
    }
    assert forall up :: SameClass(kept, up) ==> SameClass(rs, up);
    assert IsOpen(Purging(db, cutoff), target) == IsOpen(db, target);
  }

  lemma {:induction false} LastTimeBelow(es: seq<Event>, r: CheckResult, m: bool)
    requires TimesIncrease(es + [Probe(r, m)])
    ensures LastTime(es, r.target).Some? ==> LastTime(es, r.target).value < r.timestamp
  {
    if es != [] {
      var pre, e, whole := es[..|es| - 1], es[|es| - 1], es + [Probe(r, m)];
      if e.Probe? && e.r.target == r.target {
        assert whole[|es| - 1] == e && whole[|es|] == Probe(r, m);
      } else {
        var cut := pre + [Probe(r, m)];
        forall i, j | 0 <= i < j < |cut| && cut[i].Probe? && cut[j].Probe? && cut[i].r.target == cut[j].r.target
          ensures cut[i].r.timestamp < cut[j].r.timestamp
        {
          assert whole[i] == cut[i] && whole[if j == |pre| then |es| else j] == cut[j];
        }
        LastTimeBelow(pre, r, m);
      }
    }
  }

  ghost predicate AgreesAfter(es: seq<Event>, target: nat) {
    Agrees(After(es), target, Observed(es, target), LastTime(es, target))
  }

  lemma ProbeStep(pre: seq<Event>, r: CheckResult, target: nat)
    requires TimesIncrease(pre + [Probe(r, false)])
    requires Wf(After(pre)) && AgreesAfter(pre, target) && AgreesAfter(pre, r.target)
    ensures AgreesAfter(pre + [Probe(r, false)], target)
  {
    hide Wf;
    var es, db := pre + [Probe(r, false)], After(pre);
    assert es[..|es| - 1] == pre;
    LastTimeBelow(pre, r, false);
    if r.target == target {
      ProbeAgrees(db, r, Observed(pre, target), LastTime(pre, target));
    } else {
      var rs := History(db.results, r.target);
      forall x | x in rs ensures x.timestamp < r.timestamp {
        assert x.timestamp <= rs[0].timestamp;
      }
      OtherProbeAgrees(db, r, target, Observed(pre, target), LastTime(pre, target));
    }
  }

  lemma PurgeStep(pre: seq<Event>, cutoff: int, target: nat)
    requires Wf(After(pre)) && AgreesAfter(pre, target)
    ensures AgreesAfter(pre + [Purge(cutoff)], target)
  {
    var es := pre + [Purge(cutoff)];
    assert es[..|es| - 1] == pre;
    PurgeAgrees(After(pre), cutoff, target, Observed(pre, target), LastTime(pre, target));
  }

  lemma IdleEvent(db: Db, read: Batches, e: Event)
    requires Wf(db) && (e.Reevaluate? || e.Background? || e.ReadWindows?) && forall t :: VerdictOf(db, t) == Keep
    ensures Step(db, read, e) == db
  {
    hide VerdictOf;
    if e.Background? {
      SweepOfSettled(db, e.targets, e.maintained);
    } else if e.Reevaluate? {
      EvaluateEffect(db, e.target, e.maintenance);
    }
  }

  lemma IdleStep(pre: seq<Event>, e: Event, target: nat)
    requires e.Reevaluate? || e.Background? || e.ReadWindows?
    requires Wf(After(pre)) && AgreesAfter(pre, target) && forall t :: AgreesAfter(pre, t)
    ensures AgreesAfter(pre + [e], target)
  {
    var es, db := pre + [e], After(pre);
    assert es[..|es| - 1] == pre;
    forall t ensures VerdictOf(db, t) == Keep {
      assert AgreesAfter(pre, t);
      SettledMeansKeep(db, t);
    }
    hide Step, VerdictOf, Agrees, Wf;
    IdleEvent(db, Read(pre), e);
  }

  lemma {:induction false} AllAgree(es: seq<Event>, target: nat)
    requires Attended(es) && TimesIncrease(es)
    ensures AgreesAfter(es, target)
    decreases |es|
  {
    if es == [] {
      assert !LatestPairIsBad([]);
    } else {
      hide AgreesAfter, Step, Wf;
      var pre, e := es[..|es| - 1], es[|es| - 1];
      assert es == pre + [e];
      NeverTwoOpen(pre, target);
      forall t ensures AgreesAfter(pre, t) {
        AllAgree(pre, t);
      }
      if e.Probe? {
        ProbeStep(pre, e.r, target);
      } else if e.Purge? {
        PurgeStep(pre, e.cutoff, target);
      } else {
        IdleStep(pre, e, target);
      }
    }
  }

  /** Hysteresis: although an evaluation reads ten results, a target has an open
      incident exactly when the latest equal adjacent pair in its whole history is
      a bad one. Probes of other targets, sweeps and purges may interleave; only a
      purge of all of a target's results shows, as a gap that breaks a pair. */
  lemma OpenIffLatestPairIsBad(es: seq<Event>, target: nat)
    requires Attended(es) && TimesIncrease(es)
    ensures IsOpen(After(es), target) <==> LatestPairIsBad(Observed(es, target))
  {
    AllAgree(es, target);
  }

  // ---- every run, attended or not ----

  // The class of the last pair of equal newest results that an evaluation saw.
  ghost function LastPairSeen(es: seq<Event>, target: nat): Option<bool> {
    if es == [] then None
    else var window := WindowSeen(After(es), Read(es[..|es| - 1]), es[|es| - 1], target);
         if Evaluates(es[|es| - 1], target) && SameClass(window, true) then Some(true)
         else if Evaluates(es[|es| - 1], target) && SameClass(window, false) then Some(false)
         else LastPairSeen(es[..|es| - 1], target)
  }

  /** On every run whatsoever, with results written but not evaluated, replaced or out
      of order, maintenance, purges, and evaluators that apply windows read earlier: a
      target has an open incident exactly when the last evaluation outside maintenance
      that saw two equal newest results saw two bad ones. */
  lemma {:induction false} OpenIffLastPairSeenIsBad(es: seq<Event>, target: nat)
    ensures IsOpen(After(es), target) <==> LastPairSeen(es, target) == Some(false)
  {
    if es != [] {
      hide ListResults, Step;
      OpenIffLastPairSeenIsBad(es[..|es| - 1], target);
      NeverTwoOpen(es[..|es| - 1], target);
      StepOpens(After(es[..|es| - 1]), Read(es[..|es| - 1]), es[|es| - 1], target);
    }
  }

  // ---- closed incidents ----

  lemma ApplyKeepsClosed(db: Db, target: nat, window: seq<CheckResult>, id: nat)
    requires Wf(db) && id in db.incidents && db.incidents[id].endedAt.Some?
    ensures var after := Apply(db, target, window, FindOpen(db.incidents, target));
            Wf(after) && id in after.incidents && after.incidents[id] == db.incidents[id]
  {
    ApplyEffect(db, target, window, FindOpen(db.incidents, target));
  }

  lemma {:induction false} SweepKeepsClosed(db: Db, targets: seq<nat>, maintained: set<nat>, id: nat)
    requires Wf(db) && id in db.incidents && db.incidents[id].endedAt.Some?
    ensures var after := Sweep(db, targets, maintained);
            Wf(after) && id in after.incidents && after.incidents[id] == db.incidents[id]
  {
    if targets != [] {
      hide ListResults, Apply, Wf;
      var pre, last := targets[..|targets| - 1], targets[|targets| - 1];
      SweepKeepsClosed(db, pre, maintained, id);
      var mid := Sweep(db, pre, maintained);
      ApplyKeepsClosed(mid, last, ListResults(mid.results, last, LOOKBACK), id);
    }
  }

  lemma StepKeepsClosed(db: Db, read: Batches, e: Event, id: nat)
    requires Wf(db) && id in db.incidents && db.incidents[id].endedAt.Some?
    ensures id in Step(db, read, e).incidents && Step(db, read, e).incidents[id] == db.incidents[id]
  {
    hide ListResults, Apply, Wf;
    match e
    case Record(_) =>
    case Probe(r, _) =>
      RecordedWf(db, r);
      var recorded := db.(results := RecordResult(db.results, r));
      ApplyKeepsClosed(recorded, r.target, ListResults(recorded.results, r.target, LOOKBACK), id);
    case Reevaluate(t, _) =>
      ApplyKeepsClosed(db, t, ListResults(db.results, t, LOOKBACK), id);
    case Background(ts, m) =>
      SweepKeepsClosed(db, ts, m, id);
    case ReadWindows(_, _) =>
    case ApplyWindow(reader, t, _) =>
      ApplyKeepsClosed(db, t, WindowRead(read, reader, t), id);
    case Purge(_) =>
  }

  lemma RecordedWf(db: Db, r: CheckResult)
    requires Wf(db)
    ensures Wf(db.(results := RecordResult(db.results, r)))
  {
    RecordKeepsUnique(db.results, r);
  }

  /** No run changes a closed incident again. */
  lemma {:induction false} ClosedIncidentsStay(es: seq<Event>, n: nat, id: nat)
    requires n <= |es| && id in After(es[..n]).incidents && After(es[..n]).incidents[id].endedAt.Some?
    ensures id in After(es).incidents && After(es).incidents[id] == After(es[..n]).incidents[id]
    decreases |es|
  {
    if n == |es| {
      assert es[..n] == es;
    } else {
      hide Step;
      var pre := es[..|es| - 1];
      assert pre[..n] == es[..n];
      ClosedIncidentsStay(pre, n, id);
      NeverTwoOpen(pre, 0);
      StepKeepsClosed(After(pre), Read(pre), es[|es| - 1], id);
    }
  }
}
