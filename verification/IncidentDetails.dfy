/** What the coalescer's incidents contain, and what a sweep does as a whole. */
module IncidentDetails {
  import opened Common
  import opened CheckResults
  import opened Incidents
  import opened IncidentRuns

  function Window(db: Db, target: nat): seq<CheckResult> { ListResults(db.results, target, LOOKBACK) }

  lemma WindowShape(db: Db, target: nat)
    requires Wf(db)
    ensures NewestFirst(Window(db, target)) && |Window(db, target)| <= LOOKBACK
    ensures forall up :: Run(Window(db, target), up) >= FLAP_THRESHOLD <==> SameClass(Window(db, target), up)
  {
    HistorySorted(db.results, target);
    RunOfTwo(Window(db, target), true);
    RunOfTwo(Window(db, target), false);
  }

  /** A window is the ten newest results of the target: a result is left out only of a
      full window, all of whose results are newer. */
  lemma WindowIsTenNewest(db: Db, target: nat, r: CheckResult)
    requires Wf(db)
    ensures var w := Window(db, target);
            && NewestFirst(w) && |w| <= 10
            && (r in w ==> r in db.results && r.target == target)
            && (r in db.results && r.target == target && r !in w
                ==> |w| == 10 && forall x :: x in w ==> x.timestamp > r.timestamp)
  {
    HistorySorted(db.results, target);
    HistoryElements(db.results, target, r);
    hide History;
    var rs := History(db.results, target);
    if r in rs {
      var i :| 0 <= i < |rs| && rs[i] == r;
    }
  }

  // The oldest result of a class lies at the start of the newest run exactly when
  // the window holds no earlier result of that class.
  lemma OldestVersusRun(window: seq<CheckResult>, up: bool)
    requires NewestFirst(window) && Run(window, up) >= 1
    ensures Is(window[0], up)
    ensures window[Oldest(window, up)].timestamp <= window[Run(window, up) - 1].timestamp
    ensures window[Oldest(window, up)].timestamp == window[Run(window, up) - 1].timestamp
       <==> forall i :: Run(window, up) <= i < |window| ==> !Is(window[i], up)
  {
    var k, n := Oldest(window, up), Run(window, up);
    assert Is(window[n - 1], up);
    assert k >= n - 1;
  }

  /** An automatically opened incident counts between two and ten failing checks
      and starts no later than the outage; it starts exactly with the outage if and
      only if the window shows no earlier failure. */
  lemma OpenedIncident(db: Db, target: nat)
    requires Wf(db) && VerdictOf(db, target) == OpenNew
    ensures Run(Window(db, target), false) >= FLAP_THRESHOLD
    ensures var w, after := Window(db, target), Evaluate(db, target, false);
            var outage, i := w[Run(w, false) - 1], Draft(target, w);
            && after.incidents == db.incidents[db.nextId := i]
            && i.target == target && i.endedAt.None?
            && 2 <= i.checkCount <= 10
            && (forall k :: 0 <= k < i.checkCount ==> Is(w[k], false))
            && (i.checkCount < |w| ==> Is(w[i.checkCount], true))
            && (exists k :: 0 <= k < |w| && Is(w[k], false) && w[k].timestamp == i.startedAt && w[k].status == i.status)
            && i.startedAt <= outage.timestamp
            && (i.startedAt == outage.timestamp <==> forall k :: Run(w, false) <= k < |w| ==> Is(w[k], true))
  {
    WindowShape(db, target);
    OldestVersusRun(Window(db, target), false);
    ApplyEffect(db, target, Window(db, target), FindOpen(db.incidents, target));
  }

  /** An automatically closed incident ends at the oldest good result of the
      window. That is the recovery if and only if the window shows no earlier good
      result, and it precedes the incident's start, giving a duration of zero, if
      and only if the window still shows a good result from before the incident. */
  lemma ClosedIncident(db: Db, target: nat, id: nat)
    requires Wf(db) && VerdictOf(db, target) == CloseIt && id in OpenIds(db.incidents, target)
    ensures Run(Window(db, target), true) >= FLAP_THRESHOLD
    ensures var w, after, was := Window(db, target), Evaluate(db, target, false), db.incidents[id];
            var recovery, i := w[Run(w, true) - 1], Closed(was, w);
            && after.incidents == db.incidents[id := i]
            && i == was.(endedAt := i.endedAt, durationSecs := i.durationSecs)
            && i.endedAt.Some? && i.endedAt.value <= recovery.timestamp
            && (i.endedAt.value == recovery.timestamp <==> forall k :: Run(w, true) <= k < |w| ==> Is(w[k], false))
            && (i.endedAt.value < was.startedAt <==>
                exists k :: 0 <= k < |w| && Is(w[k], true) && w[k].timestamp < was.startedAt)
            && i.durationSecs.Some? && IsSeconds(i.durationSecs.value, was.startedAt, i.endedAt.value)
  {
    assert id in db.incidents;
    hide ListResults, Wf, OpenIds, Evaluate, Run, Oldest, DurationSecs;
    WindowShape(db, target);
    OldestVersusRun(Window(db, target), true);
    EarliestOfClass(Window(db, target), true, db.incidents[id].startedAt);
    ClosingEvaluation(db, target, id);
    DurationIsSeconds(db.incidents[id].startedAt, Window(db, target)[Oldest(Window(db, target), true)].timestamp);
  }

  // Whole seconds between two times in nanoseconds, none if the second comes first.
  predicate IsSeconds(d: nat, started: int, ended: int) {
    if ended < started then d == 0 else d * 1_000_000_000 <= ended - started < (d + 1) * 1_000_000_000
  }

  lemma DurationIsSeconds(started: int, ended: int)
    ensures IsSeconds(DurationSecs(started, ended), started, ended)
  {
  }

  lemma EarliestOfClass(window: seq<CheckResult>, up: bool, bound: int)
    requires NewestFirst(window) && exists i :: 0 <= i < |window| && Is(window[i], up)
    ensures window[Oldest(window, up)].timestamp < bound
       <==> exists k :: 0 <= k < |window| && Is(window[k], up) && window[k].timestamp < bound
  {
    assert Is(window[Oldest(window, up)], up);
  }

  lemma ClosingEvaluation(db: Db, target: nat, id: nat)
    requires Wf(db) && VerdictOf(db, target) == CloseIt && id in OpenIds(db.incidents, target)
    ensures Run(Window(db, target), true) >= FLAP_THRESHOLD
    ensures Evaluate(db, target, false).incidents == db.incidents[id := Closed(db.incidents[id], Window(db, target))]
  {
    FoundIsUnique(db.incidents, target, FindOpen(db.incidents, target), Some(id));
    ApplyEffect(db, target, Window(db, target), FindOpen(db.incidents, target));
  }

  // ---- a sweep as a whole ----

  // The incident a sweep leaves under an identifier that existed before it.
  function Expected(db: Db, id: nat, touched: set<nat>): Incident
    requires id in db.incidents
  {
    var i := db.incidents[id];
    var w := Window(db, i.target);
    if i.target in touched && i.endedAt.None? && Run(w, true) >= FLAP_THRESHOLD then Closed(i, w) else i
  }

  // The result of evaluating each target of a set once, in no particular order.
  ghost predicate SweptTo(db: Db, after: Db, touched: set<nat>) {
    && after.results == db.results
    && (forall id :: id in db.incidents ==> id in after.incidents && after.incidents[id] == Expected(db, id, touched))
    && (forall id :: id in after.incidents && id !in db.incidents ==> IsDraft(db, after.incidents[id], touched))
    && (forall t :: t in touched && VerdictOf(db, t) == OpenNew ==> Opened(db, after, t))
  }

  ghost predicate IsDraft(db: Db, i: Incident, touched: set<nat>) {
    && i.target in touched && VerdictOf(db, i.target) == OpenNew
    && Run(Window(db, i.target), false) >= FLAP_THRESHOLD
    && i == Draft(i.target, Window(db, i.target))
  }

  ghost predicate Opened(db: Db, after: Db, t: nat) {
    exists id :: id in after.incidents && id !in db.incidents && after.incidents[id].target == t
  }

  function Touched(targets: seq<nat>, maintained: set<nat>): set<nat> {
    (set t | t in targets) - maintained
  }

  ghost predicate CanStep(db: Db, mid: Db, touched: set<nat>, t: nat) {
    && Wf(db) && Wf(mid) && SweptTo(db, mid, touched) && t !in touched
    && OpenIds(mid.incidents, t) == OpenIds(db.incidents, t)
  }

  lemma SameVerdict(db: Db, mid: Db, t: nat)
    requires mid.results == db.results && OpenIds(mid.incidents, t) == OpenIds(db.incidents, t)
    ensures VerdictOf(mid, t) == VerdictOf(db, t)
  {
  }

  lemma StillOpened(db: Db, mid: Db, after: Db, touched: set<nat>)
    requires forall t :: t in touched && VerdictOf(db, t) == OpenNew ==> Opened(db, mid, t)
    requires forall id :: id in mid.incidents
                          ==> id in after.incidents && after.incidents[id].target == mid.incidents[id].target
    ensures forall t :: t in touched && VerdictOf(db, t) == OpenNew ==> Opened(db, after, t)
  {
    hide VerdictOf;
    forall t | t in touched && VerdictOf(db, t) == OpenNew ensures Opened(db, after, t) {
      var id :| id in mid.incidents && id !in db.incidents && mid.incidents[id].target == t;
      assert id in after.incidents && after.incidents[id].target == t;
    }
  }

  // Which existing incidents an evaluation of t must close.
  lemma ExpectedStep(db: Db, touched: set<nat>, t: nat, x: nat)
    requires Wf(db) && x in db.incidents && t !in touched
    ensures Expected(db, x, touched + {t})
         == if x in OpenIds(db.incidents, t) && VerdictOf(db, t) == CloseIt
            then (RunOfTwo(Window(db, t), true); Closed(db.incidents[x], Window(db, t))) else Expected(db, x, touched)
  {
    hide Closed, ListResults, Wf, Run;
    var w := Window(db, t);
    RunOfTwo(w, true);
    if db.incidents[x].target == t && db.incidents[x].endedAt.None? {
      assert x in OpenIds(db.incidents, t);
      assert !(SameClass(w, true) && SameClass(w, false));
      assert VerdictOf(db, t) == CloseIt <==> SameClass(w, true);
    } else {
      assert x !in OpenIds(db.incidents, t);
    }
  }

  lemma SweptOpening(db: Db, mid: Db, touched: set<nat>, t: nat)
    requires CanStep(db, mid, touched, t) && VerdictOf(db, t) == OpenNew
    ensures SweptTo(db, Evaluate(mid, t, false), touched + {t})
  {
    hide Evaluate, Draft, Closed, VerdictOf, ListResults, Expected;
    var after := Evaluate(mid, t, false);
    SameVerdict(db, mid, t);
    EvaluateEffect(mid, t, false);
    OpenedIncident(mid, t);
    assert mid.nextId !in db.incidents && mid.nextId !in mid.incidents;
    assert Opened(db, after, t) by { assert after.incidents[mid.nextId].target == t; }
    StillOpened(db, mid, after, touched);
    forall x | x in db.incidents ensures after.incidents[x] == Expected(db, x, touched + {t}) {
      ExpectedStep(db, touched, t, x);
    }
  }

  lemma SweptClosing(db: Db, mid: Db, touched: set<nat>, t: nat)
    requires CanStep(db, mid, touched, t) && VerdictOf(db, t) == CloseIt
    ensures SweptTo(db, Evaluate(mid, t, false), touched + {t})
  {
    hide Evaluate, Draft, VerdictOf, ListResults;
    var after := Evaluate(mid, t, false);
    SameVerdict(db, mid, t);
    EvaluateEffect(mid, t, false);
    var id :| id in OpenIds(mid.incidents, t);
    ClosingEvaluation(mid, t, id);
    StillOpened(db, mid, after, touched);
    assert AtMostOne(db.incidents, t);
    forall x | x in db.incidents ensures after.incidents[x] == Expected(db, x, touched + {t}) {
      ExpectedStep(db, touched, t, x);
      assert x in OpenIds(db.incidents, t) <==> x == id;
    }
  }

  lemma SweptKeeping(db: Db, mid: Db, touched: set<nat>, t: nat)
    requires CanStep(db, mid, touched, t) && VerdictOf(db, t) == Keep
    ensures SweptTo(db, Evaluate(mid, t, false), touched + {t})
  {
    hide Evaluate, Draft, Closed, VerdictOf, ListResults, Expected;
    SameVerdict(db, mid, t);
    EvaluateEffect(mid, t, false);
    forall x | x in db.incidents ensures mid.incidents[x] == Expected(db, x, touched + {t}) {
      ExpectedStep(db, touched, t, x);
    }
  }

  lemma {:induction false} SweepIsLocal(db: Db, targets: seq<nat>, maintained: set<nat>, t: nat)
    requires Wf(db) && t !in Touched(targets, maintained)
    ensures OpenIds(Sweep(db, targets, maintained).incidents, t) == OpenIds(db.incidents, t)
  {
    if targets != [] {
      var pre, last := targets[..|targets| - 1], targets[|targets| - 1];
      assert last in targets && forall u :: u in pre ==> u in targets;
      SweepIsLocal(db, pre, maintained, t);
      SweepKeepsWf(db, pre, maintained);
      EvaluateEffect(Sweep(db, pre, maintained), last, last in maintained);
    }
  }

  /** A sweep over distinct targets does to each of them what a single evaluation
      of the starting tables would do, and nothing else. */
  lemma {:induction false} SweepEffect(db: Db, targets: seq<nat>, maintained: set<nat>)
    requires Wf(db) && forall i, j :: 0 <= i < j < |targets| ==> targets[i] != targets[j]
    ensures SweptTo(db, Sweep(db, targets, maintained), Touched(targets, maintained))
  {
    if targets != [] {
      var pre, last := targets[..|targets| - 1], targets[|targets| - 1];
      SweepEffect(db, pre, maintained);
      SweepKeepsWf(db, pre, maintained);
      assert targets == pre + [last];
      if last in maintained {
        assert Touched(targets, maintained) == Touched(pre, maintained);
      } else {
        assert Touched(targets, maintained) == Touched(pre, maintained) + {last};
        SweepIsLocal(db, pre, maintained, last);
        var mid, touched := Sweep(db, pre, maintained), Touched(pre, maintained);
        match VerdictOf(db, last)
        case OpenNew => SweptOpening(db, mid, touched, last);
        case CloseIt => SweptClosing(db, mid, touched, last);
        case Keep => SweptKeeping(db, mid, touched, last);
      }
    }
  }

  /** Up to the choice of fresh identifiers, the order in which a sweep visits the
      targets does not matter. */
  lemma SweepOrderIsIrrelevant(db: Db, ts: seq<nat>, us: seq<nat>, maintained: set<nat>, id: nat)
    requires Wf(db) && multiset(ts) == multiset(us)
    requires forall i, j :: 0 <= i < j < |ts| ==> ts[i] != ts[j]
    requires forall i, j :: 0 <= i < j < |us| ==> us[i] != us[j]
    ensures var a, b := Sweep(db, ts, maintained), Sweep(db, us, maintained);
            && a.results == b.results
            && (id in db.incidents ==> id in a.incidents && id in b.incidents && a.incidents[id] == b.incidents[id])
            && (id in a.incidents && id !in db.incidents ==>
                  exists k :: k in b.incidents && k !in db.incidents && b.incidents[k] == a.incidents[id])
  {
    SweepEffect(db, ts, maintained);
    SweepEffect(db, us, maintained);
    forall t ensures t in ts <==> t in us {
      assert t in ts <==> t in multiset(ts);
      assert t in us <==> t in multiset(us);
    }
    assert Touched(ts, maintained) == Touched(us, maintained);
    var a, b := Sweep(db, ts, maintained), Sweep(db, us, maintained);
    if id in a.incidents && id !in db.incidents {
      var t := a.incidents[id].target;
      assert IsDraft(db, a.incidents[id], Touched(ts, maintained));
      assert Opened(db, b, t);
      var k :| k in b.incidents && k !in db.incidents && b.incidents[k].target == t;
      assert IsDraft(db, b.incidents[k], Touched(us, maintained));
    }
  }

  // ---- a recorded outage, step by step ----

  lemma ProbeOnce(db: Db, r: CheckResult, rs: seq<CheckResult>)
    requires Wf(db) && History(db.results, r.target) == rs && Newer(r, rs)
    ensures var recorded, after := db.(results := db.results + [r]), Probing(db, r, false);
            && Wf(recorded) && Wf(after) && after.results == recorded.results
            && History(after.results, r.target) == [r] + rs
            && after == Evaluate(recorded, r.target, false)
            && OpenIds(recorded.incidents, r.target) == OpenIds(db.incidents, r.target)
            && (VerdictOf(recorded, r.target) == Keep ==> after.incidents == db.incidents && after.nextId == db.nextId)
  {
    RecordNewest(db.results, r);
    RecordKeepsUnique(db.results, r);
    EvaluateEffect(db.(results := db.results + [r]), r.target, false);
  }

  function Sample(t: nat, at: int, status: CheckStatus): CheckResult { CheckResult(t, at, status, 0) }

  function Probed(t: nat, at: int, status: CheckStatus): Event { Probe(Sample(t, at, status), false) }

  lemma ProbedOnce(es: seq<Event>, r: CheckResult, rs: seq<CheckResult>)
    requires Wf(After(es)) && History(After(es).results, r.target) == rs && Newer(r, rs)
    ensures var es', recorded := es + [Probe(r, false)], After(es).(results := After(es).results + [r]);
            && Wf(After(es')) && History(After(es').results, r.target) == [r] + rs && Read(es') == Read(es)
            && Wf(recorded) && History(recorded.results, r.target) == [r] + rs
            && After(es') == Evaluate(recorded, r.target, false)
            && (VerdictOf(recorded, r.target) == Keep ==> After(es').incidents == After(es).incidents
                                                          && After(es').nextId == After(es).nextId)
  {
    hide History, Probing, Wf, Evaluate, VerdictOf;
    Extend(es, Probe(r, false));
    ProbeOnce(After(es), r, rs);
  }

  // After one result nothing is open.
  lemma QuietStart(t: nat, status: CheckStatus)
    ensures var db := After([Probed(t, 1, status)]);
            && Wf(db) && db.incidents == map[] && db.nextId == 0
            && History(db.results, t) == [Sample(t, 1, status)]
  {
    hide History, After, Read, Wf, Evaluate;
    var p, r := Probed(t, 1, status), Sample(t, 1, status);
    EmptyHistory(t);
    ProbedOnce([], r, []);
    assert [] + [p] == [p] && [r] + [] == [r];
  }

  lemma OutageBegins(t: nat)
    ensures var db := After([Probed(t, 1, Up), Probed(t, 2, Down), Probed(t, 3, Down)]);
            && Wf(db) && db.incidents == map[0 := Incident(t, 2, None, Down, None, 2)]
            && History(db.results, t) == [Sample(t, 3, Down), Sample(t, 2, Down), Sample(t, 1, Up)]
  {
    hide History, After, Read, Wf, Evaluate;
    var r1, r2, r3 := Sample(t, 1, Up), Sample(t, 2, Down), Sample(t, 3, Down);
    var p1, p2, p3 := Probe(r1, false), Probe(r2, false), Probe(r3, false);
    QuietStart(t, Up);
    ProbedOnce([p1], r2, [r1]);
    assert [p1] + [p2] == [p1, p2] && [r2] + [r1] == [r2, r1];
    ProbedOnce([p1, p2], r3, [r2, r1]);
    assert [p1, p2] + [p3] == [p1, p2, p3] && [r3] + [r2, r1] == [r3, r2, r1];
    var d2 := After([p1, p2]);
    OpenedIncident(d2.(results := d2.results + [r3]), t);
    assert Run([r3, r2, r1], false) == 2 && Oldest([r3, r2, r1], false) == 1;
  }

  lemma EmptyHistory(t: nat)
    ensures After([]) == EMPTY && History(EMPTY.results, t) == [] && Wf(EMPTY)
  {
  }

  lemma Extend(es: seq<Event>, e: Event)
    ensures After(es + [e]) == Step(After(es), Read(es), e) && Read(es + [e]) == Reading(After(es), Read(es), e)
  {
    assert (es + [e])[..|es|] == es;
  }

  // The incident is still open after one good result.
  lemma OutageContinues(db: Db, t: nat, i: Incident)
    requires Wf(db) && db.incidents == map[0 := i] && i.target == t && i.endedAt.None?
    requires History(db.results, t) == [Sample(t, 3, Down), Sample(t, 2, Down), Sample(t, 1, Up)]
    ensures var after := Probing(db, Sample(t, 4, Up), false);
            && Wf(after) && after.incidents == db.incidents
            && History(after.results, t) == [Sample(t, 4, Up), Sample(t, 3, Down), Sample(t, 2, Down), Sample(t, 1, Up)]
  {
    hide History, Evaluate, Probing;
    var r1, r2, r3, r4 := Sample(t, 1, Up), Sample(t, 2, Down), Sample(t, 3, Down), Sample(t, 4, Up);
    ProbeOnce(db, r4, [r3, r2, r1]);
    assert [r4] + [r3, r2, r1] == [r4, r3, r2, r1];
    assert 0 in OpenIds(db.incidents, t);
  }

  // The second good result closes it, at the good result before the outage.
  lemma OutageRecovers(db: Db, t: nat, i: Incident)
    requires Wf(db) && db.incidents == map[0 := i] && i.target == t && i.endedAt.None? && i.startedAt == 2
    requires History(db.results, t) == [Sample(t, 4, Up), Sample(t, 3, Down), Sample(t, 2, Down), Sample(t, 1, Up)]
    ensures Probing(db, Sample(t, 5, Up), false).incidents == map[0 := i.(endedAt := Some(1), durationSecs := Some(0))]
  {
    hide History, Evaluate, Probing;
    var r1, r2, r3 := Sample(t, 1, Up), Sample(t, 2, Down), Sample(t, 3, Down);
    var r4, r5 := Sample(t, 4, Up), Sample(t, 5, Up);
    ProbeOnce(db, r5, [r4, r3, r2, r1]);
    assert [r5] + [r4, r3, r2, r1] == [r5, r4, r3, r2, r1];
    var recorded := db.(results := db.results + [r5]);
    assert Window(recorded, t) == [r5, r4, r3, r2, r1];
    assert 0 in OpenIds(recorded.incidents, t);
    ClosingEvaluation(recorded, t, 0);
    assert Oldest([r5, r4, r3, r2, r1], true) == 4;
  }

  /** An outage of 300.5 s that starts with the first check is recorded as 300 s. */
  lemma OutageLastsFiveMinutes(t: nat)
    ensures After([Probed(t, 0, Down), Probed(t, 1_000_000_000, Down),
                   Probed(t, 300_500_000_000, Up), Probed(t, 301_000_000_000, Up)]).incidents
         == map[0 := Incident(t, 0, Some(300_500_000_000), Down, Some(300), 2)]
  {
    hide History, After, Read, Wf, Evaluate;
    var r1, r2 := Sample(t, 0, Down), Sample(t, 1_000_000_000, Down);
    var r3, r4 := Sample(t, 300_500_000_000, Up), Sample(t, 301_000_000_000, Up);
    var p1, p2, p3, p4 := Probe(r1, false), Probe(r2, false), Probe(r3, false), Probe(r4, false);
    TwoFailures(t);
    ProbedOnce([p1, p2], r3, [r2, r1]);
    assert [p1, p2] + [p3] == [p1, p2, p3] && [r3] + [r2, r1] == [r3, r2, r1];
    assert 0 in OpenIds(After([p1, p2]).incidents, t);
    ProbedOnce([p1, p2, p3], r4, [r3, r2, r1]);
    assert [p1, p2, p3] + [p4] == [p1, p2, p3, p4] && [r4] + [r3, r2, r1] == [r4, r3, r2, r1];
    var d3 := After([p1, p2, p3]);
    var recorded := d3.(results := d3.results + [r4]);
    assert Window(recorded, t) == [r4, r3, r2, r1];
    ClosingEvaluation(recorded, t, 0);
    assert Oldest([r4, r3, r2, r1], true) == 1;
  }

  lemma TwoFailures(t: nat)
    ensures var db := After([Probed(t, 0, Down), Probed(t, 1_000_000_000, Down)]);
            && Wf(db) && db.incidents == map[0 := Incident(t, 0, None, Down, None, 2)]
            && History(db.results, t) == [Sample(t, 1_000_000_000, Down), Sample(t, 0, Down)]
  {
    hide History, After, Read, Wf, Evaluate;
    var r1, r2 := Sample(t, 0, Down), Sample(t, 1_000_000_000, Down);
    var p1, p2 := Probe(r1, false), Probe(r2, false);
    EmptyHistory(t);
    ProbedOnce([], r1, []);
    assert [] + [p1] == [p1] && [r1] + [] == [r1];
    ProbedOnce([p1], r2, [r1]);
    assert [p1] + [p2] == [p1, p2] && [r2] + [r1] == [r2, r1];
    var d1 := After([p1]);
    OpenedIncident(d1.(results := d1.results + [r2]), t);
    assert Run([r2, r1], false) == 2 && Oldest([r2, r1], false) == 1;
  }

  /** A short outage after a healthy check is recorded as ending before it began. */
  lemma OutageEndsBeforeItStarts(t: nat)
    ensures After([Probed(t, 1, Up), Probed(t, 2, Down), Probed(t, 3, Down),
                   Probed(t, 4, Up), Probed(t, 5, Up)]).incidents
         == map[0 := Incident(t, 2, Some(1), Down, Some(0), 2)]
  {
    hide History, Evaluate, Probing, After, Wf;
    var p1, p2, p3 := Probed(t, 1, Up), Probed(t, 2, Down), Probed(t, 3, Down);
    var p4, p5 := Probed(t, 4, Up), Probed(t, 5, Up);
    var i := Incident(t, 2, None, Down, None, 2);
    OutageBegins(t);
    OutageContinues(After([p1, p2, p3]), t, i);
    Extend([p1, p2, p3], p4);
    assert [p1, p2, p3] + [p4] == [p1, p2, p3, p4];
    OutageRecovers(After([p1, p2, p3, p4]), t, i);
    Extend([p1, p2, p3, p4], p5);
    assert [p1, p2, p3, p4] + [p5] == [p1, p2, p3, p4, p5];
  }
}
