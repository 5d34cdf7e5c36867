/** Evaluations that are not atomic, and sweeps that work on windows read earlier. */
module IncidentRaces {
  import opened Common
  import opened CheckResults
  import opened Incidents
  import opened IncidentRuns
  import opened IncidentDetails

  // ---- two evaluators that both look before either writes ----

  ghost function EvaluatedTwice(db: Db, target: nat): Db {
    var w, open := Window(db, target), FindOpen(db.incidents, target);
    var first := Apply(db, target, w, open);
    assert open.Some? ==> open.value in first.incidents;
    Apply(first, target, w, open)
  }

  /** Such a pair leaves at most one open incident if and only if a single evaluation
      would not have opened one: the insert conflicts only on the fresh identifier,
      so otherwise both insert. */
  lemma SplitEvaluationKeepsOneIff(db: Db, target: nat)
    requires Wf(db)
    ensures AtMostOne(EvaluatedTwice(db, target).incidents, target) <==> VerdictOf(db, target) != OpenNew
    ensures VerdictOf(db, target) == OpenNew
            ==> OpenIds(EvaluatedTwice(db, target).incidents, target) == {db.nextId, db.nextId + 1}
  {
    hide ListResults, Draft, Closed;
    var w, open := Window(db, target), FindOpen(db.incidents, target);
    var first, second := Apply(db, target, w, open), EvaluatedTwice(db, target);
    ApplyEffect(db, target, w, open);
    RunOfTwo(w, false);
    RunOfTwo(w, true);
    match VerdictOf(db, target)
    case OpenNew =>
      InsertOpen(first.incidents, first.nextId, DraftFor(target, w));
      assert db.nextId in OpenIds(second.incidents, target) && db.nextId + 1 in OpenIds(second.incidents, target);
    case CloseIt =>
      CloseOpen(first.incidents, open.value, ClosedFor(first.incidents[open.value], w));
    case Keep =>
  }

  function DraftFor(target: nat, w: seq<CheckResult>): (i: Incident)
    requires SameClass(w, false)
    ensures Run(w, false) >= FLAP_THRESHOLD && i == Draft(target, w)
    ensures i.target == target && i.endedAt.None?
  {
    RunOfTwo(w, false);
    Draft(target, w)
  }

  function ClosedFor(i: Incident, w: seq<CheckResult>): (c: Incident)
    requires SameClass(w, true)
    ensures Run(w, true) >= FLAP_THRESHOLD && c == Closed(i, w)
    ensures c.target == i.target && c.endedAt.Some?
  {
    RunOfTwo(w, true);
    Closed(i, w)
  }

  /** It takes two failing results, the second of them seen by the scheduler and the
      background sweep at once. */
  lemma SplitEvaluationRun(t: nat)
    ensures var db := After([Probed(t, 1, Down), Record(Sample(t, 2, Down))]);
            Wf(db) && VerdictOf(db, t) == OpenNew && OpenIds(EvaluatedTwice(db, t).incidents, t) == {0, 1}
  {
    hide History, After, EvaluatedTwice, Wf;
    var r1, r2, p1, p2 := Sample(t, 1, Down), Sample(t, 2, Down), Probed(t, 1, Down), Record(Sample(t, 2, Down));
    QuietStart(t, Down);
    RecordedOnce([p1], r2, [r1]);
    assert [p1] + [p2] == [p1, p2] && [r2] + [r1] == [r2, r1];
    SplitEvaluationKeepsOneIff(After([p1, p2]), t);
  }

  lemma RecordedOnce(es: seq<Event>, r: CheckResult, rs: seq<CheckResult>)
    requires Wf(After(es)) && History(After(es).results, r.target) == rs && Newer(r, rs)
    ensures var after := After(es + [Record(r)]);
            Wf(after) && after == After(es).(results := after.results) && History(after.results, r.target) == [r] + rs
  {
    Extend(es, Record(r));
    RecordNewest(After(es).results, r);
    RecordKeepsUnique(After(es).results, r);
  }

  // ---- a sweep that applies a window read earlier ----

  // The tables after an evaluator applies the window it holds, and after it would have
  // applied the current one.
  ghost function Stale(es: seq<Event>, reader: nat, target: nat): Db {
    After(es + [ApplyWindow(reader, target, false)])
  }

  ghost function Fresh(es: seq<Event>, target: nat): Db { After(es + [Reevaluate(target, false)]) }

  lemma EvaluateIsApplying(db: Db, target: nat)
    ensures Evaluate(db, target, false) == Applying(db, target, Window(db, target), false)
  {
    hide ListResults;
    RunOfTwo(Window(db, target), true);
    RunOfTwo(Window(db, target), false);
  }

  lemma StaleAndFresh(es: seq<Event>, reader: nat, target: nat)
    ensures Wf(After(es))
    ensures Stale(es, reader, target) == Applying(After(es), target, WindowRead(Read(es), reader, target), false)
    ensures Fresh(es, target) == Applying(After(es), target, Window(After(es), target), false)
  {
    hide Applying, Evaluate, Wf, After, Read, Window;
    NeverTwoOpen(es, target);
    Extend(es, ApplyWindow(reader, target, false));
    Extend(es, Reevaluate(target, false));
    EvaluateIsApplying(After(es), target);
  }

  /** A window that an evaluator holds was the target's window at some earlier point of
      the run. */
  lemma {:induction false} WindowWasRead(es: seq<Event>, reader: nat, target: nat)
    ensures var w := WindowRead(Read(es), reader, target);
            w == [] || exists n :: 0 <= n <= |es| && w == Window(After(es[..n]), target)
  {
    if es != [] {
      var pre, e := es[..|es| - 1], es[|es| - 1];
      WindowWasRead(pre, reader, target);
      var w := WindowRead(Read(es), reader, target);
      if e.ReadWindows? && e.reader == reader {
        assert es[..|pre|] == pre;
        assert w == [] || w == Window(After(es[..|pre|]), target);
      } else if n :| 0 <= n <= |pre| && w == Window(After(pre[..n]), target) {
        assert pre[..n] == es[..n];
      }
    }
  }

  /** Applying it leaves the target open or not as applying the current window would, if
      and only if the two windows call for the same action. */
  lemma StaleWindowAgreesIff(es: seq<Event>, reader: nat, target: nat)
    ensures IsOpen(Stale(es, reader, target), target) == IsOpen(Fresh(es, target), target)
       <==> HasVerdict(WindowRead(Read(es), reader, target), IsOpen(After(es), target), VerdictOf(After(es), target))
  {
    StaleAndFresh(es, reader, target);
    hide After, Stale, Fresh, ListResults;
    var db, stale := After(es), WindowRead(Read(es), reader, target);
    ApplyEffect(db, target, stale, FindOpen(db.incidents, target));
    ApplyEffect(db, target, Window(db, target), FindOpen(db.incidents, target));
  }

  // The oldest result of a class in a window whose two newest results are of it.
  function OldestOf(window: seq<CheckResult>, up: bool): CheckResult
    requires SameClass(window, up)
  {
    assert Is(window[0], up);
    window[Oldest(window, up)]
  }

  // Two windows that call for the same action also call for the same details of it.
  predicate SameDetails(a: seq<CheckResult>, b: seq<CheckResult>, v: Verdict)
    requires v.OpenNew? ==> SameClass(a, false) && SameClass(b, false)
    requires v.CloseIt? ==> SameClass(a, true) && SameClass(b, true)
  {
    match v
    case Keep => true
    case OpenNew =>
      && Run(a, false) == Run(b, false)
      && OldestOf(a, false).timestamp == OldestOf(b, false).timestamp
      && OldestOf(a, false).status == OldestOf(b, false).status
    case CloseIt => OldestOf(a, true).timestamp == OldestOf(b, true).timestamp
  }

  /** And it leaves the very same tables if and only if the windows also agree on the
      details: for an opening on the trailing failures and on time and status of the
      oldest failure, for a closing on the time of the oldest good result. */
  lemma StaleWindowEqualIff(es: seq<Event>, reader: nat, target: nat)
    ensures var db, stale := After(es), WindowRead(Read(es), reader, target);
            Stale(es, reader, target) == Fresh(es, target)
            <==> HasVerdict(stale, IsOpen(db, target), VerdictOf(db, target))
                 && SameDetails(stale, Window(db, target), VerdictOf(db, target))
  {
    StaleWindowAgreesIff(es, reader, target);
    StaleAndFresh(es, reader, target);
    hide After, Stale, Fresh, ListResults, Run, Oldest;
    var db, stale := After(es), WindowRead(Read(es), reader, target);
    var w, open, v := Window(db, target), FindOpen(db.incidents, target), VerdictOf(db, target);
    ApplyEffect(db, target, stale, open);
    ApplyEffect(db, target, w, open);
    if HasVerdict(stale, IsOpen(db, target), v) {
      match v
      case Keep =>
      case OpenNew => SameDraftIff(target, stale, w);
      case CloseIt => SameClosingIff(db.incidents[open.value], stale, w);
    }
  }

  lemma SameDraftIff(target: nat, a: seq<CheckResult>, b: seq<CheckResult>)
    requires SameClass(a, false) && SameClass(b, false)
    ensures DraftFor(target, a) == DraftFor(target, b) <==> SameDetails(a, b, OpenNew)
  {
  }

  lemma SameClosingIff(i: Incident, a: seq<CheckResult>, b: seq<CheckResult>)
    requires SameClass(a, true) && SameClass(b, true)
    ensures ClosedFor(i, a) == ClosedFor(i, b) <==> SameDetails(a, b, CloseIt)
  {
  }

  /** When an outage began in between, the stale window closes the live incident, and
      the next evaluation opens another one for the same outage. */
  lemma StaleSweepSplitsAnOutage(es: seq<Event>, reader: nat, target: nat)
    requires IsOpen(After(es), target) && SameClass(Window(After(es), target), false)
    requires SameClass(WindowRead(Read(es), reader, target), true)
    ensures var sweep := es + [ApplyWindow(reader, target, false)];
            && VerdictOf(After(es), target) == Keep && !IsOpen(After(sweep), target)
            && OpenIds(Fresh(sweep, target).incidents, target) == {After(es).nextId}
  {
    var db, stale := After(es), WindowRead(Read(es), reader, target);
    var sweep := es + [ApplyWindow(reader, target, false)];
    StaleAndFresh(es, reader, target);
    StaleAndFresh(sweep, reader, target);
    hide After, Fresh, ListResults;
    ApplyEffect(db, target, stale, FindOpen(db.incidents, target));
    var swept := After(sweep);
    ApplyEffect(swept, target, Window(swept, target), FindOpen(swept.incidents, target));
  }

  /** Two good results, the sweep reads, two bad results, the sweep applies. */
  lemma StaleSweepRun(t: nat)
    ensures var es := [Probed(t, 1, Up), Probed(t, 2, Up), ReadWindows(0, [t]), Probed(t, 3, Down), Probed(t, 4, Down)];
            var sweep := es + [ApplyWindow(0, t, false)];
            && IsOpen(After(es), t) && !IsOpen(After(sweep), t)
            && OpenIds(Fresh(sweep, t).incidents, t) == {After(es).nextId}
  {
    hide After, Fresh, History, Read;
    ReadBetween(t);
    var es := [Probed(t, 1, Up), Probed(t, 2, Up), ReadWindows(0, [t]), Probed(t, 3, Down), Probed(t, 4, Down)];
    StaleSweepSplitsAnOutage(es, 0, t);
  }

  lemma ReadBetween(t: nat)
    ensures var es := [Probed(t, 1, Up), Probed(t, 2, Up), ReadWindows(0, [t]), Probed(t, 3, Down), Probed(t, 4, Down)];
            && History(After(es).results, t)
               == [Sample(t, 4, Down), Sample(t, 3, Down), Sample(t, 2, Up), Sample(t, 1, Up)]
            && WindowRead(Read(es), 0, t) == [Sample(t, 2, Up), Sample(t, 1, Up)]
            && IsOpen(After(es), t)
  {
    hide History, After, Read, Wf;
    var r1, r2, r3, r4 := Sample(t, 1, Up), Sample(t, 2, Up), Sample(t, 3, Down), Sample(t, 4, Down);
    var p1, p2, p3, p4 := Probe(r1, false), Probe(r2, false), Probe(r3, false), Probe(r4, false);
    var read := ReadWindows(0, [t]);
    TwoGood(t);
    ReadOnce([p1, p2], t, [r2, r1]);
    assert [p1, p2] + [read] == [p1, p2, read];
    TwoBad([p1, p2, read], t, [r2, r1]);
    assert [r4, r3] + [r2, r1] == [r4, r3, r2, r1];
    OpenAtTheEnd([p1, p2, read], t, 3, 4);
    assert [p1, p2, read] + [p3] + [p4] == [p1, p2, read, p3, p4];
  }

  lemma TwoBad(es: seq<Event>, t: nat, rs: seq<CheckResult>)
    requires Wf(After(es)) && History(After(es).results, t) == rs && Newer(Sample(t, 3, Down), rs)
    ensures var es' := es + [Probed(t, 3, Down)] + [Probed(t, 4, Down)];
            && History(After(es').results, t) == [Sample(t, 4, Down), Sample(t, 3, Down)] + rs && Read(es') == Read(es)
  {
    hide History, After, Read, Wf;
    ProbedOnce(es, Sample(t, 3, Down), rs);
    ProbedOnce(es + [Probed(t, 3, Down)], Sample(t, 4, Down), [Sample(t, 3, Down)] + rs);
  }

  lemma TwoGood(t: nat)
    ensures var db := After([Probed(t, 1, Up), Probed(t, 2, Up)]);
            Wf(db) && History(db.results, t) == [Sample(t, 2, Up), Sample(t, 1, Up)]
  {
    hide History, After, Read;
    var r1, r2, p1, p2 := Sample(t, 1, Up), Sample(t, 2, Up), Probed(t, 1, Up), Probed(t, 2, Up);
    EmptyHistory(t);
    ProbedOnce([], r1, []);
    assert [] + [p1] == [p1] && [r1] + [] == [r1];
    ProbedOnce([p1], r2, [r1]);
    assert [p1] + [p2] == [p1, p2] && [r2] + [r1] == [r2, r1];
  }

  lemma ReadOnce(es: seq<Event>, t: nat, rs: seq<CheckResult>)
    requires History(After(es).results, t) == rs && |rs| <= LOOKBACK
    ensures var es' := es + [ReadWindows(0, [t])];
            After(es') == After(es) && WindowRead(Read(es'), 0, t) == rs
  {
    hide History;
    Extend(es, ReadWindows(0, [t]));
  }

  // An attended run that ends with two bad results leaves the target open.
  lemma OpenAtTheEnd(es: seq<Event>, t: nat, at: int, at': int)
    requires Attended(es) && TimesIncrease(es + [Probed(t, at, Down)] + [Probed(t, at', Down)])
    ensures IsOpen(After(es + [Probed(t, at, Down)] + [Probed(t, at', Down)]), t)
  {
    hide After, Observed, LatestPairIsBad, TimesIncrease;
    OpenIffLatestPairIsBad(es + [Probed(t, at, Down)] + [Probed(t, at', Down)], t);
    ObserveProbe(es, t, at, Down);
    ObserveProbe(es + [Probed(t, at, Down)], t, at', Down);
    EndsBadly(Observed(es, t));
  }

  lemma EndsBadly(h: seq<Observation>)
    ensures LatestPairIsBad(h + [Seen(false)] + [Seen(false)])
  {
    assert PairAt(h + [Seen(false)] + [Seen(false)], |h|, false);
  }

  lemma ObserveProbe(es: seq<Event>, t: nat, at: int, status: CheckStatus)
    ensures Observed(es + [Probed(t, at, status)], t) == Observed(es, t) + [Seen(status == Up)]
    ensures Observed([], t) == []
  {
    assert (es + [Probed(t, at, status)])[..|es|] == es;
  }
}
