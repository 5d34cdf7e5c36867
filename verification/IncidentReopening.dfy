/** Manual reopening of incidents, and what it does to the one-open-incident rule. */
module IncidentReopening {
  import opened Common
  import opened CheckResults
  import opened Incidents
  import opened IncidentRuns
  import opened IncidentDetails
  import opened IncidentRaces

  // A manual reopen of a closed incident.
  function Reopen(db: Db, id: nat): Db
    requires id in db.incidents
  {
    if db.incidents[id].endedAt.None? then db  // refused by the transition table
    else db.(incidents := db.incidents[id := db.incidents[id].(endedAt := None, durationSecs := None)])
  }

  /** A manual reopen keeps one open incident per target if and only if the target
      has no other one open. */
  lemma ReopenKeepsOneIff(db: Db, id: nat)
    requires Wf(db) && id in db.incidents && db.incidents[id].endedAt.Some?
    ensures AtMostOne(Reopen(db, id).incidents, db.incidents[id].target) <==> !IsOpen(db, db.incidents[id].target)
  {
    var t, after := db.incidents[id].target, Reopen(db, id);
    assert OpenIds(after.incidents, t) == OpenIds(db.incidents, t) + {id};
    if IsOpen(db, t) {
      var x :| x in OpenIds(db.incidents, t);
      assert x in OpenIds(after.incidents, t) && id in OpenIds(after.incidents, t) && x != id;
    }
  }

  // An open incident has no duration.
  ghost predicate Undated(db: Db) {
    forall id :: id in db.incidents && db.incidents[id].endedAt.None? ==> db.incidents[id].durationSecs.None?
  }

  lemma ApplyKeepsUndated(db: Db, target: nat, window: seq<CheckResult>)
    requires Undated(db)
    ensures Undated(Apply(db, target, window, FindOpen(db.incidents, target)))
  {
  }

  lemma {:induction false} SweepKeepsUndated(db: Db, targets: seq<nat>, maintained: set<nat>)
    requires Undated(db)
    ensures Undated(Sweep(db, targets, maintained))
  {
    if targets != [] {
      hide Undated, Apply, ListResults;
      var mid := Sweep(db, targets[..|targets| - 1], maintained);
      SweepKeepsUndated(db, targets[..|targets| - 1], maintained);
      ApplyKeepsUndated(mid, targets[|targets| - 1], Window(mid, targets[|targets| - 1]));
    }
  }

  lemma {:induction false} ReachableUndated(es: seq<Event>)
    ensures Undated(After(es))
  {
    if es != [] {
      var pre, e := es[..|es| - 1], es[|es| - 1];
      var db := After(pre);
      ReachableUndated(pre);
      hide Apply, ListResults;
      match e
      case Record(_) =>
      case Probe(r, _) =>
        var recorded := db.(results := RecordResult(db.results, r));
        assert Undated(recorded);
        ApplyKeepsUndated(recorded, r.target, Window(recorded, r.target));
      case Reevaluate(t, _) => ApplyKeepsUndated(db, t, Window(db, t));
      case Background(ts, m) => SweepKeepsUndated(db, ts, m);
      case ReadWindows(_, _) =>
      case ApplyWindow(reader, t, _) => ApplyKeepsUndated(db, t, WindowRead(Read(pre), reader, t));
      case Purge(_) =>
    }
  }

  /** A reopening undoes an automatic close completely, and is refused for an open
      incident. */
  lemma ReopenUndoesClose(es: seq<Event>, target: nat, id: nat)
    requires id in OpenIds(After(es).incidents, target)
    ensures Reopen(After(es), id) == After(es)
    ensures VerdictOf(After(es), target) == CloseIt
            ==> id in Evaluate(After(es), target, false).incidents
                && Reopen(Evaluate(After(es), target, false), id) == After(es)
  {
    NeverTwoOpen(es, target);
    ReachableUndated(es);
    hide After, ListResults;
    var db := After(es);
    if VerdictOf(db, target) == CloseIt {
      ClosingEvaluation(db, target, id);
      ApplyEffect(db, target, Window(db, target), FindOpen(db.incidents, target));
    }
  }

  /** A second outage and a reopening of the first incident are enough for two. */
  lemma ReopenRun(t: nat)
    ensures var db := After([Probed(t, 1, Up), Probed(t, 2, Down), Probed(t, 3, Down), Probed(t, 4, Up),
                             Probed(t, 5, Up), Probed(t, 6, Down), Probed(t, 7, Down)]);
            && 0 in db.incidents && db.incidents[0].endedAt.Some? && db.incidents[0].target == t
            && !AtMostOne(Reopen(db, 0).incidents, t)
  {
    hide After, AtMostOne;
    var es := [Probed(t, 1, Up), Probed(t, 2, Down), Probed(t, 3, Down), Probed(t, 4, Up), Probed(t, 5, Up)];
    var two := es + [Probed(t, 6, Down)] + [Probed(t, 7, Down)];
    OutageEndsBeforeItStarts(t);
    assert two[..5] == es;
    ClosedIncidentsStay(two, 5, 0);
    OpenAtTheEnd(es, t, 6, 7);
    NeverTwoOpen(two, t);
    ReopenKeepsOneIff(After(two), 0);
    assert two == [Probed(t, 1, Up), Probed(t, 2, Down), Probed(t, 3, Down), Probed(t, 4, Up),
                   Probed(t, 5, Up), Probed(t, 6, Down), Probed(t, 7, Down)];
  }

  /** With two incidents open, a recovered target loses only one per evaluation, one that
      started last, so re-evaluation is no longer idle. */
  lemma EvaluationClosesOneAtATime(db: Db, target: nat)
    requires SameClass(Window(db, target), true)
    ensures |OpenIds(Evaluate(db, target, false).incidents, target)|
         == if IsOpen(db, target) then |OpenIds(db.incidents, target)| - 1 else 0
    ensures var open, after := OpenIds(db.incidents, target), OpenIds(Evaluate(db, target, false).incidents, target);
            IsOpen(db, target) ==>
              exists id :: id in open && after == open - {id}
                           && forall j :: j in open ==> db.incidents[j].startedAt <= db.incidents[id].startedAt
  {
    var w, open := Window(db, target), FindOpen(db.incidents, target);
    RunOfTwo(w, true);
    RunOfTwo(w, false);
    if open.Some? {
      CloseOpen(db.incidents, open.value, Closed(db.incidents[open.value], w));
    }
  }
}
