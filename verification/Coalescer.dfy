/** The coalescer as a running object: the result and incident tables are updated
    in place, and the sweep loops over the fleet. */
module Coalescer {
  import opened Common
  import opened CheckResults
  import opened Incidents

  class Store {
    var results: seq<CheckResult>
    var incidents: map<nat, Incident>
    var nextId: nat

    ghost function Tables(): Db reads this { Db(results, incidents, nextId) }

    constructor ()
      ensures Tables() == Db([], map[], 0) && Wf(Tables())
    {
      results, incidents, nextId := [], map[], 0;
    }

    method Record(r: CheckResult)
      modifies this`results
      ensures results == RecordResult(old(results), r)
    {
      var i := 0;
      while i < |results| && !(results[i].target == r.target && results[i].timestamp == r.timestamp)
        invariant 0 <= i <= |results| && results == old(results)
        invariant forall j :: 0 <= j < i ==> !(results[j].target == r.target && results[j].timestamp == r.timestamp)
      {
        i := i + 1;
      }
      RecordAt(results, r, i);
      hide RecordResult;
      if i < |results| {
        results := results[i := r];
      } else {
        results := results + [r];
      }
    }

    method FindOpenIncident(target: nat) returns (open: Option<nat>)
      ensures Found(incidents, target, open)
    {
      open := None;
      var rest := incidents.Keys;
      while rest != {}
        invariant rest <= incidents.Keys
        invariant open.None? ==> OpenIds(incidents, target) <= rest
        invariant open.Some? ==> open.value in OpenIds(incidents, target)
        invariant open.Some? ==> forall j :: j in OpenIds(incidents, target) - rest ==>
                                   incidents[j].startedAt <= incidents[open.value].startedAt
        decreases rest
      {
        var id :| id in rest;
        rest := rest - {id};
        if incidents[id].target == target && incidents[id].endedAt.None? {
          if open.None? || incidents[id].startedAt > incidents[open.value].startedAt {
            open := Some(id);
          }
        }
      }
    }

    // One evaluation acts on some latest-started open incident; with at most one
    // open there is no choice.
    method EvaluateTarget(target: nat, maintenance: bool) returns (open: Option<nat>)
      modifies this`incidents, this`nextId
      ensures Found(old(incidents), target, open)
      ensures var window := ListResults(results, target, LOOKBACK);
              Tables() == if maintenance || window == [] then old(Tables())
                          else Apply(old(Tables()), target, window, open)
      ensures old(Wf(Tables())) ==> Tables() == Evaluate(old(Tables()), target, maintenance) && Wf(Tables())
    {
      ghost var db := Tables();
      open := FindOpenIncident(target);
      if AtMostOne(incidents, target) {
        FoundIsUnique(incidents, target, open, FindOpen(incidents, target));
      }
      if Wf(db) {
        EvaluateEffect(db, target, maintenance);
      }
      if maintenance {
        return;
      }
      var window := ListResults(results, target, LOOKBACK);
      if window == [] {
        return;
      }
      DecideAndApply(target, window, open);
    }

    // What an evaluation does with the window and the open incident it found.
    method DecideAndApply(target: nat, window: seq<CheckResult>, open: Option<nat>)
      requires open.Some? ==> open.value in incidents
      modifies this`incidents, this`nextId
      ensures Tables() == Apply(old(Tables()), target, window, open)
    {
      hide Draft, Closed;
      var bad, good := Run(window, false), Run(window, true);
      if bad >= FLAP_THRESHOLD && open.None? {
        if nextId !in incidents {
          incidents := incidents[nextId := Draft(target, window)];
          nextId := nextId + 1;
        }
        return;
      }
      if good >= FLAP_THRESHOLD && open.Some? {
        incidents := incidents[open.value := Closed(incidents[open.value], window)];
      }
    }

    method ReadBatch(targets: seq<nat>) returns (batch: map<nat, seq<CheckResult>>)
      ensures batch == map t | t in targets :: ListResults(results, t, LOOKBACK)
    {
      batch := map[];
      for k := 0 to |targets|
        invariant batch == map t | t in targets[..k] :: ListResults(results, t, LOOKBACK)
      {
        assert forall t :: t in targets[..k + 1] <==> t in targets[..k] || t == targets[k];
        batch := batch[targets[k] := ListResults(results, targets[k], LOOKBACK)];
      }
      assert targets[..|targets|] == targets;
    }

    // Applies a window of a batch, however long ago it was read.
    method EvaluateResults(target: nat, window: seq<CheckResult>, maintenance: bool)
      requires Wf(Tables())
      modifies this`incidents, this`nextId
      ensures Wf(Tables())
      ensures Tables() == if maintenance || window == [] then old(Tables())
                          else Apply(old(Tables()), target, window, FindOpen(old(incidents), target))
    {
      if window == [] {
        return;
      }
      if maintenance {
        return;
      }
      var open := FindOpenIncident(target);
      FoundIsUnique(incidents, target, open, FindOpen(incidents, target));
      ApplyEffect(Tables(), target, window, open);
      hide Apply, Wf;
      DecideAndApply(target, window, open);
    }

    // All windows are read first, then applied one by one.
    method BackgroundSweep(targets: seq<nat>, maintained: set<nat>)
      requires Wf(Tables())
      modifies this`incidents, this`nextId
      ensures Tables() == Sweep(old(Tables()), targets, maintained) && Wf(Tables())
    {
      hide Wf, ListResults;
      var batch := ReadBatch(targets);
      for k := 0 to |targets|
        invariant results == old(results) && Wf(Tables())
        invariant Tables() == Sweep(old(Tables()), targets[..k], maintained)
      {
        assert targets[..k + 1][..k] == targets[..k];
        EvaluateResults(targets[k], batch[targets[k]], targets[k] in maintained);
      }
      assert targets[..|targets|] == targets;
    }

    method DeleteOldCheckResults(cutoff: int) returns (deleted: nat)
      modifies this`results
      ensures results == DeleteOlder(old(results), cutoff)
      ensures deleted == |old(results)| - |results|
    {
      var kept, before := [], |results|;
      for k := 0 to |results|
        invariant kept == DeleteOlder(results[..k], cutoff) && |kept| <= k
      {
        assert results[..k + 1][..k] == results[..k];
        if results[k].timestamp >= cutoff {
          kept := kept + [results[k]];
        }
      }
      assert results[..|results|] == results;
      results := kept;
      deleted := before - |kept|;
    }
  }
}
