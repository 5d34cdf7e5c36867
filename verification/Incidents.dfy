/** The incident coalescer: a windowed evaluator that opens an incident after two
    consecutive failing results and closes it after two consecutive good ones. */
module Incidents {
  import opened Common
  import opened CheckResults

  const FLAP_THRESHOLD: nat := 2
  const LOOKBACK: nat := 10

  datatype Incident = Incident(
    target: nat,
    startedAt: int,
    endedAt: Option<int>,
    status: CheckStatus,
    durationSecs: Option<nat>,
    checkCount: nat)

  // The tables the coalescer works on. `nextId` is the next unused identifier.
  datatype Db = Db(results: seq<CheckResult>, incidents: map<nat, Incident>, nextId: nat)

  // ---- one evaluation ----

  predicate Is(r: CheckResult, up: bool) { (r.status == Up) == up }

  // Length of the run at the newest end of a newest-first window.
  function Run(window: seq<CheckResult>, up: bool): (n: nat)
    ensures n <= |window|
    ensures forall i :: 0 <= i < n ==> Is(window[i], up)
    ensures n < |window| ==> !Is(window[n], up)
  {
    if window == [] || !Is(window[0], up) then 0 else 1 + Run(window[1..], up)
  }

  // Position of the oldest result of a class in a newest-first window.
  function Oldest(window: seq<CheckResult>, up: bool): (k: nat)
    requires exists i :: 0 <= i < |window| && Is(window[i], up)
    ensures k < |window| && Is(window[k], up)
    ensures forall i :: k < i < |window| ==> !Is(window[i], up)
  {
    if Is(window[|window| - 1], up) then |window| - 1 else Oldest(window[..|window| - 1], up)
  }

  function Draft(target: nat, window: seq<CheckResult>): Incident
    requires Run(window, false) >= FLAP_THRESHOLD
  {
    assert Is(window[0], false);
    var first := window[Oldest(window, false)];
    Incident(target, first.timestamp, None, first.status, None, Run(window, false))
  }

  // Whole seconds, truncated toward zero, never negative.
  function DurationSecs(started: int, ended: int): nat {
    if ended < started then 0 else (ended - started) / NANOS_PER_SEC
  }

  function Closed(i: Incident, window: seq<CheckResult>): Incident
    requires Run(window, true) >= FLAP_THRESHOLD
  {
    assert Is(window[0], true);
    var ended := window[Oldest(window, true)].timestamp;
    i.(endedAt := Some(ended), durationSecs := Some(DurationSecs(i.startedAt, ended)))
  }

  // What one evaluation does to the incident table, given the open incident it found.
  function Apply(db: Db, target: nat, window: seq<CheckResult>, open: Option<nat>): Db
    requires open.Some? ==> open.value in db.incidents
  {
    if Run(window, false) >= FLAP_THRESHOLD && open.None? then
      if db.nextId in db.incidents then db  // a conflicting insert is ignored
      else db.(incidents := db.incidents[db.nextId := Draft(target, window)], nextId := db.nextId + 1)
    else if Run(window, true) >= FLAP_THRESHOLD && open.Some? then
      db.(incidents := db.incidents[open.value := Closed(db.incidents[open.value], window)])
    else db
  }

  function OpenIds(incidents: map<nat, Incident>, target: nat): set<nat> {
    set id | id in incidents && incidents[id].target == target && incidents[id].endedAt.None?
  }

  // The contract of the open-incident lookup: a latest-started open incident, if any.
  ghost predicate Found(incidents: map<nat, Incident>, target: nat, open: Option<nat>) {
    match open
    case None => OpenIds(incidents, target) == {}
    case Some(id) =>
      && id in OpenIds(incidents, target)
      && forall j :: j in OpenIds(incidents, target) ==> incidents[j].startedAt <= incidents[id].startedAt
  }

  lemma FoundExists(incidents: map<nat, Incident>, target: nat) returns (open: Option<nat>)
    ensures Found(incidents, target, open)
  {
    open := None;
    var rest := OpenIds(incidents, target);
    while rest != {}
      invariant rest <= OpenIds(incidents, target)
      invariant open.None? ==> rest == OpenIds(incidents, target)
      invariant open.Some? ==> open.value in OpenIds(incidents, target)
      invariant open.Some? ==> forall j :: j in OpenIds(incidents, target) - rest ==>
                                 incidents[j].startedAt <= incidents[open.value].startedAt
      decreases rest
    {
      var id :| id in rest;
      rest := rest - {id};
      if open.None? || incidents[id].startedAt > incidents[open.value].startedAt {
        open := Some(id);
      }
    }
  }

  ghost function FindOpen(incidents: map<nat, Incident>, target: nat): (open: Option<nat>)
    ensures Found(incidents, target, open)
  {
    assert exists open :: Found(incidents, target, open) by {
      var open := FoundExists(incidents, target);
    }
    var open :| Found(incidents, target, open);
    open
  }

  ghost function Evaluate(db: Db, target: nat, maintenance: bool): Db {
    var window := ListResults(db.results, target, LOOKBACK);
    if maintenance || window == [] then db
    else Apply(db, target, window, FindOpen(db.incidents, target))
  }

  // The background sweep evaluates the listed targets in turn.
  ghost function Sweep(db: Db, targets: seq<nat>, maintained: set<nat>): Db {
    if targets == [] then db
    else var last := targets[|targets| - 1];
         Evaluate(Sweep(db, targets[..|targets| - 1], maintained), last, last in maintained)
  }

  // ---- invariants ----

  ghost predicate AtMostOne(incidents: map<nat, Incident>, target: nat) {
    forall i, j :: i in OpenIds(incidents, target) && j in OpenIds(incidents, target) ==> i == j
  }

  ghost predicate Wf(db: Db) {
    && UniqueTimes(db.results)
    && (forall id :: id in db.incidents ==> id < db.nextId)
    && (forall t :: AtMostOne(db.incidents, t))
  }

  predicate IsOpen(db: Db, target: nat) { OpenIds(db.incidents, target) != {} }

  // With at most one open incident the lookup has only one possible answer.
  lemma FoundIsUnique(incidents: map<nat, Incident>, target: nat, a: Option<nat>, b: Option<nat>)
    requires AtMostOne(incidents, target) && Found(incidents, target, a) && Found(incidents, target, b)
    ensures a == b
  {
  }

  // The possible outcomes of one evaluation.
  datatype Verdict = Keep | OpenNew | CloseIt

  predicate SameClass(window: seq<CheckResult>, up: bool) {
    |window| >= 2 && Is(window[0], up) && Is(window[1], up)
  }

  lemma RunOfTwo(window: seq<CheckResult>, up: bool)
    ensures Run(window, up) >= FLAP_THRESHOLD <==> SameClass(window, up)
  {
    if |window| >= 2 {
      assert window[1..][0] == window[1];
    }
  }

  predicate HasVerdict(window: seq<CheckResult>, open: bool, v: Verdict) {
    match v
    case OpenNew => SameClass(window, false) && !open
    case CloseIt => SameClass(window, true) && open
    case Keep => !(SameClass(window, false) && !open) && !(SameClass(window, true) && open)
  }

  function VerdictOf(db: Db, target: nat): (v: Verdict)
    ensures HasVerdict(ListResults(db.results, target, LOOKBACK), IsOpen(db, target), v)
  {
    var window := ListResults(db.results, target, LOOKBACK);
    if SameClass(window, false) && !IsOpen(db, target) then OpenNew
    else if SameClass(window, true) && IsOpen(db, target) then CloseIt
    else Keep
  }

  lemma ApplyEffect(db: Db, target: nat, window: seq<CheckResult>, open: Option<nat>)
    requires Wf(db) && Found(db.incidents, target, open)
    ensures var after := Apply(db, target, window, open);
            && after.results == db.results && Wf(after)
            && (HasVerdict(window, open.Some?, Keep) ==> after == db)
            && (HasVerdict(window, open.Some?, OpenNew) ==>
                  && Run(window, false) >= FLAP_THRESHOLD
                  && after.nextId == db.nextId + 1
                  && after.incidents == db.incidents[db.nextId := Draft(target, window)]
                  && OpenIds(after.incidents, target) == {db.nextId})
            && (HasVerdict(window, open.Some?, CloseIt) ==>
                  && Run(window, true) >= FLAP_THRESHOLD
                  && after.nextId == db.nextId
                  && after.incidents == db.incidents[open.value := Closed(db.incidents[open.value], window)]
                  && OpenIds(after.incidents, target) == {})
            && forall t :: t != target ==> OpenIds(after.incidents, t) == OpenIds(db.incidents, t)
  {
    RunOfTwo(window, false);
    RunOfTwo(window, true);
    var after := Apply(db, target, window, open);
    if HasVerdict(window, open.Some?, OpenNew) {
      InsertOpen(db.incidents, db.nextId, Draft(target, window));
      assert OpenIds(after.incidents, target) == {db.nextId};
    } else if HasVerdict(window, open.Some?, CloseIt) {
      assert AtMostOne(db.incidents, target);
      CloseOpen(db.incidents, open.value, Closed(db.incidents[open.value], window));
      assert OpenIds(after.incidents, target) == {};
    }
    forall t ensures AtMostOne(after.incidents, t) {
      assert AtMostOne(db.incidents, t);
      assert t != target ==> OpenIds(after.incidents, t) == OpenIds(db.incidents, t);
    }
  }

  lemma InsertOpen(incidents: map<nat, Incident>, id: nat, i: Incident)
    requires id !in incidents && i.endedAt.None?
    ensures OpenIds(incidents[id := i], i.target) == OpenIds(incidents, i.target) + {id}
    ensures forall t :: t != i.target ==> OpenIds(incidents[id := i], t) == OpenIds(incidents, t)
  {
  }

  lemma CloseOpen(incidents: map<nat, Incident>, id: nat, i: Incident)
    requires id in incidents && i.target == incidents[id].target && i.endedAt.Some?
    ensures OpenIds(incidents[id := i], i.target) == OpenIds(incidents, i.target) - {id}
    ensures forall t :: t != i.target ==> OpenIds(incidents[id := i], t) == OpenIds(incidents, t)
  {
  }

  /** One evaluation keeps the tables well formed, touches no other target, and
      does exactly what the two newest results and the open incident call for. */
  lemma EvaluateEffect(db: Db, target: nat, maintenance: bool)
    requires Wf(db)
    ensures var after := Evaluate(db, target, maintenance);
            && Wf(after) && after.results == db.results
            && (forall t :: t != target ==> OpenIds(after.incidents, t) == OpenIds(db.incidents, t))
            && (if maintenance then after == db
                else match VerdictOf(db, target)
                     case Keep => after == db
                     case OpenNew => !IsOpen(db, target) && IsOpen(after, target)
                     case CloseIt => IsOpen(db, target) && !IsOpen(after, target))
  {
    var window := ListResults(db.results, target, LOOKBACK);
    ApplyEffect(db, target, window, FindOpen(db.incidents, target));
  }
}
