/** The "worst state per day" strip: the in-memory fold, the grouped rank query,
    and why they agree. */
module DayStrip {
  import opened Common
  import opened CheckResults

  const NANOS_PER_DAY: int := 86_400_000_000_000

  datatype DayState = Operational | Maintenance | Degraded | PartialOutage | MajorOutage | NoData

  // Calendar day of a timestamp; days before the epoch are negative.
  function Day(timestamp: int): int { timestamp / NANOS_PER_DAY }

  /** Days are those of the UTC calendar, counted from the epoch. */
  lemma DayMeaning(timestamp: int, day: int)
    ensures Day(timestamp) == day <==> day * 86_400_000_000_000 <= timestamp < (day + 1) * 86_400_000_000_000
  {
  }

  function StateOf(status: CheckStatus): DayState {
    match status
    case Up => Operational
    case Degraded => DayState.Degraded
    case Down => MajorOutage
    case Error => MajorOutage
  }

  function StateRank(s: DayState): nat {
    match s
    case Operational => 0
    case Maintenance => 1
    case Degraded => 2
    case PartialOutage => 3
    case MajorOutage => 4
    case NoData => 5
  }

  // The rank the grouped query gives a status.
  function QueryRank(status: CheckStatus): nat {
    match status
    case Down => 4
    case Error => 4
    case Degraded => 3
    case Up => 1
  }

  function RankToDayState(rank: nat): DayState {
    match rank
    case 1 => Operational
    case 3 => DayState.Degraded
    case 4 => MajorOutage
    case _ => NoData
  }

  // ---- reference: the maximum rank of a day ----

  function MaxRank(rs: seq<CheckResult>, day: int): (m: nat)
    ensures forall r :: r in rs && Day(r.timestamp) == day ==> QueryRank(r.status) <= m
    ensures m == 0 <==> forall r :: r in rs ==> Day(r.timestamp) != day
    ensures m > 0 ==> exists r :: r in rs && Day(r.timestamp) == day && QueryRank(r.status) == m
  {
    if rs == [] then 0
    else
      assert rs == rs[..|rs| - 1] + [rs[|rs| - 1]];
      var rest, r := MaxRank(rs[..|rs| - 1], day), rs[|rs| - 1];
      if Day(r.timestamp) == day && QueryRank(r.status) > rest then QueryRank(r.status) else rest
  }

  function Worst(rs: seq<CheckResult>, day: int): DayState { RankToDayState(MaxRank(rs, day)) }

  ghost predicate Seen(rs: seq<CheckResult>, day: int, status: CheckStatus) {
    exists r :: r in rs && Day(r.timestamp) == day && r.status == status
  }

  /** What the strip shows for a day, in terms of which statuses occurred. */
  lemma WorstMeaning(rs: seq<CheckResult>, day: int)
    ensures Worst(rs, day) == MajorOutage <==> Seen(rs, day, Down) || Seen(rs, day, Error)
    ensures Worst(rs, day) == DayState.Degraded
       <==> Seen(rs, day, CheckStatus.Degraded) && !Seen(rs, day, Down) && !Seen(rs, day, Error)
    ensures Worst(rs, day) == Operational
       <==> Seen(rs, day, Up) && !Seen(rs, day, CheckStatus.Degraded) && !Seen(rs, day, Down) && !Seen(rs, day, Error)
    ensures Worst(rs, day) == NoData <==> forall r :: r in rs ==> Day(r.timestamp) != day
  {
    var m := MaxRank(rs, day);
    if m > 0 {
      var r :| r in rs && Day(r.timestamp) == day && QueryRank(r.status) == m;
      assert Seen(rs, day, r.status);
    }
  }

  /** The strip depends on the results of a day, not on their order. */
  lemma WorstIgnoresOrder(a: seq<CheckResult>, b: seq<CheckResult>, day: int)
    requires multiset(a) == multiset(b)
    ensures Worst(a, day) == Worst(b, day)
  {
    forall r ensures r in a <==> r in b {
      SameElements(a, b, r);
    }
  }

  // ---- the in-memory fold ----

  function Worse(entry: DayState, state: DayState): DayState {
    if StateRank(state) > StateRank(entry) then state else entry
  }

  function Fold(rs: seq<CheckResult>, day: int): Option<DayState> {
    if rs == [] then None
    else var rest, r := Fold(rs[..|rs| - 1], day), rs[|rs| - 1];
         if Day(r.timestamp) != day then rest
         else Some(Worse(if rest.Some? then rest.value else Operational, StateOf(r.status)))
  }

  /** Folding from Operational and keeping the higher-ranked state gives what the
      maximum rank maps to, although the two use different rank tables. */
  lemma {:induction false} FoldIsWorst(rs: seq<CheckResult>, day: int)
    ensures (if Fold(rs, day).Some? then Fold(rs, day).value else NoData) == Worst(rs, day)
    ensures Fold(rs, day).Some? ==> Fold(rs, day).value != NoData
    ensures Fold(rs, day).Some? <==> MaxRank(rs, day) > 0
    ensures MaxRank(rs, day) in {0, 1, 3, 4}
  {
    if rs != [] {
      FoldIsWorst(rs[..|rs| - 1], day);
    }
  }

  function StripLength(from: int, to: int): nat { if Day(to) < Day(from) then 0 else Day(to) - Day(from) + 1 }

  // One entry per calendar day of the window.
  ghost predicate IsStrip(out: seq<DayState>, rs: seq<CheckResult>, from: int, to: int) {
    && |out| == StripLength(from, to)
    && forall i :: 0 <= i < |out| ==> out[i] == Worst(rs, Day(from) + i)
  }

  // Fills every day of the window from a day-indexed table.
  method Fill(byDay: map<int, DayState>, from: int, to: int) returns (out: seq<DayState>)
    ensures |out| == StripLength(from, to)
    ensures forall i :: 0 <= i < |out| ==>
              out[i] == if Day(from) + i in byDay then byDay[Day(from) + i] else NoData
  {
    out := [];
    var cursor, end := Day(from), Day(to);
    while cursor <= end
      invariant |out| == cursor - Day(from) && cursor <= (if end < Day(from) then Day(from) else end + 1)
      invariant forall i :: 0 <= i < |out| ==>
                  out[i] == if Day(from) + i in byDay then byDay[Day(from) + i] else NoData
    {
      out := out + [if cursor in byDay then byDay[cursor] else NoData];
      cursor := cursor + 1;
    }
  }

  // The table holds the fold of every day.
  ghost predicate Folded(byDay: map<int, DayState>, rs: seq<CheckResult>) {
    forall d :: Fold(rs, d) == if d in byDay then Some(byDay[d]) else None
  }

  lemma FoldNext(byDay: map<int, DayState>, rs: seq<CheckResult>, r: CheckResult)
    requires Folded(byDay, rs)
    ensures var day := Day(r.timestamp);
            var entry := if day in byDay then byDay[day] else Operational;
            Folded(byDay[day := Worse(entry, StateOf(r.status))], rs + [r])
  {
    hide Day, Worse;
    assert (rs + [r])[..|rs|] == rs;
  }

  method Strip(rs: seq<CheckResult>, from: int, to: int) returns (out: seq<DayState>)
    ensures IsStrip(out, rs, from, to)
  {
    hide IsStrip, StripLength;
    var byDay: map<int, DayState> := map[];
    for k := 0 to |rs|
      invariant Folded(byDay, rs[..k])
    {
      FoldNext(byDay, rs[..k], rs[k]);
      assert rs[..k] + [rs[k]] == rs[..k + 1];
      hide Folded, Day, StateRank;
      var day, state := Day(rs[k].timestamp), StateOf(rs[k].status);
      var entry := if day in byDay then byDay[day] else Operational;
      byDay := byDay[day := if StateRank(state) > StateRank(entry) then state else entry];
    }
    assert rs[..|rs|] == rs;
    out := Fill(byDay, from, to);
    FoldedStrip(byDay, rs, from, to, out);
  }

  lemma FoldedStrip(byDay: map<int, DayState>, rs: seq<CheckResult>, from: int, to: int, out: seq<DayState>)
    requires Folded(byDay, rs) && |out| == StripLength(from, to)
    requires forall i :: 0 <= i < |out|
                         ==> out[i] == if Day(from) + i in byDay then byDay[Day(from) + i] else NoData
    ensures IsStrip(out, rs, from, to)
  {
    hide Fold, Worst, Day;
    forall i | 0 <= i < |out| ensures out[i] == Worst(rs, Day(from) + i) {
      FoldIsWorst(rs, Day(from) + i);
    }
  }

  datatype DatedState = DatedState(target: nat, day: int, state: DayState)

  method StripDated(target: nat, rs: seq<CheckResult>, from: int, to: int) returns (out: seq<DatedState>)
    ensures |out| == StripLength(from, to)
    ensures forall i :: 0 <= i < |out| ==> out[i] == DatedState(target, Day(from) + i, Worst(rs, Day(from) + i))
  {
    var states := Strip(rs, from, to);
    out := seq(|states|, i requires 0 <= i < |states| => DatedState(target, Day(from) + i, states[i]));
  }

  // ---- the grouped query over all targets ----

  // The results of one target inside a window.
  function Select(results: seq<CheckResult>, target: nat, from: int, to: int): (s: seq<CheckResult>)
    ensures forall r :: r in s <==> r in results && r.target == target && from <= r.timestamp <= to
  {
    if results == [] then []
    else
      assert results == results[..|results| - 1] + [results[|results| - 1]];
      var rest, r := Select(results[..|results| - 1], target, from, to), results[|results| - 1];
      if r.target == target && from <= r.timestamp <= to then rest + [r] else rest
  }

  datatype Row = Row(target: nat, day: int, worstRank: nat)

  // The rows a GROUP BY target, day with MAX(rank) returns, in some order.
  ghost predicate IsGrouping(rows: seq<Row>, results: seq<CheckResult>, from: int, to: int) {
    && (forall i, j :: 0 <= i < j < |rows| ==> !(rows[i].target == rows[j].target && rows[i].day == rows[j].day))
    && (forall i :: 0 <= i < |rows| ==>
          rows[i].worstRank == MaxRank(Select(results, rows[i].target, from, to), rows[i].day) > 0)
    && (forall t, d :: MaxRank(Select(results, t, from, to), d) > 0 ==> HasRow(rows, |rows|, t, d))
  }

  ghost predicate HasRow(rows: seq<Row>, k: nat, t: nat, d: int)
    requires k <= |rows|
  {
    exists i :: 0 <= i < k && rows[i].target == t && rows[i].day == d
  }

  // The table built from the first k rows answers for exactly those rows.
  ghost predicate Indexed(table: map<nat, map<int, DayState>>, rows: seq<Row>, k: nat)
    requires k <= |rows|
  {
    && (forall i :: 0 <= i < k ==> rows[i].target in table && rows[i].day in table[rows[i].target]
                                   && table[rows[i].target][rows[i].day] == RankToDayState(rows[i].worstRank))
    && (forall t, d :: t in table && d in table[t] ==> HasRow(rows, k, t, d))
  }

  lemma IndexNext(was: map<nat, map<int, DayState>>, table: map<nat, map<int, DayState>>, rows: seq<Row>, k: nat)
    requires k < |rows| && Indexed(was, rows, k)
    requires forall i, j :: 0 <= i < j < |rows| ==> !(rows[i].target == rows[j].target && rows[i].day == rows[j].day)
    requires var days := if rows[k].target in was then was[rows[k].target] else map[];
             table == was[rows[k].target := days[rows[k].day := RankToDayState(rows[k].worstRank)]]
    ensures Indexed(table, rows, k + 1)
  {
    hide RankToDayState;
    forall t, d | t in table && d in table[t] ensures HasRow(rows, k + 1, t, d) {
      if !(t == rows[k].target && d == rows[k].day) {
        assert HasRow(rows, k, t, d);
      }
    }
  }

  method IndexRows(rows: seq<Row>, ghost results: seq<CheckResult>, ghost from: int, ghost to: int)
    returns (table: map<nat, map<int, DayState>>)
    requires IsGrouping(rows, results, from, to)
    ensures Indexed(table, rows, |rows|)
  {
    table := map[];
    for k := 0 to |rows|
      invariant Indexed(table, rows, k)
    {
      hide Indexed, RankToDayState;
      ghost var was := table;
      var row := rows[k];
      var days := if row.target in table then table[row.target] else map[];
      table := table[row.target := days[row.day := RankToDayState(row.worstRank)]];
      IndexNext(was, table, rows, k);
    }
  }

  /** One grouped pass over the fleet gives every target the strip of its own query
      over its own results, whatever order the rows come in. */
  method Rollup(rows: seq<Row>, targets: set<nat>, from: int, to: int, ghost results: seq<CheckResult>)
    returns (strips: map<nat, seq<DayState>>)
    requires IsGrouping(rows, results, from, to)
    ensures strips.Keys == targets
    ensures forall t :: t in targets ==> IsStrip(strips[t], Select(results, t, from, to), from, to)
  {
    var table := IndexRows(rows, results, from, to);
    strips := map[];
    var rest := targets;
    while rest != {}
      invariant rest <= targets && strips.Keys == targets - rest
      invariant forall t :: t in strips ==> IsStrip(strips[t], Select(results, t, from, to), from, to)
      decreases rest
    {
      var t :| t in rest;
      var history := Fill(if t in table then table[t] else map[], from, to);
      RollupStrip(rows, results, from, to, table, t, history);
      strips := strips[t := history];
      rest := rest - {t};
    }
  }

  lemma RollupStrip(rows: seq<Row>, results: seq<CheckResult>, from: int, to: int,
                    table: map<nat, map<int, DayState>>, t: nat, history: seq<DayState>)
    requires IsGrouping(rows, results, from, to) && Indexed(table, rows, |rows|)
    requires |history| == StripLength(from, to)
    requires var days := if t in table then table[t] else map[];
             forall i :: 0 <= i < |history|
                         ==> history[i] == if Day(from) + i in days then days[Day(from) + i] else NoData
    ensures IsStrip(history, Select(results, t, from, to), from, to)
  {
    hide Select, MaxRank, Worst, IsGrouping, Indexed, Day;
    forall i | 0 <= i < |history| ensures history[i] == Worst(Select(results, t, from, to), Day(from) + i) {
      RollupEntry(rows, results, from, to, table, t, Day(from) + i);
    }
  }

  lemma RollupEntry(rows: seq<Row>, results: seq<CheckResult>, from: int, to: int,
                    table: map<nat, map<int, DayState>>, t: nat, d: int)
    requires IsGrouping(rows, results, from, to) && Indexed(table, rows, |rows|)
    ensures (if t in table && d in table[t] then table[t][d] else NoData) == Worst(Select(results, t, from, to), d)
  {
    hide Select, MaxRank;
    var m := MaxRank(Select(results, t, from, to), d);
    assert t in table && d in table[t] <==> HasRow(rows, |rows|, t, d);
    assert m > 0 ==> HasRow(rows, |rows|, t, d);
  }

  // ---- the two dashboards ----

  // The in-memory dashboard bounds its window only from below.
  function SelectFrom(results: seq<CheckResult>, target: nat, from: int): (s: seq<CheckResult>)
    ensures forall r :: r in s <==> r in results && r.target == target && from <= r.timestamp
  {
    if results == [] then []
    else
      assert results == results[..|results| - 1] + [results[|results| - 1]];
      var rest, r := SelectFrom(results[..|results| - 1], target, from), results[|results| - 1];
      if r.target == target && from <= r.timestamp then rest + [r] else rest
  }

  ghost predicate DatedLaterToday(r: CheckResult, results: seq<CheckResult>, target: nat, to: int) {
    r in results && r.target == target && r.timestamp > to && Day(r.timestamp) == Day(to)
  }

  // A strip only differs on a day where the larger selection reaches a higher rank.
  lemma SameWorstIff(a: seq<CheckResult>, b: seq<CheckResult>, day: int)
    requires forall r :: r in a ==> r in b
    ensures Worst(a, day) == Worst(b, day)
       <==> forall r :: r in b && Day(r.timestamp) == day ==> QueryRank(r.status) <= MaxRank(a, day)
  {
    FoldIsWorst(a, day);
    FoldIsWorst(b, day);
    var m, k := MaxRank(a, day), MaxRank(b, day);
    assert m <= k by {
      if m > 0 {
        var r :| r in a && Day(r.timestamp) == day && QueryRank(r.status) == m;
        assert r in b;
      }
    }
    if m < k {
      var r :| r in b && Day(r.timestamp) == day && QueryRank(r.status) == k;
    }
  }

  /** The two dashboards show the same strip if and only if no result dated later
      today than now is worse than everything the target reported until now. */
  lemma DashboardsAgreeIff(results: seq<CheckResult>, target: nat, from: int, to: int)
    requires from <= to
    ensures (forall d :: Day(from) <= d <= Day(to) ==>
               Worst(SelectFrom(results, target, from), d) == Worst(Select(results, target, from, to), d))
       <==> (forall r :: DatedLaterToday(r, results, target, to) ==>
               QueryRank(r.status) <= MaxRank(Select(results, target, from, to), Day(to)))
  {
    hide Select, SelectFrom, MaxRank, Worst;
    var all, shown := SelectFrom(results, target, from), Select(results, target, from, to);
    assert Day(from) <= Day(to);
    forall d | Day(from) <= d < Day(to) ensures Worst(all, d) == Worst(shown, d) {
      PastDaysAgree(results, target, from, to, d);
    }
    TodayAgreesIff(results, target, from, to);
  }

  lemma PastDaysAgree(results: seq<CheckResult>, target: nat, from: int, to: int, d: int)
    requires d < Day(to)
    ensures Worst(SelectFrom(results, target, from), d) == Worst(Select(results, target, from, to), d)
  {
    hide Select, SelectFrom, Worst;
    var all, shown := SelectFrom(results, target, from), Select(results, target, from, to);
    SameWorstIff(shown, all, d);
    forall r | r in all && Day(r.timestamp) == d ensures QueryRank(r.status) <= MaxRank(shown, d) {
      assert r.timestamp <= to;
      assert r in shown;
    }
  }

  lemma TodayAgreesIff(results: seq<CheckResult>, target: nat, from: int, to: int)
    requires from <= to
    ensures Worst(SelectFrom(results, target, from), Day(to)) == Worst(Select(results, target, from, to), Day(to))
       <==> forall r :: DatedLaterToday(r, results, target, to)
                        ==> QueryRank(r.status) <= MaxRank(Select(results, target, from, to), Day(to))
  {
    hide Select, SelectFrom, Worst, Day;
    var all, shown := SelectFrom(results, target, from), Select(results, target, from, to);
    SameWorstIff(shown, all, Day(to));
    forall r | r in all && Day(r.timestamp) == Day(to)
      ensures r in shown || DatedLaterToday(r, results, target, to)
    {
    }
    forall r | DatedLaterToday(r, results, target, to) ensures r in all {
    }
    if forall r :: DatedLaterToday(r, results, target, to) ==> QueryRank(r.status) <= MaxRank(shown, Day(to)) {
      forall r | r in all && Day(r.timestamp) == Day(to) ensures QueryRank(r.status) <= MaxRank(shown, Day(to)) {
        assert r in shown || DatedLaterToday(r, results, target, to);
      }
    }
  }

  /** They do differ: a failing result dated after the moment the dashboard is drawn,
      as a probe with a clock running ahead writes it, turns the day red in memory and
      leaves it green in DuckDB. */
  lemma DashboardsDiffer(target: nat)
    ensures var results := [CheckResult(target, 10, Up, 0), CheckResult(target, 30, Down, 0)];
            && Worst(SelectFrom(results, target, 0), Day(20)) == MajorOutage
            && Worst(Select(results, target, 0, 20), Day(20)) == Operational
  {
    var up, down := CheckResult(target, 10, Up, 0), CheckResult(target, 30, Down, 0);
    var results := [up, down];
    var all, shown := SelectFrom(results, target, 0), Select(results, target, 0, 20);
    hide SelectFrom, Select, Worst;
    assert up in results && down in results;
    WorstMeaning(all, 0);
    WorstMeaning(shown, 0);
    assert down in all && Seen(all, 0, Down);
    assert up in shown && Seen(shown, 0, Up);
  }
}
