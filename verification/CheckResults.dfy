/** The check-result table of the in-memory store: recording, reading the newest
    results of a target, and the retention purge. */
module CheckResults {

  datatype CheckStatus = Up | Down | Degraded | Error

  // Timestamps count nanoseconds.
  datatype CheckResult = CheckResult(target: nat, timestamp: int, status: CheckStatus, durationMs: nat)

  function RecordResult(results: seq<CheckResult>, r: CheckResult): seq<CheckResult> {
    if results == [] then [r]
    else if results[0].target == r.target && results[0].timestamp == r.timestamp then [r] + results[1..]
    else [results[0]] + RecordResult(results[1..], r)
  }

  function OfTarget(results: seq<CheckResult>, target: nat): seq<CheckResult> {
    if results == [] then []
    else var rest := OfTarget(results[..|results| - 1], target);
         var r := results[|results| - 1];
         if r.target == target then rest + [r] else rest
  }

  // Stable insertion into a list sorted newest first.
  function Insert(sorted: seq<CheckResult>, r: CheckResult): seq<CheckResult> {
    if sorted == [] || r.timestamp > sorted[0].timestamp then [r] + sorted
    else [sorted[0]] + Insert(sorted[1..], r)
  }

  function SortNewestFirst(rs: seq<CheckResult>): seq<CheckResult> {
    if rs == [] then [] else Insert(SortNewestFirst(rs[..|rs| - 1]), rs[|rs| - 1])
  }

  // Every result of a target, newest first.
  function History(results: seq<CheckResult>, target: nat): seq<CheckResult> {
    SortNewestFirst(OfTarget(results, target))
  }

  function Take(rs: seq<CheckResult>, limit: nat): seq<CheckResult> {
    if limit < |rs| then rs[..limit] else rs
  }

  function ListResults(results: seq<CheckResult>, target: nat, limit: nat): seq<CheckResult> {
    Take(History(results, target), limit)
  }

  function DeleteOlder(results: seq<CheckResult>, cutoff: int): seq<CheckResult> {
    if results == [] then []
    else var rest := DeleteOlder(results[..|results| - 1], cutoff);
         var r := results[|results| - 1];
         if r.timestamp >= cutoff then rest + [r] else rest
  }

  ghost predicate NewestFirst(rs: seq<CheckResult>) {
    forall i, j :: 0 <= i < j < |rs| ==> rs[i].timestamp > rs[j].timestamp
  }

  // The table never holds two results of one target and time.
  ghost predicate UniqueTimes(results: seq<CheckResult>) {
    forall i, j :: 0 <= i < j < |results| ==>
      !(results[i].target == results[j].target && results[i].timestamp == results[j].timestamp)
  }

  ghost predicate Newer(r: CheckResult, rs: seq<CheckResult>) {
    forall x :: x in rs ==> x.timestamp < r.timestamp
  }

  // ---- sorting ----

  lemma {:induction false} InsertElements(sorted: seq<CheckResult>, r: CheckResult)
    ensures multiset(Insert(sorted, r)) == multiset(sorted) + multiset{r}
  {
    if !(sorted == [] || r.timestamp > sorted[0].timestamp) {
      InsertElements(sorted[1..], r);
      assert sorted == [sorted[0]] + sorted[1..];
    }
  }

  lemma {:induction false} SortElements(rs: seq<CheckResult>)
    ensures multiset(SortNewestFirst(rs)) == multiset(rs)
  {
    if rs != [] {
      SortElements(rs[..|rs| - 1]);
      InsertElements(SortNewestFirst(rs[..|rs| - 1]), rs[|rs| - 1]);
      assert rs == rs[..|rs| - 1] + [rs[|rs| - 1]];
    }
  }

  lemma SameElements(a: seq<CheckResult>, b: seq<CheckResult>, x: CheckResult)
    requires multiset(a) == multiset(b)
    ensures x in a <==> x in b
  {
    assert x in a <==> x in multiset(a);
  }

  lemma {:induction false} InsertSorted(sorted: seq<CheckResult>, r: CheckResult)
    requires NewestFirst(sorted) && forall x :: x in sorted ==> x.timestamp != r.timestamp
    ensures NewestFirst(Insert(sorted, r))
  {
    if !(sorted == [] || r.timestamp > sorted[0].timestamp) {
      var rest := Insert(sorted[1..], r);
      InsertSorted(sorted[1..], r);
      InsertElements(sorted[1..], r);
      forall j | 0 <= j < |rest| ensures sorted[0].timestamp > rest[j].timestamp {
        assert rest[j] in multiset(rest);
        assert rest[j] == r || rest[j] in sorted[1..];
      }
    }
  }

  lemma {:induction false} OfTargetElements(results: seq<CheckResult>, target: nat, x: CheckResult)
    ensures x in OfTarget(results, target) <==> x in results && x.target == target
  {
    if results != [] {
      OfTargetElements(results[..|results| - 1], target, x);
      assert results == results[..|results| - 1] + [results[|results| - 1]];
    }
  }

  lemma HistoryElements(results: seq<CheckResult>, target: nat, x: CheckResult)
    ensures x in History(results, target) <==> x in results && x.target == target
  {
    OfTargetElements(results, target, x);
    SortElements(OfTarget(results, target));
    SameElements(History(results, target), OfTarget(results, target), x);
  }

  lemma {:induction false} HistorySorted(results: seq<CheckResult>, target: nat)
    requires UniqueTimes(results)
    ensures NewestFirst(History(results, target))
  {
    if results != [] {
      var pre, r := results[..|results| - 1], results[|results| - 1];
      HistorySorted(pre, target);
      var rest := OfTarget(pre, target);
      if r.target == target {
        assert (rest + [r])[..|rest|] == rest;
        forall x | x in History(pre, target) ensures x.timestamp != r.timestamp {
          HistoryElements(pre, target, x);
        }
        InsertSorted(History(pre, target), r);
      }
    }
  }

  // ---- recording ----

  // Recording replaces the first result of the same target and time, or appends.
  lemma {:induction false} RecordAt(results: seq<CheckResult>, r: CheckResult, i: nat)
    requires i <= |results|
    requires forall j :: 0 <= j < i ==> !(results[j].target == r.target && results[j].timestamp == r.timestamp)
    requires i < |results| ==> results[i].target == r.target && results[i].timestamp == r.timestamp
    ensures RecordResult(results, r) == if i < |results| then results[i := r] else results + [r]
  {
    if i > 0 {
      RecordAt(results[1..], r, i - 1);
      assert results == [results[0]] + results[1..];
    } else if results != [] {
      assert results[0 := r] == [r] + results[1..];
    }
  }

  lemma {:induction false} RecordAppends(results: seq<CheckResult>, r: CheckResult)
    requires forall x :: x in results && x.target == r.target ==> x.timestamp != r.timestamp
    ensures RecordResult(results, r) == results + [r]
  {
    if results != [] {
      assert results[0] in results;
      RecordAppends(results[1..], r);
      assert results == [results[0]] + results[1..];
    }
  }

  /** Recording keeps one result per target and time: the result is present
      afterwards, one of the same target and time is replaced, all others stay. */
  lemma {:induction false} RecordKeepsUnique(results: seq<CheckResult>, r: CheckResult)
    requires UniqueTimes(results)
    ensures UniqueTimes(RecordResult(results, r))
    ensures forall x :: x in RecordResult(results, r) <==>
              x == r || (x in results && !(x.target == r.target && x.timestamp == r.timestamp))
  {
    if results != [] {
      var rest := RecordResult(results[1..], r);
      assert results == [results[0]] + results[1..];
      assert forall i :: 0 < i < |results| ==> results[i] == results[1..][i - 1];
      RecordKeepsUnique(results[1..], r);
      if results[0].target == r.target && results[0].timestamp == r.timestamp {
        assert forall x :: x in results[1..] ==> !(x.target == r.target && x.timestamp == r.timestamp);
      } else {
        forall j | 0 <= j < |rest|
          ensures !(results[0].target == rest[j].target && results[0].timestamp == rest[j].timestamp)
        {
          assert rest[j] in rest;
        }
      }
    }
  }

  lemma RecordNewest(results: seq<CheckResult>, r: CheckResult)
    requires Newer(r, History(results, r.target))
    ensures RecordResult(results, r) == results + [r]
    ensures History(results + [r], r.target) == [r] + History(results, r.target)
    ensures forall t :: t != r.target ==> History(results + [r], t) == History(results, t)
  {
    forall x | x in results && x.target == r.target ensures x.timestamp != r.timestamp {
      HistoryElements(results, r.target, x);
    }
    RecordAppends(results, r);
    assert (results + [r])[..|results|] == results;
    var old' := OfTarget(results, r.target);
    assert (old' + [r])[..|old'|] == old';
    if History(results, r.target) != [] {
      assert History(results, r.target)[0] in History(results, r.target);
    }
  }

  // ---- purging ----

  lemma {:induction false} OfTargetPurged(results: seq<CheckResult>, target: nat, cutoff: int)
    ensures OfTarget(DeleteOlder(results, cutoff), target) == DeleteOlder(OfTarget(results, target), cutoff)
  {
    if results != [] {
      var pre, r := results[..|results| - 1], results[|results| - 1];
      OfTargetPurged(pre, target, cutoff);
      var a, b := DeleteOlder(pre, cutoff), OfTarget(pre, target);
      assert (a + [r])[..|a|] == a && (b + [r])[..|b|] == b;
    }
  }

  // The results of a newest-first list that a purge keeps.
  function KeptCount(sorted: seq<CheckResult>, cutoff: int): (n: nat)
    ensures n <= |sorted|
    ensures forall i :: 0 <= i < n ==> sorted[i].timestamp >= cutoff
    ensures n < |sorted| ==> sorted[n].timestamp < cutoff
  {
    if sorted == [] || sorted[0].timestamp < cutoff then 0 else 1 + KeptCount(sorted[1..], cutoff)
  }

  function Kept(sorted: seq<CheckResult>, cutoff: int): seq<CheckResult> { sorted[..KeptCount(sorted, cutoff)] }

  lemma KeptCons(x: CheckResult, rest: seq<CheckResult>, cutoff: int)
    ensures Kept([x] + rest, cutoff) == if x.timestamp < cutoff then [] else [x] + Kept(rest, cutoff)
  {
    assert ([x] + rest)[1..] == rest;
  }

  lemma {:induction false} InsertKept(sorted: seq<CheckResult>, r: CheckResult, cutoff: int)
    ensures Kept(Insert(sorted, r), cutoff)
         == if r.timestamp >= cutoff then Insert(Kept(sorted, cutoff), r) else Kept(sorted, cutoff)
  {
    hide Kept;
    if sorted == [] {
      KeptCons(r, [], cutoff);
      KeptNil(cutoff);
    } else {
      var x, rest := sorted[0], sorted[1..];
      assert sorted == [x] + rest;
      KeptCons(x, rest, cutoff);
      if r.timestamp > x.timestamp {
        KeptCons(r, sorted, cutoff);
      } else {
        KeptCons(x, Insert(rest, r), cutoff);
        InsertKept(rest, r, cutoff);
        assert ([x] + Kept(rest, cutoff))[1..] == Kept(rest, cutoff);
      }
    }
  }

  lemma KeptNil(cutoff: int)
    ensures Kept([], cutoff) == []
  {
  }

  lemma {:induction false} SortPurged(rs: seq<CheckResult>, cutoff: int)
    ensures var sorted := SortNewestFirst(rs);
            SortNewestFirst(DeleteOlder(rs, cutoff)) == Kept(sorted, cutoff)
  {
    if rs != [] {
      var pre, r := rs[..|rs| - 1], rs[|rs| - 1];
      SortPurged(pre, cutoff);
      InsertKept(SortNewestFirst(pre), r, cutoff);
      var kept := DeleteOlder(pre, cutoff);
      assert (kept + [r])[..|kept|] == kept;
    }
  }

  /** A purge cuts every target's newest-first history off at the cutoff. */
  lemma PurgeTruncatesHistory(results: seq<CheckResult>, target: nat, cutoff: int)
    ensures var h := History(results, target);
            History(DeleteOlder(results, cutoff), target) == h[..KeptCount(h, cutoff)]
  {
    OfTargetPurged(results, target, cutoff);
    SortPurged(OfTarget(results, target), cutoff);
  }

  lemma {:induction false} PurgeElements(results: seq<CheckResult>, cutoff: int)
    requires UniqueTimes(results)
    ensures UniqueTimes(DeleteOlder(results, cutoff))
    ensures forall x :: x in DeleteOlder(results, cutoff) <==> x in results && x.timestamp >= cutoff
  {
    if results != [] {
      var pre, r := results[..|results| - 1], results[|results| - 1];
      PurgeElements(pre, cutoff);
      assert results == pre + [r];
      var kept := DeleteOlder(pre, cutoff);
      forall i | 0 <= i < |kept|
        ensures !(kept[i].target == r.target && kept[i].timestamp == r.timestamp)
      {
        assert kept[i] in kept;
      }
    }
  }
}
