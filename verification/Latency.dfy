/** Bucketed latency percentiles. */
module Latency {
  import opened Common
  import opened CheckResults

  // ---- percentiles ----

  ghost predicate Sorted(s: seq<real>) {
    forall i, j :: 0 <= i <= j < |s| ==> s[i] <= s[j]
  }

  // Linear interpolation between the neighbours of a fractional rank.
  function AtRank(sorted: seq<real>, rank: real): real
    requires sorted != [] && 0.0 <= rank <= (|sorted| - 1) as real
  {
    var lower, upper := rank.Floor, Ceil(rank);
    if lower == upper then sorted[lower]
    else
      var frac := rank - lower as real;
      sorted[upper] * frac + sorted[lower] * (1.0 - frac)
  }

  function Percentile(sorted: seq<real>, p: real): real
    requires 0.0 <= p <= 1.0
  {
    if sorted == [] then 0.0
    else if |sorted| == 1 then sorted[0]
    else
      RankInRange(sorted, p, p);
      AtRank(sorted, Rank(sorted, p))
  }

  function Rank(sorted: seq<real>, p: real): real { Times(p, LastRank(sorted)) }

  function LastRank(sorted: seq<real>): real { (|sorted| - 1) as real }

  function Times(p: real, n: real): real { p * n }

  lemma RankInRange(sorted: seq<real>, p: real, q: real)
    requires sorted != [] && 0.0 <= p <= q <= 1.0
    ensures 0.0 <= Rank(sorted, p) <= Rank(sorted, q) <= (|sorted| - 1) as real
  {
    hide Times;
    UnitScaled(p, q, LastRank(sorted));
  }

  lemma UnitScaled(p: real, q: real, n: real)
    requires 0.0 <= p <= q <= 1.0 && n >= 0.0
    ensures 0.0 <= Times(p, n) <= Times(q, n) <= n
  {
    NonNegative(p, n);
    NonNegative(q - p, n);
    NonNegative(1.0 - q, n);
  }

  lemma Between(a: real, b: real, f: real)
    requires a <= b && 0.0 <= f <= 1.0
    ensures a <= b * f + a * (1.0 - f) <= b
  {
    NonNegative(b - a, f);
    NonNegative(b - a, 1.0 - f);
  }

  lemma Rising(a: real, b: real, f: real, g: real)
    requires a <= b && f <= g
    ensures b * f + a * (1.0 - f) <= b * g + a * (1.0 - g)
  {
    NonNegative(b - a, g - f);
  }

  lemma NonNegative(x: real, y: real)
    requires x >= 0.0 && y >= 0.0
    ensures x * y >= 0.0
  {
  }

  // The value lies between the elements around the rank.
  lemma AtRankBounds(s: seq<real>, x: real)
    requires Sorted(s) && s != [] && 0.0 <= x <= (|s| - 1) as real
    ensures s[x.Floor] <= AtRank(s, x) <= s[Ceil(x)]
  {
    if x.Floor != Ceil(x) {
      Between(s[x.Floor], s[Ceil(x)], x - x.Floor as real);
    }
  }

  lemma AtRankMonotone(s: seq<real>, x: real, y: real)
    requires Sorted(s) && s != [] && 0.0 <= x <= y <= (|s| - 1) as real
    ensures AtRank(s, x) <= AtRank(s, y)
  {
    AtRankBounds(s, x);
    AtRankBounds(s, y);
    if Ceil(x) > y.Floor {
      assert x.Floor == y.Floor;
      if x.Floor != Ceil(x) && y.Floor != Ceil(y) {
        assert Ceil(x) == Ceil(y) == x.Floor + 1;
        Rising(s[x.Floor], s[Ceil(x)], x - x.Floor as real, y - x.Floor as real);
      }
    }
  }

  /** Percentiles grow with p and stay between the smallest and largest sample; the
      one-sample special case is what the general formula gives. */
  lemma PercentileLaws(s: seq<real>, p: real, q: real)
    requires Sorted(s) && s != [] && 0.0 <= p <= q <= 1.0
    ensures s[0] <= Percentile(s, p) <= Percentile(s, q) <= s[|s| - 1]
    ensures 0.0 <= Rank(s, p) <= (|s| - 1) as real && Percentile(s, p) == AtRank(s, Rank(s, p))
  {
    hide AtRank, Rank;
    RankInRange(s, p, q);
    AtRankLaws(s, Rank(s, p), Rank(s, q));
  }

  lemma AtRankLaws(s: seq<real>, x: real, y: real)
    requires Sorted(s) && s != [] && 0.0 <= x <= y <= (|s| - 1) as real
    ensures s[0] <= AtRank(s, x) <= AtRank(s, y) <= s[|s| - 1]
  {
    hide AtRank;
    AtRankMonotone(s, x, y);
    AtRankBounds(s, x);
    AtRankBounds(s, y);
  }

  // The value lies on the line through the two elements around the rank.
  ghost predicate Interpolates(s: seq<real>, rank: real, v: real) {
    && (|s| == 1 ==> v == s[0])
    && forall k :: 0 <= k && k + 1 < |s| && k as real <= rank <= (k + 1) as real
                   ==> v == s[k] + (rank - k as real) * (s[k + 1] - s[k])
  }

  ghost predicate InterpolatesAt(s: seq<real>, p: real, v: real) { Interpolates(s, p * (|s| - 1) as real, v) }

  lemma OnLine(a: real, b: real, f: real)
    ensures b * f + a * (1.0 - f) == a + f * (b - a)
  {
  }

  lemma AtRankInterpolates(s: seq<real>, x: real)
    requires s != [] && 0.0 <= x <= (|s| - 1) as real
    ensures Interpolates(s, x, AtRank(s, x))
  {
    forall k | 0 <= k && k + 1 < |s| && k as real <= x <= (k + 1) as real
      ensures AtRank(s, x) == s[k] + (x - k as real) * (s[k + 1] - s[k])
    {
      OnLine(s[k], s[k + 1], x - k as real);
      if x == k as real {
        Nought(s[k + 1] - s[k]);
      } else if x == (k + 1) as real {
        Unit(s[k], s[k + 1]);
      } else {
        assert x.Floor == k && Ceil(x) == k + 1;
      }
    }
  }

  lemma Nought(d: real)
    ensures 0.0 * d == 0.0
  {
  }

  lemma Unit(a: real, b: real)
    ensures a + 1.0 * (b - a) == b
  {
  }

  /** A percentile is the linear interpolation at rank p * (n - 1), and zero of nothing. */
  lemma PercentileInterpolates(s: seq<real>, p: real)
    requires 0.0 <= p <= 1.0
    ensures s == [] ==> Percentile(s, p) == 0.0
    ensures s != [] ==> InterpolatesAt(s, p, Percentile(s, p))
  {
    if s != [] {
      RankInRange(s, p, p);
      AtRankInterpolates(s, Rank(s, p));
      assert Rank(s, p) == p * (|s| - 1) as real;
      hide Interpolates, AtRank;
      if |s| == 1 {
        OnlyElement(s, Rank(s, p));
      }
    }
  }

  lemma OnlyElement(s: seq<real>, x: real)
    requires |s| == 1
    ensures Interpolates(s, x, s[0])
  {
  }

  lemma Scaled(p: real, q: real, n: real)
    requires p <= q && n >= 0.0
    ensures Times(p, n) <= Times(q, n) && Times(0.0, n) == 0.0
  {
    NonNegative(q - p, n);
  }

  // ---- sorting a bucket ----

  function InsertReal(sorted: seq<real>, x: real): seq<real> {
    if sorted == [] || x < sorted[0] then [x] + sorted else [sorted[0]] + InsertReal(sorted[1..], x)
  }

  function Sort(xs: seq<real>): seq<real> {
    if xs == [] then [] else InsertReal(Sort(xs[..|xs| - 1]), xs[|xs| - 1])
  }

  lemma {:induction false} InsertRealElements(sorted: seq<real>, x: real)
    ensures multiset(InsertReal(sorted, x)) == multiset(sorted) + multiset{x}
  {
    if !(sorted == [] || x < sorted[0]) {
      InsertRealElements(sorted[1..], x);
      assert sorted == [sorted[0]] + sorted[1..];
    }
  }

  lemma SortedCons(x: real, rest: seq<real>)
    requires Sorted(rest) && forall y :: y in rest ==> x <= y
    ensures Sorted([x] + rest)
  {
    var s := [x] + rest;
    forall i, j | 0 <= i <= j < |s| ensures s[i] <= s[j] {
      assert j > 0 ==> s[j] in rest;
    }
  }

  lemma {:induction false} InsertRealSorted(sorted: seq<real>, x: real)
    requires Sorted(sorted)
    ensures Sorted(InsertReal(sorted, x))
  {
    if sorted == [] || x < sorted[0] {
      SortedCons(x, sorted);
    } else {
      var rest := InsertReal(sorted[1..], x);
      InsertRealSorted(sorted[1..], x);
      InsertRealElements(sorted[1..], x);
      forall y | y in rest ensures sorted[0] <= y {
        assert y in multiset(rest);
        assert y == x || y in sorted[1..];
      }
      hide Sorted;
      SortedCons(sorted[0], rest);
    }
  }

  lemma {:induction false} SortLaws(xs: seq<real>)
    ensures Sorted(Sort(xs)) && multiset(Sort(xs)) == multiset(xs) && |Sort(xs)| == |xs|
  {
    if xs != [] {
      SortLaws(xs[..|xs| - 1]);
      InsertRealSorted(Sort(xs[..|xs| - 1]), xs[|xs| - 1]);
      InsertRealElements(Sort(xs[..|xs| - 1]), xs[|xs| - 1]);
      assert xs == xs[..|xs| - 1] + [xs[|xs| - 1]];
    }
    assert |Sort(xs)| == |multiset(Sort(xs))|;
  }

  // ---- buckets ----

  // The window cut into n buckets.
  datatype Grid = Grid(target: nat, from: int, to: int, n: nat)

  // In the window, both edges included.
  predicate IsInside(g: Grid, r: CheckResult) { r.target == g.target && r.timestamp >= g.from && r.timestamp <= g.to }

  predicate Inside(g: Grid, r: CheckResult) { r.target == g.target && g.from <= r.timestamp <= g.to }

  function TotalSecs(g: Grid): (t: nat)
    ensures t >= 1
  {
    if g.to - g.from < NANOS_PER_SEC then 1 else (g.to - g.from) / NANOS_PER_SEC
  }

  function BucketSecs(g: Grid): (b: real)
    requires g.n >= 1
    ensures b > 0.0
  {
    TotalSecs(g) as real / g.n as real
  }

  function Secs(g: Grid, r: CheckResult): int { (r.timestamp - g.from) / NANOS_PER_SEC }

  function Index(g: Grid, r: CheckResult): (i: nat)
    requires g.n >= 1 && Inside(g, r)
    ensures i < g.n
  {
    NotNegative(Secs(g, r) as real, BucketSecs(g));
    var i := (Secs(g, r) as real / BucketSecs(g)).Floor;
    if i < g.n then i else g.n - 1
  }

  lemma NotNegative(x: real, b: real)
    requires x >= 0.0 && b > 0.0
    ensures x / b >= 0.0
  {
  }

  // Seconds from the start of the window to the start of bucket i.
  function Offset(g: Grid, i: nat): real
    requires g.n >= 1
  {
    Times(i as real, BucketSecs(g))
  }

  function Start(g: Grid, i: nat): int
    requires g.n >= 1
  {
    g.from + Offset(g, i).Floor * NANOS_PER_SEC
  }

  lemma UnderQuotient(i: nat, x: real, b: real)
    requires b > 0.0 && i as real <= x / b
    ensures Times(i as real, b) <= x
  {
    var q := x / b;
    assert q * b == x;
    NonNegative(q - i as real, b);
  }

  lemma OverQuotient(i: nat, x: real, b: real)
    requires b > 0.0 && x / b < i as real
    ensures x < Times(i as real, b)
  {
    var q := x / b;
    assert q * b == x;
    assert (i as real - q) * b > 0.0;
  }

  /** A result lands in a bucket that does not start after it and, unless it is the
      last one, ends after it. */
  lemma IndexFits(g: Grid, r: CheckResult)
    requires g.n >= 1 && Inside(g, r)
    ensures Start(g, Index(g, r)) <= r.timestamp
    ensures var secs := (r.timestamp - g.from) / 1_000_000_000;
            && Offset(g, Index(g, r)) <= secs as real
            && (Index(g, r) < g.n - 1 ==> (secs as real) < Offset(g, Index(g, r) + 1))
  {
    hide BucketSecs, Times;
    var b, x, i := BucketSecs(g), Secs(g, r), Index(g, r);
    NotNegative(x as real, b);
    Bucketed(x, b, g.n, i);
    assert Offset(g, i) == Times(i as real, b) && Offset(g, i + 1) == Times((i + 1) as real, b);
    assert Offset(g, i).Floor <= x;
  }

  // The bucket number of x seconds, for buckets of width b.
  lemma Bucketed(x: int, b: real, n: nat, i: nat)
    requires x >= 0 && b > 0.0 && n >= 1
    requires var q := (x as real / b).Floor; i == if q < n then q else n - 1
    ensures Times(i as real, b) <= x as real
    ensures i < n - 1 ==> (x as real) < Times((i + 1) as real, b)
  {
    hide Times;
    UnderQuotient(i, x as real, b);
    if i < n - 1 {
      OverQuotient(i + 1, x as real, b);
    }
  }

  lemma OffsetsAscend(g: Grid, i: nat, j: nat)
    requires g.n >= 1 && i <= j
    ensures Offset(g, 0) == 0.0 && Offset(g, i) <= Offset(g, j)
  {
    hide BucketSecs, Times;
    assert 0 as real == 0.0;
    Scaled(i as real, j as real, BucketSecs(g));
  }

  /** Bucket starts do not decrease, and the first bucket starts with the window. */
  lemma StartsAscend(g: Grid, i: nat, j: nat)
    requires g.n >= 1 && i <= j
    ensures Start(g, 0) == g.from && Start(g, i) <= Start(g, j)
    ensures Start(g, i) == g.from + Offset(g, i).Floor * 1_000_000_000
  {
    hide Offset;
    OffsetsAscend(g, i, j);
    assert Offset(g, i).Floor <= Offset(g, j).Floor;
  }

  /** The n buckets are equally wide and together span the whole seconds of the window,
      or one second if it is shorter. */
  lemma BucketsSpanWindow(g: Grid, i: nat)
    requires g.n >= 1
    ensures Offset(g, i + 1) - Offset(g, i) == Offset(g, 1)
    ensures Offset(g, g.n) == TotalSecs(g) as real
    ensures g.to - g.from < 1_000_000_000 ==> TotalSecs(g) == 1
    ensures g.to - g.from >= 1_000_000_000
            ==> TotalSecs(g) * 1_000_000_000 <= g.to - g.from < (TotalSecs(g) + 1) * 1_000_000_000
  {
    hide Times;
    Widths(i as real, BucketSecs(g));
    Parts(TotalSecs(g) as real, g.n as real);
    assert (i + 1) as real == i as real + 1.0 && 1 as real == 1.0;
  }

  lemma Widths(x: real, b: real)
    ensures Times(x + 1.0, b) - Times(x, b) == Times(1.0, b)
  {
  }

  lemma Parts(total: real, n: real)
    requires n > 0.0
    ensures Times(n, total / n) == total
  {
  }

  // Durations that fall into bucket i, in table order.
  function Durations(results: seq<CheckResult>, g: Grid, i: nat): seq<real>
    requires g.n >= 1
  {
    if results == [] then []
    else var rest, r := Durations(results[..|results| - 1], g, i), results[|results| - 1];
         if Inside(g, r) && Index(g, r) == i then rest + [r.durationMs as real] else rest
  }

  /** Each bucket holds the durations of exactly the results that fall into it, in table
      order. */
  lemma {:induction false} DurationsMeaning(results: seq<CheckResult>, g: Grid, i: nat) returns (rs: seq<CheckResult>)
    requires g.n >= 1
    ensures |rs| == |Durations(results, g, i)|
    ensures forall k :: 0 <= k < |rs| ==> Durations(results, g, i)[k] == rs[k].durationMs as real
    ensures multiset(rs) <= multiset(results)
    ensures forall r :: r in results ==>
              multiset(rs)[r] == if IsInside(g, r) && Index(g, r) == i then multiset(results)[r] else 0
  {
    rs := [];
    if results != [] {
      hide Index, Inside;
      var pre, r := results[..|results| - 1], results[|results| - 1];
      assert results == pre + [r];
      rs := DurationsMeaning(pre, g, i);
      if Inside(g, r) && Index(g, r) == i {
        rs := rs + [r];
      }
    }
  }

  function InWindow(results: seq<CheckResult>, g: Grid): nat {
    if results == [] then 0
    else InWindow(results[..|results| - 1], g) + (if IsInside(g, results[|results| - 1]) then 1 else 0)
  }

  datatype LatencyBucket = LatencyBucket(ts: int, p50: Option<real>, p95: Option<real>, p99: Option<real>, count: nat)

  function Summary(ts: int, durations: seq<real>): LatencyBucket {
    if durations == [] then LatencyBucket(ts, None, None, None, 0)
    else var sorted := Sort(durations);
         LatencyBucket(ts, Some(Percentile(sorted, 0.5)), Some(Percentile(sorted, 0.95)),
                       Some(Percentile(sorted, 0.99)), |durations|)
  }

  /** A bucket without results reports nothing; otherwise its percentiles are in
      order and within the range of its durations. */
  lemma SummaryLaws(ts: int, durations: seq<real>, lo: real, hi: real)
    requires forall d :: d in durations ==> lo <= d <= hi
    ensures var b := Summary(ts, durations);
            && b.count == |durations|
            && (b.p50.Some? <==> b.count > 0) && (b.p95.Some? <==> b.count > 0) && (b.p99.Some? <==> b.count > 0)
            && (b.count > 0 ==> lo <= b.p50.value <= b.p95.value <= b.p99.value <= hi)
  {
    if durations != [] {
      hide Percentile;
      var sorted := Sort(durations);
      SortLaws(durations);
      PercentileLaws(sorted, 0.5, 0.95);
      PercentileLaws(sorted, 0.95, 0.99);
      assert sorted[0] in multiset(sorted) && sorted[|sorted| - 1] in multiset(sorted);
      assert sorted[0] in durations && sorted[|sorted| - 1] in durations;
    }
  }

  /** The three percentiles of a bucket interpolate its sorted durations at ranks 0.5,
      0.95 and 0.99 of n - 1. */
  lemma SummaryRanks(ts: int, durations: seq<real>)
    requires durations != []
    ensures var b, sorted := Summary(ts, durations), Sort(durations);
            && b.ts == ts && b.p50.Some? && b.p95.Some? && b.p99.Some?
            && InterpolatesAt(sorted, 0.5, b.p50.value)
            && InterpolatesAt(sorted, 0.95, b.p95.value)
            && InterpolatesAt(sorted, 0.99, b.p99.value)
  {
    hide Percentile, InterpolatesAt, Sort;
    SortLaws(durations);
    PercentileInterpolates(Sort(durations), 0.5);
    PercentileInterpolates(Sort(durations), 0.95);
    PercentileInterpolates(Sort(durations), 0.99);
  }

  method LatencyBuckets(results: seq<CheckResult>, target: nat, from: int, to: int, bucketCount: nat)
    returns (out: seq<LatencyBucket>)
    ensures |out| == if bucketCount > 1 then bucketCount else 1
    ensures var g := Grid(target, from, to, |out|);
            && (forall i :: 0 <= i < |out| ==> out[i] == Summary(Start(g, i), Durations(results, g, i)))
            && (forall i, j :: 0 <= i <= j < |out| ==> from == out[0].ts <= out[i].ts <= out[j].ts)
            && CountSum(out) == InWindow(results, g)
  {
    var n := if bucketCount > 1 then bucketCount else 1;
    var g := Grid(target, from, to, n);
    var buckets := Distribute(results, g);
    hide Summary, Start, Durations;
    out := [];
    for i := 0 to n
      invariant |out| == i
      invariant forall j :: 0 <= j < i ==> out[j] == Summary(Start(g, j), Durations(results, g, j))
    {
      out := out + [Summary(Start(g, i), buckets[i])];
    }
    BucketsPartition(results, g, out);
  }

  function CountSum(out: seq<LatencyBucket>): nat {
    if out == [] then 0 else CountSum(out[..|out| - 1]) + out[|out| - 1].count
  }

  lemma BucketsPartition(results: seq<CheckResult>, g: Grid, out: seq<LatencyBucket>)
    requires g.n == |out| >= 1
    requires forall i :: 0 <= i < |out| ==> out[i] == Summary(Start(g, i), Durations(results, g, i))
    ensures forall i, j :: 0 <= i <= j < |out| ==> g.from == out[0].ts <= out[i].ts <= out[j].ts
    ensures CountSum(out) == InWindow(results, g)
  {
    hide Start, Durations;
    forall i, j | 0 <= i <= j < |out| ensures g.from == out[0].ts <= out[i].ts <= out[j].ts {
      StartsAscend(g, 0, i);
      StartsAscend(g, i, j);
    }
    CountsMatch(results, g, out, |out|);
    assert out[..|out|] == out;
    CountsAddUp(results, g);
  }

  lemma {:induction false} CountsMatch(results: seq<CheckResult>, g: Grid, out: seq<LatencyBucket>, m: nat)
    requires g.n == |out| >= 1 && m <= |out|
    requires forall i :: 0 <= i < |out| ==> out[i].count == |Durations(results, g, i)|
    ensures CountSum(out[..m]) == Total(results, g, m)
  {
    if m > 0 {
      assert out[..m][..m - 1] == out[..m - 1];
      CountsMatch(results, g, out, m - 1);
    }
  }

  method Distribute(results: seq<CheckResult>, g: Grid) returns (buckets: seq<seq<real>>)
    requires g.n >= 1
    ensures |buckets| == g.n && forall i :: 0 <= i < g.n ==> buckets[i] == Durations(results, g, i)
  {
    hide Index, Inside;
    buckets := seq(g.n, _ => []);
    for k := 0 to |results|
      invariant |buckets| == g.n
      invariant forall i :: 0 <= i < g.n ==> buckets[i] == Durations(results[..k], g, i)
    {
      var r := results[k];
      assert results[..k + 1][..k] == results[..k] && results[..k + 1][k] == r;
      if Inside(g, r) {
        var i := Index(g, r);
        buckets := buckets[i := buckets[i] + [r.durationMs as real]];
      }
    }
    assert results[..|results|] == results;
  }

  // Total length of the first m buckets.
  function Total(results: seq<CheckResult>, g: Grid, m: nat): nat
    requires g.n >= 1
  {
    if m == 0 then 0 else Total(results, g, m - 1) + |Durations(results, g, m - 1)|
  }

  lemma {:induction false} TotalNext(results: seq<CheckResult>, r: CheckResult, g: Grid, m: nat)
    requires g.n >= 1
    ensures Total(results + [r], g, m) == Total(results, g, m) + (if Inside(g, r) && Index(g, r) < m then 1 else 0)
  {
    if m > 0 {
      hide Index;
      TotalNext(results, r, g, m - 1);
      assert (results + [r])[..|results|] == results;
    }
  }

  /** No result is lost or counted twice: the bucket counts add up to the number of
      results in the window, its right edge included. */
  lemma {:induction false} CountsAddUp(results: seq<CheckResult>, g: Grid)
    requires g.n >= 1
    ensures Total(results, g, g.n) == InWindow(results, g)
  {
    if results == [] {
      TotalOfNothing(g, g.n);
    } else {
      hide Index;
      var pre, r := results[..|results| - 1], results[|results| - 1];
      CountsAddUp(pre, g);
      TotalNext(pre, r, g, g.n);
      assert results == pre + [r];
    }
  }

  lemma {:induction false} TotalOfNothing(g: Grid, m: nat)
    requires g.n >= 1
    ensures Total([], g, m) == 0
  {
    if m > 0 {
      TotalOfNothing(g, m - 1);
    }
  }
}
