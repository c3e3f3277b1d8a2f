/** `statistics`: nearest-rank percentiles of a list of timings.  Fractions are exact, in hundredths. */
module Statistics {
  import opened Text
  import opened Ordering

  predicate Leq(a: nat, b: nat) {
    a <= b
  }

  datatype Stats = Stats(count: nat, min: nat, max: nat, sum: nat, mean: real, p50: nat, p95: nat, p99: nat)

  function Sum(s: seq<nat>): nat {
    if s == [] then 0 else s[0] + Sum(s[1..])
  }

  /** `max(0, ceil(m / 100) - 1)`, where `m` is the percentage times the number of samples. */
  function Rank(m: nat): (r: nat)
    ensures m <= 100 * (r + 1) && (r > 0 ==> 100 * r < m)
  {
    var ceiling := (m + 99) / 100;
    if ceiling == 0 then 0 else ceiling - 1
  }

  lemma RankInRange(percent: nat, n: nat)
    requires percent <= 100 && n > 0
    ensures Rank(percent * n) < n
  {
    hide Rank;
    assert (100 - percent) * n >= 0;
    assert percent * n <= 100 * n;
  }

  function Percentile(ordered: seq<nat>, percent: nat): nat
    requires ordered != [] && percent <= 100
  {
    RankInRange(percent, |ordered|);
    ordered[Rank(percent * |ordered|)]
  }

  function Mean(sum: nat, n: nat): real
    requires n > 0
  {
    sum as real / n as real
  }

  /** Empty samples are refused. */
  function Compute(values: seq<nat>): Option<Stats> {
    NatOrder();
    SortSorts(values, Leq);
    var ordered := Sort(values, Leq);
    if ordered == [] then None
    else
      Some(Stats(|ordered|, ordered[0], ordered[|ordered| - 1], Sum(ordered),
                 Mean(Sum(ordered), |ordered|),
                 Percentile(ordered, 50), Percentile(ordered, 95), Percentile(ordered, 99)))
  }

  lemma NatOrder()
    ensures TotalOrder(Leq)
  {
  }

  // ----- what the numbers mean ------------------------------------------------------

  function CountLeq(s: seq<nat>, v: nat): nat {
    if s == [] then 0 else (if s[0] <= v then 1 else 0) + CountLeq(s[1..], v)
  }

  /** At least `percent` hundredths of the samples are at or below `v`. */
  predicate Reaches(s: seq<nat>, percent: nat, v: nat) {
    CountLeq(s, v) * 100 >= percent * |s|
  }

  /** `v` is the least sample that reaches the fraction. */
  ghost predicate IsPercentile(s: seq<nat>, percent: nat, v: nat) {
    && v in s
    && Reaches(s, percent, v)
    && forall w <- s :: Reaches(s, percent, w) ==> v <= w
  }

  lemma {:induction false} InsertCounts(x: nat, s: seq<nat>, v: nat)
    ensures CountLeq(Insert(x, s, Leq), v) == CountLeq(s, v) + if x <= v then 1 else 0
    ensures Sum(Insert(x, s, Leq)) == Sum(s) + x
  {
    var r := Insert(x, s, Leq);
    if s == [] {
      assert r[1..] == [];
    } else if x <= s[0] {
      assert r[1..] == s;
    } else {
      assert r[0] == s[0] && r[1..] == Insert(x, s[1..], Leq);
      InsertCounts(x, s[1..], v);
    }
  }

  lemma {:induction false} SortCounts(s: seq<nat>, v: nat)
    ensures CountLeq(Sort(s, Leq), v) == CountLeq(s, v)
    ensures Sum(Sort(s, Leq)) == Sum(s)
  {
    if s != [] {
      SortCounts(s[1..], v);
      InsertCounts(s[0], Sort(s[1..], Leq), v);
    }
  }

  /** In an ordered list, the first `k` items being at most `v` is the count being at least `k`. */
  lemma {:induction false} OrderedCount(s: seq<nat>, k: nat, v: nat)
    requires Sorted(s, Leq) && 0 < k <= |s|
    ensures CountLeq(s, v) >= k <==> s[k - 1] <= v
  {
    if s[0] > v {
      NothingBelow(s, v);
      assert Leq(s[0], s[0]);
      assert k > 1 ==> Leq(s[0], s[k - 1]);
    } else if k > 1 {
      OrderedCount(s[1..], k - 1, v);
    }
  }

  lemma {:induction false} NothingBelow(s: seq<nat>, v: nat)
    requires Sorted(s, Leq) && (s == [] || s[0] > v)
    ensures CountLeq(s, v) == 0
  {
    if |s| > 1 {
      assert Leq(s[0], s[1]);
      NothingBelow(s[1..], v);
    }
  }

  /** The item of that rank reaches `m` hundredths, and any item that does is at least as large. */
  lemma RankReaches(s: seq<nat>, m: nat, w: nat)
    requires Sorted(s, Leq) && Rank(m) < |s| && w in s
    ensures CountLeq(s, s[Rank(m)]) * 100 >= m
    ensures CountLeq(s, w) * 100 >= m ==> s[Rank(m)] <= w
  {
    hide Rank, CountLeq;
    var r := Rank(m);
    OrderedCount(s, r + 1, s[r]);
    if r == 0 {
      var i :| 0 <= i < |s| && s[i] == w;
      assert i > 0 ==> Leq(s[0], s[i]);
    } else {
      OrderedCount(s, r + 1, w);
    }
  }

  lemma PercentileOfOrdered(s: seq<nat>, percent: nat)
    requires Sorted(s, Leq) && s != [] && percent <= 100
    ensures IsPercentile(s, percent, Percentile(s, percent))
  {
    hide Rank, CountLeq;
    RankInRange(percent, |s|);
    RankReaches(s, percent * |s|, s[0]);
    forall w <- s | Reaches(s, percent, w)
      ensures Percentile(s, percent) <= w
    {
      RankReaches(s, percent * |s|, w);
    }
  }

  /** The reported percentiles are the nearest-rank percentiles of the samples as given. */
  lemma PercentileIsNearestRank(values: seq<nat>, percent: nat)
    requires values != [] && percent <= 100
    ensures |Sort(values, Leq)| == |values|
    ensures IsPercentile(values, percent, Percentile(Sort(values, Leq), percent))
  {
    NatOrder();
    SortSorts(values, Leq);
    var s := Sort(values, Leq);
    var v := Percentile(s, percent);
    PercentileOfOrdered(s, percent);
    forall w
      ensures CountLeq(s, w) == CountLeq(values, w) && (w in s <==> w in values)
    {
      SortCounts(values, w);
      assert w in s <==> w in multiset(s);
      assert w in values <==> w in multiset(values);
    }
  }

  lemma RankMonotone(p: nat, q: nat, n: nat)
    requires p <= q
    ensures Rank(p * n) <= Rank(q * n)
  {
    assert p * n <= q * n by {
      assert (q - p) * n >= 0;
    }
  }

  lemma {:induction false} SumBounds(s: seq<nat>, low: nat, high: nat)
    requires forall x <- s :: low <= x <= high
    ensures low * |s| <= Sum(s) <= high * |s|
  {
    if s != [] {
      assert s[0] in s;
      assert forall x <- s[1..] :: x in s;
      SumBounds(s[1..], low, high);
      OneMore(low, |s| - 1);
      OneMore(high, |s| - 1);
    }
  }

  lemma OneMore(x: nat, n: nat)
    ensures x * (n + 1) == x * n + x
  {
  }

  lemma MeanBetween(s: seq<nat>)
    requires Sorted(s, Leq) && s != []
    ensures s[0] as real <= Sum(s) as real / |s| as real <= s[|s| - 1] as real
  {
    var n := |s|;
    forall x <- s
      ensures s[0] <= x <= s[n - 1]
    {
      var i :| 0 <= i < n && s[i] == x;
      assert i > 0 ==> Leq(s[0], s[i]);
      assert i < n - 1 ==> Leq(s[i], s[n - 1]);
    }
    SumBounds(s, s[0], s[n - 1]);
    QuotientBetween(s[0], Sum(s), s[n - 1], n);
  }

  lemma QuotientBetween(low: nat, sum: nat, high: nat, n: nat)
    requires n > 0 && low * n <= sum <= high * n
    ensures low as real <= sum as real / n as real <= high as real
  {
    var q := sum as real / n as real;
    assert q * n as real == sum as real;
    assert low as real * n as real == (low * n) as real;
    assert high as real * n as real == (high * n) as real;
  }

  /** min <= p50 <= p95 <= p99 <= max, the mean lies between them, and every figure is about the given samples. */
  lemma StatisticsOrdered(values: seq<nat>)
    requires values != []
    ensures var r := Compute(values);
            && r.Some?
            && var t := r.value;
            && t.count == |values| && t.sum == Sum(values)
            && t.min in values && t.max in values && (forall v <- values :: t.min <= v <= t.max)
            && t.min <= t.p50 <= t.p95 <= t.p99 <= t.max
            && t.min as real <= t.mean <= t.max as real
            && IsPercentile(values, 50, t.p50) && IsPercentile(values, 95, t.p95) && IsPercentile(values, 99, t.p99)
  {
    hide IsPercentile, Sort, Percentile;
    NatOrder();
    SortSorts(values, Leq);
    var s := Sort(values, Leq);
    SortCounts(values, 0);
    PercentileIsNearestRank(values, 50);
    PercentileIsNearestRank(values, 95);
    PercentileIsNearestRank(values, 99);
    MeanBetween(s);
    PercentilesOrdered(s);
    OrderedEnds(values);
  }

  ghost predicate IsMean(mean: real, n: nat, sum: nat) {
    mean * n as real == sum as real
  }

  /** The mean times the count is the sum. */
  lemma MeanIs(values: seq<nat>)
    requires values != []
    ensures Compute(values).Some?
    ensures var t := Compute(values).value;
            IsMean(t.mean, t.count, t.sum) && t.count == |values| && t.sum == Sum(values)
  {
    hide Sort, Percentile, Sum, Mean, IsMean;
    NatOrder();
    SortSorts(values, Leq);
    SortCounts(values, 0);
    QuotientBack(Sum(Sort(values, Leq)), |Sort(values, Leq)|);
  }

  lemma QuotientBack(sum: nat, n: nat)
    requires n > 0
    ensures IsMean(Mean(sum, n), n, sum)
  {
  }

  /** The sum adds up: nothing for no samples, a sample for itself, and parts to the whole. */
  lemma {:induction false} SumAddsUp(a: seq<nat>, b: seq<nat>)
    ensures Sum([]) == 0 && (forall x: nat :: Sum([x]) == x) && Sum(a + b) == Sum(a) + Sum(b)
  {
    forall x: nat
      ensures Sum([x]) == x
    {
      assert [x][1..] == [];
    }
    if a == [] {
      assert a + b == b;
    } else {
      SumAddsUp(a[1..], b);
      assert (a + b)[1..] == a[1..] + b;
    }
  }

  lemma PercentilesOrdered(s: seq<nat>)
    requires Sorted(s, Leq) && s != []
    ensures s[0] <= Percentile(s, 50) <= Percentile(s, 95) <= Percentile(s, 99) <= s[|s| - 1]
  {
    hide Rank;
    var n := |s|;
    RankMonotone(50, 95, n);
    RankMonotone(95, 99, n);
    RankInRange(99, n);
    assert forall i, j :: 0 <= i < j < n ==> Leq(s[i], s[j]);
  }

  lemma OrderedEnds(values: seq<nat>)
    requires values != []
    ensures var s := Sort(values, Leq);
            && |s| == |values|
            && s[0] in values && s[|s| - 1] in values && forall v <- values :: s[0] <= v <= s[|s| - 1]
  {
    NatOrder();
    SortSorts(values, Leq);
    var s := Sort(values, Leq);
    forall v
      ensures v in s <==> v in values
    {
      assert v in s <==> v in multiset(s);
      assert v in values <==> v in multiset(values);
    }
    forall v <- values
      ensures s[0] <= v <= s[|s| - 1]
    {
      var i :| 0 <= i < |s| && s[i] == v;
      assert i > 0 ==> Leq(s[0], s[i]);
      assert i < |s| - 1 ==> Leq(s[i], s[|s| - 1]);
    }
  }

  /** The order of the samples does not matter. */
  lemma StatisticsOfPermutation(a: seq<nat>, b: seq<nat>)
    requires multiset(a) == multiset(b)
    ensures Compute(a) == Compute(b)
  {
    NatOrder();
    SortOfPermutation(a, b, Leq);
  }
}
