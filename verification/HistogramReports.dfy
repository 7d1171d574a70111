/** What each value that a histogram flush reports is, in terms of the points recorded. */
module HistogramReports {
  import opened OrderStatistics
  import opened Histogram
  import opened Sums
  import opened Words

  /** k is the whole number nearest to p, halves going up. */
  predicate Nearest(p: real, k: int) { k as real - 0.5 <= p < k as real + 0.5 }

  /** `v` is the percentile of `s` at `rank`: the order statistic nearest to rank times size. */
  ghost predicate IsPercentile(s: seq<real>, rank: real, v: real) {
    exists k: nat :: IsKth(s, k, v) && Nearest(rank * |s| as real, k)
  }

  lemma {:induction false} NearestUnique(p: real, j: int, k: int)
    requires Nearest(p, j) && Nearest(p, k)
    ensures j == k
  {
  }

  /** There is only one. */
  lemma {:induction false} PercentileUnique(s: seq<real>, rank: real, v: real, w: real)
    requires IsPercentile(s, rank, v) && IsPercentile(s, rank, w)
    ensures v == w
  {
    var j: nat :| IsKth(s, j, v) && Nearest(rank * |s| as real, j);
    var k: nat :| IsKth(s, k, w) && Nearest(rank * |s| as real, k);
    NearestUnique(rank * |s| as real, j, k);
    KthUnique(s, j, v, w);
  }

  lemma {:induction false} RoundIsNearest(p: real)
    ensures Nearest(p, RoundHalfUp(p))
  {
  }

  lemma {:induction false} AtRankIsPercentile(s: seq<real>, rank: real)
    requires s != [] && 0.5 <= rank <= 1.0
    ensures Sorted(s) != [] && IsPercentile(s, rank, AtRank(Sorted(s), rank))
  {
    RanksInRange(rank, |s|);
    PercentileIsKth(s, rank);
    RoundIsNearest(rank * |s| as real);
    assert IsKth(s, NearestRank(rank, |s|), AtRank(Sorted(s), rank));
  }

  /** Every percentile field of a summary is the percentile that its name says. */
  lemma {:induction false} SummaryFields(s: seq<real>, count: nat)
    requires s != []
    ensures var r := Summary(s, count);
            && IsPercentile(s, 0.5, r.median)
            && IsPercentile(s, 0.75, r.p75) && IsPercentile(s, 0.95, r.p95) && IsPercentile(s, 0.98, r.p98)
            && IsPercentile(s, 0.99, r.p99) && IsPercentile(s, 0.999, r.p999)
  {
    AtRankIsPercentile(s, 0.5);
    AtRankIsPercentile(s, 0.75);
    AtRankIsPercentile(s, 0.95);
    AtRankIsPercentile(s, 0.98);
    AtRankIsPercentile(s, 0.99);
    AtRankIsPercentile(s, 0.999);
  }

  predicate IsMin(s: seq<real>, v: real) { v in s && forall x :: x in s ==> v <= x }

  predicate IsMax(s: seq<real>, v: real) { v in s && forall x :: x in s ==> x <= v }

  lemma Quotient(a: real, b: real)
    requires b > 0.0
    ensures a / b * b == a
  {
  }

  /** The two values that are always reported. */
  ghost predicate CountLines(report: seq<(string, real)>, count: real, period: nat) {
    && |report| >= 2
    && report[0] == (".count", count)
    && report[1].0 == ".count_ps" && report[1].1 * period as real == count
  }

  /** The values that describe what was recorded. */
  ghost predicate ValueLines(report: seq<(string, real)>, s: seq<real>) {
    && |report| == 12
    && report[2].0 == ".min" && IsMin(s, report[2].1)
    && report[3].0 == ".max" && IsMax(s, report[3].1)
    && report[4] == (".sum", Sum(s))
    && s != [] && report[5] == (".mean", Sum(s) / |s| as real)
    && report[6].0 == ".median" && IsPercentile(s, 0.5, report[6].1)
    && report[7].0 == ".percentile.75" && IsPercentile(s, 0.75, report[7].1)
    && report[8].0 == ".percentile.95" && IsPercentile(s, 0.95, report[8].1)
    && report[9].0 == ".percentile.98" && IsPercentile(s, 0.98, report[9].1)
    && report[10].0 == ".percentile.99" && IsPercentile(s, 0.99, report[10].1)
    && report[11].0 == ".percentile.999" && IsPercentile(s, 0.999, report[11].1)
  }

  lemma {:induction false} ReportCounts(r: Sample, period: nat)
    requires period > 0
    ensures CountLines(Report(r, period), r.count, period)
  {
    Quotient(r.count, period as real);
  }

  /** A summary that says the right thing in every field. */
  ghost predicate IsSummary(r: Sample, s: seq<real>) {
    && s != [] && IsMin(s, r.min) && IsMax(s, r.max)
    && r.sum == Sum(s) && r.mean == Sum(s) / |s| as real
    && IsPercentile(s, 0.5, r.median)
    && IsPercentile(s, 0.75, r.p75) && IsPercentile(s, 0.95, r.p95) && IsPercentile(s, 0.98, r.p98)
    && IsPercentile(s, 0.99, r.p99) && IsPercentile(s, 0.999, r.p999)
  }

  lemma {:induction false} SummaryIsSummary(s: seq<real>, count: nat)
    requires s != []
    ensures IsSummary(Summary(s, count), s)
  {
    SummaryOrder(s, count);
    SummaryFields(s, count);
  }

  lemma {:induction false} ReportLines(r: Sample, s: seq<real>, period: nat)
    requires r.count != 0.0 && period > 0 && IsSummary(r, s)
    ensures ValueLines(Report(r, period), s)
  {
  }

  lemma {:induction false} ReportValues(s: seq<real>, count: nat, period: nat)
    requires s != [] && count > 0 && period > 0
    ensures ValueLines(Report(Summary(s, count), period), s)
  {
    SummaryCount(Recorded(s, count));
    SummaryIsSummary(s, count);
    ReportLines(Summary(s, count), s, period);
  }

  /**
    A whole report, over every run: under each suffix, in the order sent, what it says of the
    points recorded since the last flush.
   */
  lemma {:induction false} ReportSays(convert: real -> nat, ops: seq<Op>, period: nat)
    requires IsConversion(convert) && InRange(Since(ops)) && period > 0
    ensures var h := Run(convert, ops); var report := Report(Summary(h.values, h.count), period);
            && CountLines(report, Floors(Since(ops)) as real, period)
            && (if forall i :: 0 <= i < |Since(ops)| ==> Since(ops)[i].freq < 1.0 then |report| == 2
                else ValueLines(report, Firsts(Values(Since(ops)), 65535)))
  {
    var h := Run(convert, ops);
    RunStores(convert, ops);
    SummaryCount(h);
    ReportCounts(Summary(h.values, h.count), period);
    SilentExactlyWhen(convert, ops, period);
    FloorsPositive(Since(ops));
    if h.count > 0 { ReportValues(h.values, h.count, period); }
  }

  /** An empty histogram reports zeros. */
  lemma {:induction false} EmptySummary(count: nat)
    ensures Summary([], count) == Sample(0.0, 0.0, 0.0, 0.0, 0.0, 0.0, 0.0, 0.0, 0.0, 0.0, 0.0)
  {
  }

  // ----- capacity -----

  /** The capacity after n enlargements. */
  function GrownTimes(n: nat): (alloc: nat)
    ensures alloc <= USHRT_MAX
  {
    if n == 0 then 0
    else
      var before := GrownTimes(n - 1);
      if before == USHRT_MAX then before else Grown(before)
  }

  function Doubled(n: nat): nat { if n == 0 then 16 else 2 * Doubled(n - 1) }

  lemma {:induction false} DoubledSteps()
    ensures Doubled(4) == 256 && Doubled(8) == 4096 && Doubled(11) == 32768
  {
    assert Doubled(4) == 8 * Doubled(1);
    assert Doubled(6) == 4 * Doubled(4);
    assert Doubled(8) == 4 * Doubled(6);
    assert Doubled(10) == 4 * Doubled(8);
  }

  lemma {:induction false} DoubledGrows(m: nat, n: nat)
    requires m <= n
    ensures Doubled(m) <= Doubled(n)
    decreases n
  {
    if m == n {
    } else {
      DoubledGrows(m, n - 1);
    }
  }

  /** The first enlargement is to 16, each of the next eleven doubles, and the thirteenth reaches the limit. */
  lemma {:induction false} CapacitySteps(n: nat)
    requires 1 <= n
    ensures GrownTimes(n) == if n <= 12 then Doubled(n - 1) else 65535
  {
    DoubledSteps();
    if n == 1 {
    } else {
      CapacitySteps(n - 1);
      if n <= 13 { DoubledGrows(n - 2, 11); }
      if n <= 12 { DoubledGrows(n - 1, 11); }
      DoubledGrows(0, n - 2);
    }
  }
}
