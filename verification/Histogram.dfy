/** The histogram of src/histogram.c, and what a flush reports of it (src/metric.c). */
module Histogram {
  import opened OrderStatistics
  import opened Sums
  import opened Words

  const USHRT_MAX := 65535

  // ----- percentiles -----

  /** The nearest rank: `floor(rank * size + 0.5)`. */
  function NearestRank(rank: real, size: nat): int { RoundHalfUp(rank * size as real) }

  function RoundHalfUp(p: real): int { (p + 0.5).Floor }

  lemma Product(a: real, b: real)
    requires a >= 0.0 && b >= 0.0
    ensures a * b >= 0.0
  {
  }

  lemma Times(a: real, b: real, n: real)
    requires a <= b && n >= 0.0
    ensures a * n <= b * n
  {
    Product(b - a, n);
    assert b * n - a * n == (b - a) * n;
  }

  lemma PartOf(rank: real, n: real)
    requires 0.5 <= rank <= 1.0 && n >= 1.0
    ensures 0.5 <= rank * n <= n
  {
    Product(rank - 0.5, n);
    Product(1.0 - rank, n);
    assert rank * n == (rank - 0.5) * n + n / 2.0;
    assert rank * n == n - (1.0 - rank) * n;
  }

  lemma {:induction false} FloorInRange(p: real, size: nat)
    ensures 1 <= RoundHalfUp(p) <= size <==> 0.5 <= p < size as real + 0.5
  {
  }

  /** The index is in range exactly when the rank is at least half a value and at most half a value too high. */
  lemma {:induction false} RankInRange(rank: real, size: nat)
    ensures 1 <= NearestRank(rank, size) <= size <==> 0.5 <= rank * size as real < size as real + 0.5
  {
    FloorInRange(rank * size as real, size);
  }

  /** So it is for every non-empty histogram and rank from one half to one. */
  lemma {:induction false} RanksInRange(rank: real, size: nat)
    requires 0.5 <= rank <= 1.0 && size > 0
    ensures 1 <= NearestRank(rank, size) <= size
  {
    PartOf(rank, size as real);
    FloorInRange(rank * size as real, size);
  }

  lemma {:induction false} RankOrder(a: real, b: real, size: nat)
    requires a <= b
    ensures NearestRank(a, size) <= NearestRank(b, size)
  {
    Times(a, b, size as real);
    RoundOrder(a * size as real, b * size as real);
  }

  lemma {:induction false} RoundOrder(p: real, q: real)
    requires p <= q
    ensures RoundHalfUp(p) <= RoundHalfUp(q)
  {
  }

  /** histo_percentile, on sorted values. */
  function AtRank(t: seq<real>, rank: real): real
    requires 0.5 <= rank <= 1.0 && t != []
  {
    RanksInRange(rank, |t|);
    t[NearestRank(rank, |t|) - 1]
  }

  lemma {:induction false} PercentileOrder(t: seq<real>, a: real, b: real)
    requires 0.5 <= a <= b <= 1.0 && t != [] && Ordered(t)
    ensures t[0] <= AtRank(t, a) <= AtRank(t, b) <= t[|t| - 1]
  {
    RanksInRange(a, |t|);
    RanksInRange(b, |t|);
    RankOrder(a, b, |t|);
  }

  datatype Sample = Sample(sum: real, min: real, max: real, mean: real, median: real, count: real,
                           p75: real, p95: real, p98: real, p99: real, p999: real)

  /** What a flush reads off the sorted values. */
  function SummaryOf(t: seq<real>, count: nat): Sample
    requires t != []
  {
    Sample(Sum(t), t[0], t[|t| - 1], Sum(t) / |t| as real, AtRank(t, 0.5), count as real,
           AtRank(t, 0.75), AtRank(t, 0.95), AtRank(t, 0.98), AtRank(t, 0.99), AtRank(t, 0.999))
  }

  /** What a flush says about the recorded values. */
  function Summary(s: seq<real>, count: nat): Sample {
    if s == [] then Sample(0.0, 0.0, 0.0, 0.0, 0.0, 0.0, 0.0, 0.0, 0.0, 0.0, 0.0)
    else
      SortedIsOrdered(s);
      SummaryOf(Sorted(s), count)
  }

  /**
    A percentile is the order statistic of its rank: at least irank values do not exceed it
    and at least size - irank + 1 are not below it. KthUnique: no other value qualifies.
   */
  lemma {:induction false} PercentileIsKth(s: seq<real>, rank: real)
    requires s != [] && 0.5 <= rank <= 1.0
    ensures Sorted(s) != [] && IsKth(s, NearestRank(rank, |s|), AtRank(Sorted(s), rank))
    ensures Count(s, AtMost(AtRank(Sorted(s), rank))) >= NearestRank(rank, |s|)
    ensures Count(s, AtLeast(AtRank(Sorted(s), rank))) >= |s| - NearestRank(rank, |s|) + 1
  {
    RanksInRange(rank, |s|);
    SortedKth(s, NearestRank(rank, |s|));
    CountRest(s, AtRank(Sorted(s), rank));
  }

  /** min and max are those of the recorded values, and bound them all. */
  lemma {:induction false} Extremes(s: seq<real>)
    requires s != []
    ensures var t := Sorted(s);
            t != [] && t[0] in s && t[|t| - 1] in s && forall v :: v in s ==> t[0] <= v <= t[|t| - 1]
  {
    var t := Sorted(s);
    SortedIsOrdered(s);
    SameMembers(t, s);
    assert t[0] in t && t[|t| - 1] in t;
  }

  lemma {:induction false} SortedPercentiles(t: seq<real>)
    requires t != [] && Ordered(t)
    ensures t[0] <= AtRank(t, 0.5) <= AtRank(t, 0.75) <= AtRank(t, 0.95)
    ensures AtRank(t, 0.95) <= AtRank(t, 0.98) <= AtRank(t, 0.99) <= AtRank(t, 0.999) <= t[|t| - 1]
  {
    PercentileOrder(t, 0.5, 0.75);
    PercentileOrder(t, 0.75, 0.95);
    PercentileOrder(t, 0.95, 0.98);
    PercentileOrder(t, 0.98, 0.99);
    PercentileOrder(t, 0.99, 0.999);
  }

  /** Every summary of a non-empty histogram is in order, and its sum and mean are those of the recorded values. */
  lemma {:induction false} SummaryOrder(s: seq<real>, count: nat)
    requires s != []
    ensures var r := Summary(s, count);
            && r.min <= r.median <= r.p75 <= r.p95 <= r.p98 <= r.p99 <= r.p999 <= r.max
            && r.min <= r.mean <= r.max && r.sum == Sum(s) && r.mean == Sum(s) / |s| as real
            && r.min in s && r.max in s && forall v :: v in s ==> r.min <= v <= r.max
  {
    var t := Sorted(s);
    SortedIsOrdered(s);
    SortedSum(s);
    Extremes(s);
    SortedPercentiles(t);
    MeanBetween(s, t[0], t[|t| - 1]);
  }

  // ----- recording -----

  /** A histogram as a value: what it stores and what it counts. */
  datatype Recorded = Recorded(values: seq<real>, count: nat)

  datatype Point = Point(value: real, freq: real)

  /**
    C's conversion of a double to uint32_t: truncation of whatever then fits, and an
    arbitrary value for the rest, which the language leaves undefined.
   */
  ghost predicate IsConversion(convert: real -> nat) {
    forall x :: convert(x) < UINT32 && (-1.0 < x < UINT32 as real ==> convert(x) == if x < 0.0 then 0 else x.Floor)
  }

  /** A full histogram drops the value and still counts it. */
  function Push(convert: real -> nat, h: Recorded, p: Point): Recorded {
    Recorded(if |h.values| < USHRT_MAX then h.values + [p.value] else h.values, convert(h.count as real + p.freq))
  }

  /** The new capacity: doubled, clamped to [16, 65535]. */
  function Grown(alloc: nat): (n: nat)
    requires alloc < USHRT_MAX
    ensures alloc < n <= USHRT_MAX && n >= 16
    ensures n >= 2 * alloc || n == USHRT_MAX
  {
    var doubled := alloc * 2;
    var capped := if doubled > USHRT_MAX then USHRT_MAX else doubled;
    if capped < 16 then 16 else capped
  }

  class Histo {
    var values: array<real>
    var count: nat
    var alloc: nat
    var size: nat

    /** A non-zero count needs a stored value: so the early return for size 0 forgets no count. */
    ghost predicate Valid()
      reads this
    {
      size <= alloc == values.Length <= USHRT_MAX && count < UINT32 && (size == 0 ==> count == 0)
    }

    ghost function State(): Recorded
      reads this, values
      requires Valid()
    {
      Recorded(values[..size], count)
    }

    constructor ()
      ensures Valid() && State() == Recorded([], 0) && alloc == 0 && fresh(values)
    {
      values, count, alloc, size := new real[0], 0, 0, 0;
    }

    /** xrealloc */
    method Reallocate(n: nat)
      requires Valid() && alloc <= n <= USHRT_MAX
      modifies this
      ensures Valid() && State() == old(State()) && alloc == n && fresh(values)
      ensures size == old(size) && count == old(count)
    {
      var bigger := new real[n](_ => 0.0);
      for i := 0 to size
        invariant bigger[..i] == values[..i]
        modifies bigger
      {
        bigger[i] := values[i];
      }
      values, alloc := bigger, n;
    }

    /** brubeck_histo_push */
    method Record(value: real, freq: real, convert: real -> nat)
      requires Valid() && IsConversion(convert)
      modifies this, values
      ensures Valid() && (fresh(values) || values == old(values))
      ensures State() == Push(convert, old(State()), Point(value, freq))
      ensures alloc == if old(size) == old(alloc) < USHRT_MAX then Grown(old(alloc)) else old(alloc)
    {
      ghost var was := State();
      var added := convert(count as real + freq);
      if size == alloc {
        if size == USHRT_MAX {
          count := added;
          return;
        }
        Reallocate(Grown(alloc));
      }
      count := added;
      values[size] := value;
      size := size + 1;
      assert values[..size] == was.values + [value];
    }

    /** histo_sort: the library's qsort with value_cmp. */
    method Sort()
      requires Valid()
      modifies values
      ensures Valid() && State() == Recorded(Sorted(old(values[..size])), count)
    {
      var t := Sorted(values[..size]);
      SortedIsOrdered(values[..size]);
      ghost var n := size;
      for i := 0 to size
        invariant size == n && values[..i] == t[..i]
      {
        values[i] := t[i];
      }
    }

    /** histo_sum */
    method Total() returns (sum: real)
      requires Valid()
      ensures sum == Sum(values[..size])
    {
      sum := 0.0;
      for i := 0 to size
        invariant sum == Sum(values[..i])
      {
        sum := sum + values[i];
        assert values[..i + 1][..i] == values[..i];
      }
    }

    /** histo_percentile */
    method Percentile(rank: real) returns (v: real)
      requires Valid() && size > 0 && 0.5 <= rank <= 1.0
      ensures v == AtRank(values[..size], rank)
    {
      RanksInRange(rank, size);
      v := values[NearestRank(rank, size) - 1];
    }

    /** brubeck_histo_sample: the summary, and an empty histogram. */
    method Flush() returns (sample: Sample)
      requires Valid()
      modifies this, values
      ensures Valid() && values == old(values) && alloc == old(alloc)
      ensures sample == Summary(old(State()).values, old(count))
      ensures State() == Recorded([], 0)
    {
      if size == 0 {
        return Sample(0.0, 0.0, 0.0, 0.0, 0.0, 0.0, 0.0, 0.0, 0.0, 0.0, 0.0);
      }
      ghost var s := values[..size];
      Sort();
      SortedIsOrdered(s);
      sample := Summarise();
      size := 0;
      count := 0;
    }

    method Summarise() returns (sample: Sample)
      requires Valid() && size > 0
      ensures sample == SummaryOf(values[..size], count)
    {
      var sum := Total();
      var median := Percentile(0.5);
      var p75 := Percentile(0.75);
      var p95 := Percentile(0.95);
      var p98 := Percentile(0.98);
      var p99 := Percentile(0.99);
      var p999 := Percentile(0.999);
      sample := Sample(sum, values[0], values[size - 1], sum / size as real, median, count as real,
                       p75, p95, p98, p99, p999);
    }
  }

  // ----- runs -----

  datatype Op = Record(point: Point) | Flush

  /** The histogram after a run of records and flushes. */
  function Run(convert: real -> nat, ops: seq<Op>): Recorded {
    if ops == [] then Recorded([], 0)
    else
      var last := ops[|ops| - 1];
      if last.Flush? then Recorded([], 0) else Push(convert, Run(convert, ops[..|ops| - 1]), last.point)
  }

  /** The points recorded since the last flush. */
  function Since(ops: seq<Op>): seq<Point> {
    if ops == [] || ops[|ops| - 1].Flush? then []
    else Since(ops[..|ops| - 1]) + [ops[|ops| - 1].point]
  }

  function Floors(points: seq<Point>): int {
    if points == [] then 0 else Floors(points[..|points| - 1]) + points[|points| - 1].freq.Floor
  }

  function Values(points: seq<Point>): (r: seq<real>)
    ensures |r| == |points|
  {
    seq(|points|, i requires 0 <= i < |points| => points[i].value)
  }

  function Firsts(s: seq<real>, n: nat): seq<real> { if |s| <= n then s else s[..n] }

  lemma {:induction false} PushValues(points: seq<Point>, p: Point)
    ensures Values(points + [p]) == Values(points) + [p.value]
    ensures Floors(points + [p]) == Floors(points) + p.freq.Floor
  {
    assert (points + [p])[..|points|] == points;
  }

  /** Frequencies whose sum a 32-bit counter holds. */
  predicate InRange(points: seq<Point>) {
    (forall i :: 0 <= i < |points| ==> points[i].freq >= 0.0) && Floors(points) < UINT32
  }

  lemma {:induction false} InRangeBefore(points: seq<Point>, p: Point)
    requires InRange(points + [p])
    ensures InRange(points) && p.freq >= 0.0 && Floors(points) + p.freq.Floor < UINT32
  {
    PushValues(points, p);
    var all := points + [p];
    assert all[|points|] == p;
    forall i | 0 <= i < |points| ensures points[i].freq >= 0.0 { assert all[i] == points[i]; }
  }

  /** Adding a frequency to a count adds its floor. */
  lemma {:induction false} CountUp(convert: real -> nat, count: nat, freq: real)
    requires IsConversion(convert) && freq >= 0.0 && count + freq.Floor < UINT32
    ensures convert(count as real + freq) == count + freq.Floor
  {
    assert (count as real + freq).Floor == count + freq.Floor;
  }

  /**
    After any k records since the last flush: the first min(k, 65535) values, and the sum of
    the floors as long as that fits the counter.
   */
  lemma {:induction false} RunStores(convert: real -> nat, ops: seq<Op>)
    requires IsConversion(convert)
    ensures Run(convert, ops).values == Firsts(Values(Since(ops)), USHRT_MAX)
    ensures InRange(Since(ops)) ==> Run(convert, ops).count == Floors(Since(ops))
    decreases |ops|
  {
    if ops == [] || ops[|ops| - 1].Flush? {
    } else {
      var before, p := ops[..|ops| - 1], ops[|ops| - 1].point;
      RunStores(convert, before);
      PushValues(Since(before), p);
      if InRange(Since(ops)) {
        InRangeBefore(Since(before), p);
        CountUp(convert, Run(convert, before).count, p.freq);
      }
    }
  }

  lemma {:induction false} FloorsPositive(points: seq<Point>)
    requires forall i :: 0 <= i < |points| ==> points[i].freq >= 0.0
    ensures Floors(points) >= 0
    ensures Floors(points) == 0 <==> forall i :: 0 <= i < |points| ==> points[i].freq < 1.0
  {
    if points == [] {
    } else {
      FloorsPositive(points[..|points| - 1]);
    }
  }

  lemma {:induction false} SinceRecorded(ops: seq<Op>)
    ensures forall i :: 0 <= i < |Since(ops)| ==> Record(Since(ops)[i]) in ops
    decreases |ops|
  {
    if ops == [] || ops[|ops| - 1].Flush? {
    } else {
      SinceRecorded(ops[..|ops| - 1]);
    }
  }

  function AllPoints(ops: seq<Op>): seq<Point> {
    if ops == [] then []
    else AllPoints(ops[..|ops| - 1]) + if ops[|ops| - 1].Record? then [ops[|ops| - 1].point] else []
  }

  /** The counts that the flushes of a run reported, added up. */
  function ReportedCounts(convert: real -> nat, ops: seq<Op>): real {
    if ops == [] then 0.0
    else
      var before := ops[..|ops| - 1];
      var h := Run(convert, before);
      ReportedCounts(convert, before) + if ops[|ops| - 1].Flush? then Summary(h.values, h.count).count else 0.0
  }

  /** At no point do the frequencies since the last flush exceed the counter. */
  predicate AlwaysInRange(ops: seq<Op>) {
    forall n :: 0 <= n <= |ops| ==> InRange(Since(ops[..n]))
  }

  lemma {:induction false} AlwaysInRangeBefore(ops: seq<Op>)
    requires ops != [] && AlwaysInRange(ops)
    ensures AlwaysInRange(ops[..|ops| - 1]) && InRange(Since(ops))
  {
    var before := ops[..|ops| - 1];
    assert ops[..|ops|] == ops;
    forall n | 0 <= n <= |before| ensures InRange(Since(before[..n])) {
      assert before[..n] == ops[..n];
    }
  }

  /** Reported plus pending is all that was counted, whatever the capacity dropped. */
  lemma {:induction false} CountsConserved(convert: real -> nat, ops: seq<Op>)
    requires IsConversion(convert) && AlwaysInRange(ops)
    ensures ReportedCounts(convert, ops) + Run(convert, ops).count as real == Floors(AllPoints(ops)) as real
    decreases |ops|
  {
    if ops == [] {
    } else {
      var before, last := ops[..|ops| - 1], ops[|ops| - 1];
      AlwaysInRangeBefore(ops);
      CountsConserved(convert, before);
      RunStores(convert, before);
      if last.Record? {
        PushValues(AllPoints(before), last.point);
        RunStores(convert, ops);
        PushValues(Since(before), last.point);
        InRangeBefore(Since(before), last.point);
      } else {
        SummaryCount(Run(convert, before));
        assert AllPoints(before) + [] == AllPoints(before);
      }
    }
  }

  // ----- what a flush reports -----

  /** histogram__sample: key suffixes and values, for a backend that flushes every `period` seconds. */
  function Report(r: Sample, period: nat): seq<(string, real)>
    requires period > 0
  {
    var head := [(".count", r.count), (".count_ps", r.count / period as real)];
    if r.count == 0.0 then head
    else
      head + [(".min", r.min), (".max", r.max), (".sum", r.sum), (".mean", r.mean), (".median", r.median),
              (".percentile.75", r.p75), (".percentile.95", r.p95), (".percentile.98", r.p98),
              (".percentile.99", r.p99), (".percentile.999", r.p999)]
  }

  /** Every reported key fits the buffer that is sized for the longest suffix. */
  lemma ReportFits(r: Sample, period: nat, i: nat)
    requires period > 0 && i < |Report(r, period)|
    ensures |Report(r, period)[i].0| <= |".percentile.999"|
  {
  }

  lemma {:induction false} SummaryCount(h: Recorded)
    requires h.values == [] ==> h.count == 0
    ensures Summary(h.values, h.count).count == h.count as real
  {
  }

  /** Only the count is reported exactly when every record since the last flush had a frequency below one … */
  lemma {:induction false} SilentExactlyWhen(convert: real -> nat, ops: seq<Op>, period: nat)
    requires IsConversion(convert) && InRange(Since(ops)) && period > 0
    ensures var h := Run(convert, ops);
            |Report(Summary(h.values, h.count), period)| == 2
            <==> forall i :: 0 <= i < |Since(ops)| ==> Since(ops)[i].freq < 1.0
  {
    RunStores(convert, ops);
    FloorsPositive(Since(ops));
    SummaryCount(Run(convert, ops));
  }

  /** … which, with the frequencies the parser produces, is when nothing was recorded. */
  lemma {:induction false} SilentWhenNothingRecorded(convert: real -> nat, ops: seq<Op>, period: nat)
    requires period > 0 && forall i :: 0 <= i < |ops| && ops[i].Record? ==> ops[i].point.freq >= 1.0
    requires IsConversion(convert) && Floors(Since(ops)) < UINT32
    ensures var h := Run(convert, ops); |Report(Summary(h.values, h.count), period)| == 2 <==> Since(ops) == []
  {
    SinceRecorded(ops);
    SilentExactlyWhen(convert, ops, period);
    if Since(ops) != [] { assert Record(Since(ops)[0]) in ops; }
  }
}
