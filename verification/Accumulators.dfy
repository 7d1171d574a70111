/**
  Meters and counters of src/metric.c. Every record and every sample holds the metric's
  lock, so a run of any number of threads is a sequence of them in lock order.
 */
module Accumulators {
  import opened Sums

  datatype Op = Record(value: real, freq: real) | Sample

  /** What was recorded, upsampled by its frequency. */
  function Inputs(ops: seq<Op>): seq<real> {
    if ops == [] then []
    else
      var last := ops[|ops| - 1];
      Inputs(ops[..|ops| - 1]) + if last.Record? then [last.value * last.freq] else []
  }

  // ----- meters -----

  class Meter {
    var value: real

    constructor ()
      ensures value == 0.0
    {
      value := 0.0;
    }

    method Record(v: real, freq: real)
      modifies this
      ensures value == MeterNext(old(value), Op.Record(v, freq)).0
    {
      var upsampled := v * freq;
      value := value + upsampled;
    }

    method Sample() returns (emitted: real)
      modifies this
      ensures (value, [emitted]) == MeterNext(old(value), Op.Sample)
    {
      emitted := value;
      value := 0.0;
    }
  }

  /** The pending value after an operation, and what it emits. */
  function MeterNext(value: real, op: Op): (real, seq<real>) {
    match op
    case Record(v, freq) => (value + v * freq, [])
    case Sample => (0.0, [value])
  }

  /** The pending value after a run, and everything it emitted. */
  function MeterRun(ops: seq<Op>): (real, seq<real>) {
    if ops == [] then (0.0, [])
    else
      var (value, emitted) := MeterRun(ops[..|ops| - 1]);
      var (value', out) := MeterNext(value, ops[|ops| - 1]);
      (value', emitted + out)
  }

  /** Emitted plus pending is everything recorded, over every run. */
  lemma {:induction false} MeterConserves(ops: seq<Op>)
    ensures var (pending, emitted) := MeterRun(ops); Sum(emitted) + pending == Sum(Inputs(ops))
    decreases |ops|
  {
    if ops == [] {
    } else {
      var before, last := ops[..|ops| - 1], ops[|ops| - 1];
      MeterConserves(before);
      var (value, emitted) := MeterRun(before);
      if last.Record? {
        SumPush(Inputs(before), last.value * last.freq);
        assert emitted + [] == emitted;
      } else {
        SumPush(emitted, value);
        assert Inputs(before) + [] == Inputs(before);
      }
    }
  }

  /** The operations up to and including the last sample. */
  function Sampled(ops: seq<Op>): seq<Op> {
    if ops == [] || ops[|ops| - 1].Sample? then ops else Sampled(ops[..|ops| - 1])
  }

  /** What is pending is what was recorded since the last sample: a sample leaves nothing behind. */
  lemma {:induction false} MeterPending(ops: seq<Op>)
    ensures MeterRun(ops).0 == Sum(Inputs(ops)) - Sum(Inputs(Sampled(ops)))
    ensures MeterRun(ops).1 == MeterRun(Sampled(ops)).1
    decreases |ops|
  {
    if ops == [] || ops[|ops| - 1].Sample? {
    } else {
      var before, last := ops[..|ops| - 1], ops[|ops| - 1];
      MeterPending(before);
      SumPush(Inputs(before), last.value * last.freq);
    }
  }

  /** Three at frequency two and one at frequency ten: sixteen. */
  lemma {:induction false} MeterUpsamples(ops: seq<Op>)
    requires ops == [Op.Record(3.0, 2.0), Op.Record(1.0, 10.0), Op.Sample]
    ensures MeterRun(ops) == (0.0, [16.0])
  {
    MeterRecords([], 0.0, ops[0], 6.0);
    assert [] + [ops[0]] == [ops[0]];
    MeterRecords([ops[0]], 6.0, ops[1], 10.0);
    assert [ops[0]] + [ops[1]] == [ops[0], ops[1]];
    MeterPush([ops[0], ops[1]], ops[2]);
    assert [ops[0], ops[1]] + [ops[2]] == ops && [] + [16.0] == [16.0];
  }

  lemma {:induction false} MeterRecords(ops: seq<Op>, value: real, op: Op, more: real)
    requires MeterRun(ops) == (value, []) && op.Record? && op.value * op.freq == more
    ensures MeterRun(ops + [op]) == (value + more, [])
  {
    MeterPush(ops, op);
    assert [] + MeterNext(value, op).1 == [];
  }

  lemma {:induction false} MeterPush(ops: seq<Op>, op: Op)
    ensures var (value, emitted) := MeterRun(ops); var (value', out) := MeterNext(value, op);
            MeterRun(ops + [op]) == (value', emitted + out)
  {
    assert (ops + [op])[..|ops|] == ops;
  }

  // ----- counters -----

  datatype CounterState = CounterState(value: real, previous: real)

  class Counter {
    var value: real
    var previous: real

    ghost function State(): CounterState
      reads this
    {
      CounterState(value, previous)
    }

    constructor ()
      ensures State() == CounterState(0.0, 0.0)
    {
      value, previous := 0.0, 0.0;
    }

    method Record(v: real, freq: real)
      modifies this
      ensures State() == CounterNext(old(State()), Op.Record(v, freq)).0
    {
      var upsampled := v * freq;
      if previous > 0.0 {
        var diff := if upsampled >= previous then upsampled - previous else upsampled;
        value := value + diff;
      }
      previous := upsampled;
    }

    method Sample() returns (emitted: real)
      modifies this
      ensures (State(), [emitted]) == CounterNext(old(State()), Op.Sample)
    {
      emitted := value;
      value := 0.0;
    }
  }

  /** How far a counter advanced from one reading to the next; a smaller reading means it was reset. */
  function Advance(previous: real, v: real): real {
    if previous <= 0.0 then 0.0 else if v >= previous then v - previous else v
  }

  function CounterNext(c: CounterState, op: Op): (CounterState, seq<real>) {
    match op
    case Record(v, freq) => (CounterState(c.value + Advance(c.previous, v * freq), v * freq), [])
    case Sample => (c.(value := 0.0), [c.value])
  }

  function CounterRun(ops: seq<Op>): (CounterState, seq<real>) {
    if ops == [] then (CounterState(0.0, 0.0), [])
    else
      var (c, emitted) := CounterRun(ops[..|ops| - 1]);
      var (c', out) := CounterNext(c, ops[|ops| - 1]);
      (c', emitted + out)
  }

  /** The reset-aware sum of differences of a sequence of readings. */
  function Advances(readings: seq<real>): real {
    if |readings| < 2 then 0.0
    else
      var n := |readings|;
      Advances(readings[..n - 1]) + Advance(readings[n - 2], readings[n - 1])
  }

  lemma {:induction false} AdvancesPush(s: seq<real>, x: real)
    ensures Advances(s + [x]) == Advances(s) + if s == [] then 0.0 else Advance(s[|s| - 1], x)
  {
    assert (s + [x])[..|s|] == s;
  }

  function LastOr(s: seq<real>, d: real): real { if s == [] then d else s[|s| - 1] }

  lemma {:induction false} RecordConserves(emitted: real, c: CounterState, inputs: seq<real>, v: real)
    requires emitted + c.value == Advances(inputs) && c.previous == LastOr(inputs, 0.0)
    ensures emitted + (c.value + Advance(c.previous, v)) == Advances(inputs + [v]) && LastOr(inputs + [v], 0.0) == v
  {
    AdvancesPush(inputs, v);
  }

  /** Emitted plus pending is the reset-aware sum, over every run: sampling neither loses nor repeats anything. */
  lemma {:induction false} CounterConserves(ops: seq<Op>)
    ensures var (c, emitted) := CounterRun(ops);
            Sum(emitted) + c.value == Advances(Inputs(ops)) && c.previous == LastOr(Inputs(ops), 0.0)
    decreases |ops|
  {
    if ops == [] {
    } else {
      var before, last := ops[..|ops| - 1], ops[|ops| - 1];
      CounterConserves(before);
      var (c, emitted) := CounterRun(before);
      if last.Record? {
        RecordConserves(Sum(emitted), c, Inputs(before), last.value * last.freq);
        assert emitted + [] == emitted;
      } else {
        SumPush(emitted, c.value);
        assert Inputs(before) + [] == Inputs(before);
      }
    }
  }

  /** What is pending is the advance since the last sample. */
  lemma {:induction false} CounterPending(ops: seq<Op>)
    ensures CounterRun(ops).0.value == Advances(Inputs(ops)) - Advances(Inputs(Sampled(ops)))
    ensures CounterRun(ops).1 == CounterRun(Sampled(ops)).1
    decreases |ops|
  {
    if ops == [] || ops[|ops| - 1].Sample? {
    } else {
      var before, last := ops[..|ops| - 1], ops[|ops| - 1];
      CounterPending(before);
      CounterConserves(before);
      AdvancesPush(Inputs(before), last.value * last.freq);
    }
  }

  /** What the counter had reached each time it was reset. */
  function AtResets(readings: seq<real>): real {
    if |readings| < 2 then 0.0
    else
      var n := |readings|;
      var previous, v := readings[n - 2], readings[n - 1];
      AtResets(readings[..n - 1]) + if 0.0 < previous && v < previous then previous else 0.0
  }

  /** The changes that are not counted because they start at a reading of zero or less. */
  function Skipped(readings: seq<real>): real {
    if |readings| < 2 then 0.0
    else
      var n := |readings|;
      var previous, v := readings[n - 2], readings[n - 1];
      Skipped(readings[..n - 1]) + if previous <= 0.0 then v - previous else 0.0
  }

  /** For all readings: last minus first, plus what each reset wiped out, less what was skipped. */
  lemma {:induction false} AdvancesTelescope(s: seq<real>)
    requires s != []
    ensures Advances(s) == s[|s| - 1] - s[0] + AtResets(s) - Skipped(s)
    decreases |s|
  {
    if |s| == 1 {
    } else {
      AdvancesTelescope(s[..|s| - 1]);
    }
  }

  /** A run's total is last minus first exactly when resets and skipped changes cancel out. */
  lemma {:induction false} CounterTotal(ops: seq<Op>)
    requires Inputs(ops) != []
    ensures var (c, emitted) := CounterRun(ops); var readings := Inputs(ops);
            Sum(emitted) + c.value == readings[|readings| - 1] - readings[0] <==>
            AtResets(readings) == Skipped(readings)
  {
    CounterConserves(ops);
    AdvancesTelescope(Inputs(ops));
  }

  predicate NonDecreasing(s: seq<real>) { forall i :: 0 < i < |s| ==> s[i - 1] <= s[i] }

  lemma {:induction false} FirstIsLeast(s: seq<real>, i: nat)
    requires NonDecreasing(s) && i < |s|
    ensures s[0] <= s[i]
  {
    if i == 0 {
    } else {
      FirstIsLeast(s, i - 1);
    }
  }

  /** Readings that never go down have no resets, and skip something exactly when they rise from zero or less. */
  lemma {:induction false} NonDecreasingParts(s: seq<real>)
    requires s != [] && NonDecreasing(s)
    ensures AtResets(s) == 0.0 && Skipped(s) >= 0.0
    ensures Skipped(s) == 0.0 <==> s[0] > 0.0 || s[|s| - 1] == s[0]
    decreases |s|
  {
    if |s| == 1 {
    } else {
      NonDecreasingParts(s[..|s| - 1]);
      FirstIsLeast(s, |s| - 2);
    }
  }

  /** For readings that never go down: exactly when they start above zero, or never rise. */
  lemma {:induction false} NonDecreasingTotal(ops: seq<Op>)
    requires Inputs(ops) != [] && NonDecreasing(Inputs(ops))
    ensures var (c, emitted) := CounterRun(ops); var s := Inputs(ops);
            Sum(emitted) + c.value == s[|s| - 1] - s[0] <==> s[0] > 0.0 || s[|s| - 1] == s[0]
  {
    CounterTotal(ops);
    NonDecreasingParts(Inputs(ops));
  }

  predicate Positive(s: seq<real>) { forall i :: 0 <= i < |s| ==> s[i] > 0.0 }

  lemma {:induction false} PositiveParts(s: seq<real>)
    requires Positive(s)
    ensures Skipped(s) == 0.0 && AtResets(s) >= 0.0 && (AtResets(s) == 0.0 <==> NonDecreasing(s))
    decreases |s|
  {
    if |s| < 2 {
    } else {
      PositiveParts(s[..|s| - 1]);
    }
  }

  /** And for positive readings exactly when they never go down. */
  lemma {:induction false} PositiveTotal(ops: seq<Op>)
    requires Inputs(ops) != [] && Positive(Inputs(ops))
    ensures var (c, emitted) := CounterRun(ops); var s := Inputs(ops);
            Sum(emitted) + c.value == s[|s| - 1] - s[0] <==> NonDecreasing(s)
  {
    CounterTotal(ops);
    PositiveParts(Inputs(ops));
  }

  /** A first reading of zero loses the rise that follows it: zero, then five, counts nothing. */
  lemma {:induction false} RiseFromZeroIsLost()
    ensures var ops := [Op.Record(0.0, 1.0), Op.Record(5.0, 1.0)];
            var (c, emitted) := CounterRun(ops);
            Inputs(ops) == [0.0, 5.0] && NonDecreasing(Inputs(ops)) && Sum(emitted) + c.value == 0.0
  {
    var ops := [Op.Record(0.0, 1.0), Op.Record(5.0, 1.0)];
    assert ops[..1] == [Op.Record(0.0, 1.0)] && ops[..1][..0] == [];
    assert Inputs(ops[..1]) == [0.0];
    assert Inputs(ops) == [0.0, 5.0];
    CounterConserves(ops);
    assert [0.0, 5.0][..1] == [0.0];
  }
}
