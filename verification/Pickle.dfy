/**
  The part of Python's pickle protocol 1 that the carbon backend writes
  (src/backends/carbon.c): a stack machine that reads it, the encoder, and the proof that
  the machine gets back what was encoded.
 */
module Pickle {
  import opened Wrappers
  import opened Words

  type Byte = x: int | 0 <= x < 256

  /** What a reader builds; a double is kept as its eight bytes, least significant first. */
  datatype Value =
    | Str(bytes: seq<Byte>)
    | Int(n: int)
    | Float(bytes: seq<Byte>)
    | Tuple(elements: seq<Value>)
    | List(items: seq<Value>)

  datatype Slot = Mark | Val(v: Value)

  datatype Machine = Machine(stack: seq<Slot>, memo: map<Byte, Value>)

  datatype Step = Continue(m: Machine, used: nat) | Halt(v: Value) | Fault

  datatype Outcome = Done(v: Value, rest: seq<Byte>) | Stuck

  const EMPTY_LIST: Byte := 93
  const MARK: Byte := 40
  const SHORT_BINSTRING: Byte := 85
  const BINPUT: Byte := 113
  const BININT: Byte := 74
  const BINFLOAT: Byte := 71
  const TUPLE: Byte := 116
  const APPENDS: Byte := 101
  const STOP: Byte := 46

  function Signed32(n: nat): int {
    if n < 0x8000_0000 then n else n - UINT32
  }

  function Little32(b: seq<Byte>): nat
    requires |b| == 4
  {
    (b[0] as int) + 256 * ((b[1] as int) + 256 * ((b[2] as int) + 256 * (b[3] as int)))
  }

  function Reverse8(b: seq<Byte>): (r: seq<Byte>)
    requires |b| == 8
    ensures |r| == 8 && forall i :: 0 <= i < 8 ==> r[i] == b[7 - i]
  {
    [b[7], b[6], b[5], b[4], b[3], b[2], b[1], b[0]]
  }

  /** The values above the topmost mark, and the stack below it. */
  function PopMark(stack: seq<Slot>): Option<(seq<Slot>, seq<Value>)> {
    if stack == [] then None
    else
      var top := stack[|stack| - 1];
      var below := stack[..|stack| - 1];
      if top.Mark? then Some((below, []))
      else
        match PopMark(below)
        case None => None
        case Some((bottom, vs)) => Some((bottom, vs + [top.v]))
  }

  function Push(m: Machine, v: Value): Machine {
    m.(stack := m.stack + [Val(v)])
  }

  function Exec(code: seq<Byte>, m: Machine): Step {
    if code == [] then Fault
    else if code[0] == EMPTY_LIST then Continue(Push(m, List([])), 1)
    else if code[0] == MARK then Continue(m.(stack := m.stack + [Mark]), 1)
    else if code[0] == SHORT_BINSTRING then
      if |code| < 2 || |code| < 2 + (code[1] as int) then Fault
      else Continue(Push(m, Str(code[2..2 + (code[1] as int)])), 2 + (code[1] as int))
    else if code[0] == BINPUT then
      if |code| < 2 || m.stack == [] || m.stack[|m.stack| - 1].Mark? then Fault
      else Continue(m.(memo := m.memo[code[1] := m.stack[|m.stack| - 1].v]), 2)
    else if code[0] == BININT then
      if |code| < 5 then Fault else Continue(Push(m, Int(Signed32(Little32(code[1..5])))), 5)
    else if code[0] == BINFLOAT then
      if |code| < 9 then Fault else Continue(Push(m, Float(Reverse8(code[1..9]))), 9)
    else if code[0] == TUPLE then
      match PopMark(m.stack)
      case None => Fault
      case Some((bottom, vs)) => Continue(Machine(bottom + [Val(Tuple(vs))], m.memo), 1)
    else if code[0] == APPENDS then
      match PopMark(m.stack)
      case None => Fault
      case Some((bottom, vs)) =>
        if bottom == [] || !(bottom[|bottom| - 1].Val? && bottom[|bottom| - 1].v.List?) then Fault
        else
          var list := bottom[|bottom| - 1].v;
          Continue(Machine(bottom[..|bottom| - 1] + [Val(List(list.items + vs))], m.memo), 1)
    else if code[0] == STOP then
      if m.stack == [] || m.stack[|m.stack| - 1].Mark? then Fault else Halt(m.stack[|m.stack| - 1].v)
    else Fault
  }

  /** Runs until STOP; `rest` is what follows it. */
  function Run(code: seq<Byte>, m: Machine): Outcome
    decreases |code|
  {
    match Exec(code, m)
    case Fault => Stuck
    case Halt(v) => Done(v, code[1..])
    case Continue(m', used) => Run(code[used..], m')
  }

  function Load(code: seq<Byte>): Outcome { Run(code, Machine([], map[])) }

  // ----- encoder -----

  /** One pushed sample; `value` is the host's little-endian double. */
  datatype Sample = Sample(key: seq<Byte>, timestamp: nat, value: seq<Byte>)

  predicate IsSample(x: Sample) {
    |x.key| < 256 && x.timestamp < UINT32 && |x.value| == 8
  }

  predicate AllSamples(xs: seq<Sample>) {
    forall i :: 0 <= i < |xs| ==> IsSample(xs[i])
  }

  function Bytes32(n: nat): (b: seq<Byte>)
    requires n < UINT32
    ensures |b| == 4 && Little32(b) == n
  {
    var q1 := n / 256;
    var q2 := q1 / 256;
    var q3 := q2 / 256;
    [n % 256, q1 % 256, q2 % 256, q3]
  }

  /** pickle1_int32 */
  function EncodeInt(n: nat): seq<Byte>
    requires n < UINT32
  {
    [BININT] + Bytes32(n)
  }

  /** pickle1_double */
  function EncodeDouble(value: seq<Byte>): seq<Byte>
    requires |value| == 8
  {
    [BINFLOAT] + Reverse8(value)
  }

  function EncodeKey(key: seq<Byte>, pt: nat): seq<Byte>
    requires |key| < 256
  {
    [MARK] + ([SHORT_BINSTRING, |key|] + key) + [BINPUT, pt % 256]
  }

  function EncodePoint(timestamp: nat, value: seq<Byte>, pt: nat): seq<Byte>
    requires timestamp < UINT32 && |value| == 8
  {
    [MARK] + EncodeInt(timestamp) + EncodeDouble(value) + [TUPLE, BINPUT, pt % 256]
  }

  /** pickle1_push; the memo operand is the low byte of `pt`. */
  function EncodeSample(x: Sample, pt: nat): (code: seq<Byte>)
    requires IsSample(x)
    ensures |code| == 26 + |x.key|
  {
    EncodeKey(x.key, pt) + EncodePoint(x.timestamp, x.value, pt + 1) + [TUPLE, BINPUT, (pt + 2) % 256]
  }

  function EncodeSamples(xs: seq<Sample>): seq<Byte>
    requires AllSamples(xs)
  {
    if xs == [] then []
    else EncodeSamples(xs[..|xs| - 1]) + EncodeSample(xs[|xs| - 1], 1 + 3 * (|xs| - 1))
  }

  const LEAD: seq<Byte> := [EMPTY_LIST, BINPUT, 0, MARK]
  const TRAIL: seq<Byte> := [APPENDS, STOP]

  function Payload(xs: seq<Sample>): seq<Byte>
    requires AllSamples(xs)
  {
    LEAD + EncodeSamples(xs) + TRAIL
  }

  // ----- what a reader should see -----

  /** (key, (timestamp, value)), with the timestamp read as BININT reads it. */
  function SampleValue(x: Sample): Value {
    Tuple([Str(x.key), Tuple([Int(Signed32(x.timestamp)), Float(x.value)])])
  }

  function SampleValues(xs: seq<Sample>): (vs: seq<Value>)
    ensures |vs| == |xs|
    ensures forall i :: 0 <= i < |xs| ==> vs[i] == SampleValue(xs[i])
  {
    seq(|xs|, i requires 0 <= i < |xs| => SampleValue(xs[i]))
  }

  // ----- proof -----

  type Reader = (seq<Byte>, Machine) -> Outcome

  /** Reading `code` takes the machine from `m` to `m'`, whatever follows. */
  ghost predicate Leads(run: Reader, code: seq<Byte>, m: Machine, m': Machine) {
    forall rest :: run(code + rest, m) == run(rest, m')
  }

  function AddMark(m: Machine): Machine { m.(stack := m.stack + [Mark]) }

  predicate HasTop(m: Machine) { m.stack != [] && m.stack[|m.stack| - 1].Val? }

  function Memoize(m: Machine, slot: Byte): Machine
    requires HasTop(m)
  {
    m.(memo := m.memo[slot := m.stack[|m.stack| - 1].v])
  }

  function Pair(m: Machine, a: Value, b: Value): Machine { Push(m, Tuple([a, b])) }

  /** What each opcode of an encoded sample does; proved of `Run` below. */
  ghost predicate ReadsOps(run: Reader) {
    && (forall m :: Leads(run, [EMPTY_LIST], m, Push(m, List([]))))
    && (forall m :: Leads(run, [MARK], m, AddMark(m)))
    && (forall key, m :: |key| < 256 ==> Leads(run, [SHORT_BINSTRING, |key|] + key, m, Push(m, Str(key))))
    && (forall slot, m :: HasTop(m) ==> Leads(run, [BINPUT, slot], m, Memoize(m, slot)))
    && (forall n, m :: 0 <= n < UINT32 ==> Leads(run, EncodeInt(n), m, Push(m, Int(Signed32(n)))))
    && (forall v, m :: |v| == 8 ==> Leads(run, EncodeDouble(v), m, Push(m, Float(v))))
    && (forall m, a, b :: Leads(run, [TUPLE], Push(Push(AddMark(m), a), b), Pair(m, a, b)))
  }

  lemma {:induction false} Then(run: Reader, a: seq<Byte>, b: seq<Byte>, m: Machine, m1: Machine, m2: Machine)
    requires Leads(run, a, m, m1) && Leads(run, b, m1, m2)
    ensures Leads(run, a + b, m, m2)
  {
    forall rest ensures run(a + b + rest, m) == run(rest, m2) {
      assert a + b + rest == a + (b + rest);
    }
  }

  // ----- Run reads the opcodes -----

  lemma {:induction false} RunOn(code: seq<Byte>, rest: seq<Byte>, m: Machine, m': Machine)
    requires Exec(code + rest, m) == Continue(m', |code|) && code != []
    ensures Run(code + rest, m) == Run(rest, m')
  {
    assert (code + rest)[|code|..] == rest;
  }

  lemma {:induction false} RunReadsEmptyList(m: Machine)
    ensures Leads(Run, [EMPTY_LIST], m, Push(m, List([])))
  {
    forall rest ensures Run([EMPTY_LIST] + rest, m) == Run(rest, Push(m, List([]))) {
      RunOn([EMPTY_LIST], rest, m, Push(m, List([])));
    }
  }

  lemma {:induction false} RunReadsMark(m: Machine)
    ensures Leads(Run, [MARK], m, AddMark(m))
  {
    forall rest ensures Run([MARK] + rest, m) == Run(rest, AddMark(m)) {
      RunOn([MARK], rest, m, AddMark(m));
    }
  }

  lemma {:induction false} RunReadsStr(key: seq<Byte>, m: Machine)
    requires |key| < 256
    ensures Leads(Run, [SHORT_BINSTRING, |key|] + key, m, Push(m, Str(key)))
  {
    var code := [SHORT_BINSTRING, |key|] + key;
    forall rest: seq<Byte> ensures Run(code + rest, m) == Run(rest, Push(m, Str(key))) {
      assert (code + rest)[2..2 + |key|] == key;
      RunOn(code, rest, m, Push(m, Str(key)));
    }
  }

  lemma {:induction false} RunReadsPut(slot: Byte, m: Machine)
    requires HasTop(m)
    ensures Leads(Run, [BINPUT, slot], m, Memoize(m, slot))
  {
    forall rest ensures Run([BINPUT, slot] + rest, m) == Run(rest, Memoize(m, slot)) {
      RunOn([BINPUT, slot], rest, m, Memoize(m, slot));
    }
  }

  lemma {:induction false} RunReadsInt(n: nat, m: Machine)
    requires n < UINT32
    ensures Leads(Run, EncodeInt(n), m, Push(m, Int(Signed32(n))))
  {
    forall rest ensures Run(EncodeInt(n) + rest, m) == Run(rest, Push(m, Int(Signed32(n)))) {
      assert (EncodeInt(n) + rest)[1..5] == Bytes32(n);
      RunOn(EncodeInt(n), rest, m, Push(m, Int(Signed32(n))));
    }
  }

  lemma {:induction false} RunReadsDouble(value: seq<Byte>, m: Machine)
    requires |value| == 8
    ensures Leads(Run, EncodeDouble(value), m, Push(m, Float(value)))
  {
    assert Reverse8(Reverse8(value)) == value;
    forall rest ensures Run(EncodeDouble(value) + rest, m) == Run(rest, Push(m, Float(value))) {
      assert (EncodeDouble(value) + rest)[1..9] == Reverse8(value);
      RunOn(EncodeDouble(value), rest, m, Push(m, Float(value)));
    }
  }

  function Slots(vs: seq<Value>): (slots: seq<Slot>)
    ensures |slots| == |vs| && forall i :: 0 <= i < |vs| ==> slots[i] == Val(vs[i])
  {
    seq(|vs|, i requires 0 <= i < |vs| => Val(vs[i]))
  }

  lemma {:induction false} PopValues(bottom: seq<Slot>, vs: seq<Value>)
    ensures PopMark(bottom + [Mark] + Slots(vs)) == Some((bottom, vs))
    decreases |vs|
  {
    var s := bottom + [Mark] + Slots(vs);
    if vs == [] {
      assert s == bottom + [Mark] && s[..|s| - 1] == bottom;
    } else {
      var init := vs[..|vs| - 1];
      PopValues(bottom, init);
      assert s[..|s| - 1] == bottom + [Mark] + Slots(init);
      assert init + [vs[|vs| - 1]] == vs;
    }
  }

  lemma {:induction false} RunReadsTuple(m: Machine, a: Value, b: Value)
    ensures Leads(Run, [TUPLE], Push(Push(AddMark(m), a), b), Pair(m, a, b))
  {
    var m0 := Push(Push(AddMark(m), a), b);
    PopValues(m.stack, [a, b]);
    assert m0.stack == m.stack + [Mark] + Slots([a, b]);
    forall rest ensures Run([TUPLE] + rest, m0) == Run(rest, Pair(m, a, b)) {
      RunOn([TUPLE], rest, m0, Pair(m, a, b));
    }
  }

  lemma {:induction false} RunReadsOps()
    ensures ReadsOps(Run)
  {
    forall m ensures Leads(Run, [EMPTY_LIST], m, Push(m, List([]))) { RunReadsEmptyList(m); }
    forall m ensures Leads(Run, [MARK], m, AddMark(m)) { RunReadsMark(m); }
    forall key, m | |key| < 256 ensures Leads(Run, [SHORT_BINSTRING, |key|] + key, m, Push(m, Str(key))) {
      RunReadsStr(key, m);
    }
    forall slot, m | HasTop(m) ensures Leads(Run, [BINPUT, slot], m, Memoize(m, slot)) { RunReadsPut(slot, m); }
    forall n, m | 0 <= n < UINT32 ensures Leads(Run, EncodeInt(n), m, Push(m, Int(Signed32(n)))) {
      RunReadsInt(n, m);
    }
    forall v, m | |v| == 8 ensures Leads(Run, EncodeDouble(v), m, Push(m, Float(v))) { RunReadsDouble(v, m); }
    forall m, a, b ensures Leads(Run, [TUPLE], Push(Push(AddMark(m), a), b), Pair(m, a, b)) { RunReadsTuple(m, a, b); }
  }

  // ----- whoever reads the opcodes reads the samples -----

  /** A pair closed by TUPLE, then memoized. */
  lemma {:induction false} LeadsPair(run: Reader, m: Machine, a: Value, b: Value, slot: Byte)
    returns (memo: map<Byte, Value>)
    requires ReadsOps(run)
    ensures Leads(run, [TUPLE, BINPUT, slot], Push(Push(AddMark(m), a), b),
                  Machine(m.stack + [Val(Tuple([a, b]))], memo))
  {
    var m0, m1 := Push(Push(AddMark(m), a), b), Pair(m, a, b);
    Then(run, [TUPLE], [BINPUT, slot], m0, m1, Memoize(m1, slot));
    assert [TUPLE] + [BINPUT, slot] == [TUPLE, BINPUT, slot];
    memo := Memoize(m1, slot).memo;
  }

  lemma {:induction false} LeadsKey(run: Reader, key: seq<Byte>, pt: nat, m: Machine) returns (memo: map<Byte, Value>)
    requires ReadsOps(run) && |key| < 256
    ensures Leads(run, EncodeKey(key, pt), m, Push(AddMark(Machine(m.stack, memo)), Str(key)))
  {
    var m1 := AddMark(m);
    var m2 := Push(m1, Str(key));
    var code := [SHORT_BINSTRING, |key|] + key;
    Then(run, [MARK], code, m, m1, m2);
    Then(run, [MARK] + code, [BINPUT, pt % 256], m, m2, Memoize(m2, pt % 256));
    memo := Memoize(m2, pt % 256).memo;
  }

  lemma {:induction false} LeadsPoint(run: Reader, timestamp: nat, value: seq<Byte>, pt: nat, m: Machine)
    returns (memo: map<Byte, Value>)
    requires ReadsOps(run) && timestamp < UINT32 && |value| == 8
    ensures Leads(run, EncodePoint(timestamp, value, pt), m,
                  Machine(m.stack + [Val(Tuple([Int(Signed32(timestamp)), Float(value)]))], memo))
  {
    var n := Int(Signed32(timestamp));
    var m1 := AddMark(m);
    var m2 := Push(Push(m1, n), Float(value));
    Then(run, [MARK], EncodeInt(timestamp), m, m1, Push(m1, n));
    Then(run, [MARK] + EncodeInt(timestamp), EncodeDouble(value), m, Push(m1, n), m2);
    memo := LeadsPair(run, m, n, Float(value), pt % 256);
    Then(run, [MARK] + EncodeInt(timestamp) + EncodeDouble(value), [TUPLE, BINPUT, pt % 256], m, m2,
         Machine(m.stack + [Val(Tuple([n, Float(value)]))], memo));
  }

  /** One encoded sample is read as one value on top of the stack. */
  lemma {:induction false} LeadsSample(run: Reader, x: Sample, pt: nat, m: Machine) returns (memo: map<Byte, Value>)
    requires ReadsOps(run) && IsSample(x)
    ensures Leads(run, EncodeSample(x, pt), m, Machine(m.stack + [Val(SampleValue(x))], memo))
  {
    var memo1 := LeadsKey(run, x.key, pt, m);
    var m1 := Push(AddMark(Machine(m.stack, memo1)), Str(x.key));
    var memo2 := LeadsPoint(run, x.timestamp, x.value, pt + 1, m1);
    var pair := Tuple([Int(Signed32(x.timestamp)), Float(x.value)]);
    var m2 := Machine(m1.stack + [Val(pair)], memo2);
    Then(run, EncodeKey(x.key, pt), EncodePoint(x.timestamp, x.value, pt + 1), m, m1, m2);
    var under := Machine(m.stack, memo2);
    assert m2 == Push(Push(AddMark(under), Str(x.key)), pair);
    memo := LeadsPair(run, under, Str(x.key), pair, (pt + 2) % 256);
    Then(run, EncodeKey(x.key, pt) + EncodePoint(x.timestamp, x.value, pt + 1), [TUPLE, BINPUT, (pt + 2) % 256], m, m2,
         Machine(m.stack + [Val(SampleValue(x))], memo));
  }

  lemma {:induction false} SlotsPush(xs: seq<Sample>, x: Sample)
    ensures Slots(SampleValues(xs + [x])) == Slots(SampleValues(xs)) + [Val(SampleValue(x))]
  {
  }

  lemma {:induction false} EncodeSamplesPush(xs: seq<Sample>, x: Sample)
    requires AllSamples(xs) && IsSample(x)
    ensures EncodeSamples(xs + [x]) == EncodeSamples(xs) + EncodeSample(x, 1 + 3 * |xs|)
  {
    assert (xs + [x])[..|xs|] == xs;
  }

  lemma {:induction false} ThenOneMore(run: Reader, a: seq<Byte>, b: seq<Byte>, m: Machine,
                                       slots: seq<Slot>, memo: map<Byte, Value>, slot: Slot, memo': map<Byte, Value>)
    requires Leads(run, a, m, Machine(m.stack + slots, memo))
    requires Leads(run, b, Machine(m.stack + slots, memo), Machine(m.stack + slots + [slot], memo'))
    ensures Leads(run, a + b, m, Machine(m.stack + (slots + [slot]), memo'))
  {
    Then(run, a, b, m, Machine(m.stack + slots, memo), Machine(m.stack + slots + [slot], memo'));
    assert m.stack + slots + [slot] == m.stack + (slots + [slot]);
  }

  ghost predicate ReadsSample(run: Reader, x: Sample, pt: nat, m: Machine)
    requires IsSample(x)
  {
    exists memo :: Leads(run, EncodeSample(x, pt), m, Machine(m.stack + [Val(SampleValue(x))], memo))
  }

  lemma {:induction false} LeadsNothing(run: Reader, m: Machine)
    ensures Leads(run, [], m, Machine(m.stack + [], m.memo))
  {
    assert m.stack + [] == m.stack;
    forall rest ensures run([] + rest, m) == run(rest, m) {
      assert [] + rest == rest;
    }
  }

  lemma {:induction false} LeadsSamples(run: Reader, xs: seq<Sample>, m: Machine)
    returns (memo: map<Byte, Value>, code: seq<Byte>, slots: seq<Slot>)
    requires forall x, pt, m :: IsSample(x) && pt >= 0 ==> ReadsSample(run, x, pt, m)
    requires AllSamples(xs)
    ensures code == EncodeSamples(xs) && slots == Slots(SampleValues(xs))
    ensures Leads(run, code, m, Machine(m.stack + slots, memo))
    decreases |xs|
  {
    if xs == [] {
      memo, code, slots := m.memo, [], [];
      LeadsNothing(run, m);
    } else {
      var init, x := xs[..|xs| - 1], xs[|xs| - 1];
      var memo1, code1, slots1 := LeadsSamples(run, init, m);
      var m1 := Machine(m.stack + slots1, memo1);
      var pt := 1 + 3 * |init|;
      var one := EncodeSample(x, pt);
      assert ReadsSample(run, x, pt, m1);
      memo :| Leads(run, one, m1, Machine(m1.stack + [Val(SampleValue(x))], memo));
      assert xs == init + [x];
      SlotsPush(init, x);
      EncodeSamplesPush(init, x);
      ThenOneMore(run, code1, one, m, slots1, memo1, Val(SampleValue(x)), memo);
      code, slots := code1 + one, slots1 + [Val(SampleValue(x))];
    }
  }

  lemma {:induction false} LeadsLead(run: Reader)
    requires ReadsOps(run)
    ensures Leads(run, LEAD, Machine([], map[]), Machine([Val(List([])), Mark], map[0 := List([])]))
  {
    var m0 := Machine([], map[]);
    var m1 := Push(m0, List([]));
    var m2 := Memoize(m1, 0);
    Then(run, [EMPTY_LIST], [BINPUT, 0], m0, m1, m2);
    Then(run, [EMPTY_LIST] + [BINPUT, 0], [MARK], m0, m2, AddMark(m2));
    assert [EMPTY_LIST] + [BINPUT, 0] + [MARK] == LEAD;
    assert AddMark(m2).stack == [Val(List([])), Mark];
    assert AddMark(m2).memo == map[0 := List([])];
  }

  /** Everything before the trailer. */
  lemma {:induction false} LeadsBody(run: Reader, xs: seq<Sample>) returns (memo: map<Byte, Value>)
    requires ReadsOps(run) && AllSamples(xs)
    ensures Leads(run, LEAD + EncodeSamples(xs), Machine([], map[]),
                  Machine([Val(List([])), Mark] + Slots(SampleValues(xs)), memo))
  {
    var m1 := Machine([Val(List([])), Mark], map[0 := List([])]);
    LeadsLead(run);
    forall x, pt, m | IsSample(x) && pt >= 0 ensures ReadsSample(run, x, pt, m) {
      var memo' := LeadsSample(run, x, pt, m);
    }
    var code, slots;
    memo, code, slots := LeadsSamples(run, xs, m1);
    Then(run, LEAD, code, Machine([], map[]), m1, Machine(m1.stack + slots, memo));
  }

  lemma {:induction false} ExecAppends(m: Machine, bottom: seq<Slot>, list: seq<Value>, vs: seq<Value>)
    requires PopMark(m.stack) == Some((bottom + [Val(List(list))], vs))
    ensures Exec([APPENDS] + [STOP], m) == Continue(Machine(bottom + [Val(List(list + vs))], m.memo), 1)
  {
    var b := bottom + [Val(List(list))];
    assert b[..|b| - 1] == bottom;
  }

  lemma {:induction false} RunTrail(m: Machine, vs: seq<Value>)
    requires PopMark(m.stack) == Some(([Val(List([]))], vs))
    ensures Run(TRAIL, m) == Done(List(vs), [])
  {
    assert [Val(List([]))] == [] + [Val(List([]))] && [] + vs == vs;
    ExecAppends(m, [], [], vs);
    var m1 := Machine([] + [Val(List([] + vs))], m.memo);
    RunOn([APPENDS], [STOP], m, m1);
    assert TRAIL == [APPENDS] + [STOP];
    assert Exec([STOP], m1) == Halt(List(vs));
  }

  /**
    Round trip: a payload loads without getting stuck, to exactly the list of
    (key, (timestamp, value)) that was pushed, in order, with nothing left over.
   */
  lemma {:induction false} LoadPayload(xs: seq<Sample>)
    requires AllSamples(xs)
    ensures Load(Payload(xs)) == Done(List(SampleValues(xs)), [])
  {
    RunReadsOps();
    var memo := LeadsBody(Run, xs);
    var m := Machine([Val(List([])), Mark] + Slots(SampleValues(xs)), memo);
    assert Run(LEAD + EncodeSamples(xs) + TRAIL, Machine([], map[])) == Run(TRAIL, m);
    PopValues([Val(List([]))], SampleValues(xs));
    assert m.stack == [Val(List([]))] + [Mark] + Slots(SampleValues(xs));
    RunTrail(m, SampleValues(xs));
  }

  /** A timestamp survives BININT exactly when it is below 2^31. */
  lemma TimestampExact(x: Sample)
    requires IsSample(x)
    ensures SampleValue(x).elements[1].elements[0] == Int(x.timestamp) <==> x.timestamp < 0x8000_0000
  {
  }

  /** Equal payloads come from equal samples: the encoding loses nothing. */
  lemma {:induction false} PayloadInjective(xs: seq<Sample>, ys: seq<Sample>)
    requires AllSamples(xs) && AllSamples(ys) && Payload(xs) == Payload(ys)
    ensures xs == ys
  {
    LoadPayload(xs);
    LoadPayload(ys);
    assert |xs| == |ys|;
    forall i | 0 <= i < |xs| ensures xs[i] == ys[i] {
      assert SampleValues(xs)[i] == SampleValues(ys)[i];
      assert SampleValue(xs[i]).elements[0] == SampleValue(ys[i]).elements[0];
      assert SampleValue(xs[i]).elements[1] == SampleValue(ys[i]).elements[1];
      var p, q := SampleValue(xs[i]).elements[1], SampleValue(ys[i]).elements[1];
      assert p.elements[0] == q.elements[0] && p.elements[1] == q.elements[1];
    }
  }
}
