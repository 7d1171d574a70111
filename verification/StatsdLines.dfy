/** Statsd lines spelled out: what every part of a line comes to, in the bytes of the format. */
module StatsdLines {
  import opened Decimal
  import opened StatsdGrammar
  import opened Wrappers

  // ----- numbers -----

  lemma {:induction false} ConcatStep(v: nat, p: nat, u: nat, d: nat)
    ensures 10 * (v * p + u) + d == v * (10 * p) + (10 * u + d)
  {
    Decimal.TimesTen(v, p);
  }

  /** Digits after digits. */
  lemma {:induction false} ValueConcat(w: string, f: string)
    requires AllDigits(w) && AllDigits(f)
    ensures AllDigits(w + f) && Value(w + f) == Value(w) * Pow10(|f|) + Value(f)
    decreases |f|
  {
    if f == [] {
      assert w + f == w;
    } else {
      var init, d := f[..|f| - 1], DigitValue(f[|f| - 1]);
      assert (w + f)[..|w + f| - 1] == w + init;
      ValueConcat(w, init);
      ConcatStep(Value(w), Pow10(|init|), Value(init), d);
    }
  }

  /** v times p is n. */
  ghost predicate Times(v: real, p: nat, n: nat) { v * p as real == n as real }

  lemma Distribute(a: real, b: real, p: real)
    ensures (a + b) * p == a * p + b * p
  {
  }

  lemma {:induction false} ScaledSum(w: nat, f: nat, s: real, p: nat, all: nat)
    requires Times(s, p, f) && all == w * p + f
    ensures Times(w as real + s, p, all)
  {
    Distribute(w as real, s, p as real);
    assert w as real * p as real == (w * p) as real;
  }

  lemma {:induction false} ScaledTimes(v: nat, n: nat)
    ensures Times(Scaled(v as real, n), Pow10(n), v)
  {
    ScaledIsQuotient(v as real, n);
  }

  /** The value of w.f, times 10 for each digit of f, is the number that w and f spell together. */
  lemma {:induction false} DecimalValue(w: string, f: string)
    requires AllDigits(w) && AllDigits(f)
    ensures AllDigits(w + f) && Times(Magnitude(w, Some(f)), Pow10(|f|), Value(w + f))
  {
    ValueConcat(w, f);
    ScaledTimes(Value(f), |f|);
    ScaledSum(Value(w), Value(f), Scaled(Value(f) as real, |f|), Pow10(|f|), Value(w + f));
  }

  lemma {:induction false} SignedText(w: string, frac: Option<string>)
    requires AllDigits(w) && (frac.Some? ==> AllDigits(frac.value))
    ensures NumText(Num(NoSign, w, frac)) == w + FracText(frac)
    ensures NumText(Num(Plus, w, frac)) == "+" + (w + FracText(frac))
    ensures NumText(Num(Minus, w, frac)) == "-" + (w + FracText(frac))
  {
  }

  /** parse_float on a sign, digits, and a dot with more digits; the signs only negate or mark. */
  lemma {:induction false} ReadsSigned(numbers: Numbers, w: string, frac: Option<string>, rest: string)
    requires numbers.plain == PlainValue && AllDigits(w) && (frac.Some? ==> AllDigits(frac.value)) && EndsNumber(rest)
    ensures var text := w + FracText(frac); var v := Magnitude(w, frac); var n := |text|;
            && ParseFloat(numbers, text + rest) == Float(v, false, n)
            && ParseFloat(numbers, "+" + text + rest) == Float(v, true, n + 1)
            && ParseFloat(numbers, "-" + text + rest) == Float(-v, true, n + 1)
  {
    SignedText(w, frac);
    ParseFloatText(numbers, Num(NoSign, w, frac), rest);
    ParseFloatText(numbers, Num(Plus, w, frac), rest);
    ParseFloatText(numbers, Num(Minus, w, frac), rest);
  }

  /** What "digits.digits" reads as, for any digits, with each sign in front and anything that may follow behind. */
  lemma {:induction false} ReadsDecimal(numbers: Numbers, w: string, f: string, rest: string)
    requires numbers.plain == PlainValue && AllDigits(w) && AllDigits(f) && EndsNumber(rest)
    ensures AllDigits(w + f)
    ensures var text := w + ("." + f); var r := ParseFloat(numbers, text + rest);
            && Times(r.value, Pow10(|f|), Value(w + f)) && !r.relative && r.used == |text|
            && ParseFloat(numbers, "+" + text + rest) == Float(r.value, true, |text| + 1)
            && ParseFloat(numbers, "-" + text + rest) == Float(-r.value, true, |text| + 1)
  {
    DecimalValue(w, f);
    ReadsSigned(numbers, w, Some(f), rest);
  }

  /** And plain "digits". */
  lemma {:induction false} ReadsWhole(numbers: Numbers, w: string, rest: string)
    requires numbers.plain == PlainValue && AllDigits(w) && EndsNumber(rest)
    ensures var v := Value(w) as real;
            && ParseFloat(numbers, w + rest) == Float(v, false, |w|)
            && ParseFloat(numbers, "+" + w + rest) == Float(v, true, |w| + 1)
            && ParseFloat(numbers, "-" + w + rest) == Float(-v, true, |w| + 1)
  {
    assert w + FracText(None) == w;
    ReadsSigned(numbers, w, None, rest);
  }

  /** A number with an exponent: strtod's value of the whole text, its sign included, and as far as strtod reads. */
  lemma {:induction false} ReadsExponent(numbers: Numbers, n: Num, rest: string)
    requires IsNum(n) && rest != [] && (rest[0] == 'e' || rest[0] == 'E')
    ensures var text := NumText(n) + rest; var read := numbers.length(text);
            ParseFloat(numbers, text) ==
            Float(numbers.strtod(text), !n.sign.NoSign?, if read < |text| then read else |text|)
  {
    ScanNumText(n, rest);
    Dropped(NumText(n), rest);
  }

  // ----- lines -----

  /** The letters of each type. */
  predicate Letters(kind: Kind, letters: string) {
    match kind
    case Gauge => letters == "g"
    case Meter => letters == "c"
    case Counter => letters == "C"
    case Histogram => letters == "h"
    case Timer => letters == "ms"
  }

  predicate IsKey(key: string) {
    |key| < 0x1_0000 && forall i :: 0 <= i < |key| ==> key[i] != ':' && key[i] != ' '
  }

  lemma {:induction false} ShortKeyWhole(key: string)
    requires IsKey(key)
    ensures CutKey(key) == key
  {
    KeyExact(key);
  }

  /** `text` is this line, part by part. */
  predicate Spells(text: string, key: string, number: string, letters: string, tail: string) {
    text == key + ":" + (number + "|" + letters + tail)
  }

  lemma {:induction false} SpelledIsText(l: Line, letters: string, tail: string, text: string)
    requires Letters(l.kind, letters) && Spells(text, l.key, NumText(l.num), letters, tail)
    requires tail == RateText(l.rate) + EndText(l.newline)
    ensures text == LineText(l)
  {
  }

  lemma {:induction false} ParseSpelled(numbers: Numbers, before: char, l: Line, text: string)
    requires IsLine(numbers, before, l) && text == LineText(l)
    ensures Parse(numbers, before, text) == Some(Meaning(numbers, l))
  {
    ParseLineText(numbers, before, l);
  }

  /** A key that ends in a dot: rejected, whatever follows. An empty key looks at the byte before the line. */
  lemma {:induction false} DotRejected(numbers: Numbers, before: char, key: string, rest: string)
    requires IsKey(key) && (if key == [] then before else key[|key| - 1]) == '.'
    ensures Parse(numbers, before, key + ":" + rest).None?
  {
    ShortKeyWhole(key);
    KeyEndText(key, rest);
    KeyParts(key, rest);
  }

  lemma {:induction false} NoColon(s: string)
    requires forall i :: 0 <= i < |s| ==> s[i] != ':'
    ensures KeyEnd(s).None?
  {
    if s == [] {
    } else {
      NoColon(s[1..]);
    }
  }

  lemma {:induction false} SpaceFirst(key: string, rest: string)
    requires forall i :: 0 <= i < |key| ==> key[i] != ':'
    ensures KeyEnd(key + " " + rest).None?
    decreases |key|
  {
    var s := key + " " + rest;
    if key == [] {
      assert s[0] == ' ';
    } else {
      assert s[1..] == key[1..] + " " + rest;
      SpaceFirst(key[1..], rest);
    }
  }

  /** A line without a colon, or with a space before the first one: rejected. */
  lemma {:induction false} NoKeyRejected(numbers: Numbers, before: char, s: string, rest: string)
    requires forall i :: 0 <= i < |s| ==> s[i] != ':'
    ensures Parse(numbers, before, s).None? && Parse(numbers, before, s + " " + rest).None?
  {
    NoColon(s);
    SpaceFirst(s, rest);
  }

  predicate GoodKey(before: char, key: string) {
    IsKey(key) && (if key == [] then before else key[|key| - 1]) != '.'
  }

  lemma {:induction false} GoodLine(numbers: Numbers, before: char, l: Line)
    requires GoodKey(before, l.key) && IsNum(l.num)
    requires l.rate.Some? ==> IsNum(l.rate.value) && 0.0 < numbers.plain(l.rate.value) <= 1.0
    ensures IsLine(numbers, before, l)
    ensures Meaning(numbers, l) ==
            Message(l.key, numbers.plain(l.num), !l.num.sign.NoSign?, l.kind, Frequency(numbers, l.rate))
  {
    ShortKeyWhole(l.key);
  }

  /** A line without a rate counts once. */
  lemma {:induction false} ReadsUnsampled(numbers: Numbers, before: char, key: string, n: Num, kind: Kind,
                                          letters: string, end: string, text: string)
    requires GoodKey(before, key) && IsNum(n) && Letters(kind, letters) && (end == "" || end == "\n")
    requires Spells(text, key, NumText(n), letters, end)
    ensures Parse(numbers, before, text) == Some(Message(key, numbers.plain(n), !n.sign.NoSign?, kind, 1.0))
  {
    var l := Line(key, n, kind, None, end != "");
    assert RateText(None) + EndText(end != "") == end;
    SpelledIsText(l, letters, end, text);
    GoodLine(numbers, before, l);
    ParseSpelled(numbers, before, l, text);
  }

  lemma {:induction false} RateSpelled(r: Num, end: string)
    ensures "|@" + NumText(r) + end == RateText(Some(r)) + end
    ensures HasRate(RateText(Some(r)) + end) && (RateText(Some(r)) + end)[2..] == NumText(r) + end
  {
    RateGrouped(r, end);
    Dropped(['|', '@'], NumText(r) + end);
  }

  lemma {:induction false} RateNone(rate: Float, s: string)
    requires rate.used <= |s| && !(0.0 < rate.value <= 1.0)
    ensures AcceptRate(rate, s).None?
  {
  }

  lemma {:induction false} TailRejected(numbers: Numbers, r: Num, end: string)
    requires IsNum(r) && !(0.0 < numbers.plain(r) <= 1.0) && AtEnd(end)
    ensures ParseTail(numbers, RateText(Some(r)) + end).None?
  {
    RateSpelled(r, end);
    ParseFloatText(numbers, r, end);
    RateNone(Float(numbers.plain(r), !r.sign.NoSign?, |NumText(r)|), NumText(r) + end);
  }

  lemma {:induction false} TypeRejected(numbers: Numbers, key: string, num: Float, kind: Kind,
                                        letters: string, tail: string)
    requires Letters(kind, letters) && ParseTail(numbers, tail).None?
    ensures ParseType(numbers, key, num, "|" + (letters + tail)).None?
  {
    Dropped("|", letters + tail);
    ScanKindText(kind, tail);
    Dropped(letters, tail);
  }

  lemma {:induction false} RestRejected(numbers: Numbers, before: char, key: string, n: Num,
                                        after: string, text: string)
    requires GoodKey(before, key) && IsNum(n) && EndsNumber(after) && text == key + [':'] + (NumText(n) + after)
    requires ParseType(numbers, key, Float(numbers.plain(n), !n.sign.NoSign?, |NumText(n)|), after).None?
    ensures Parse(numbers, before, text).None?
  {
    ShortKeyWhole(key);
    ParseRestText(numbers, key, n, after);
    ParseKeyText(Body(numbers), before, key, NumText(n) + after);
  }

  lemma {:induction false} SpelledInTwo(text: string, key: string, number: string, letters: string, tail: string)
    requires Spells(text, key, number, letters, tail)
    ensures text == key + [':'] + (number + ("|" + (letters + tail)))
  {
    Grouped(number, "|", letters, tail);
  }

  /** A rate outside (0, 1]: rejected. */
  lemma {:induction false} RateRejected(numbers: Numbers, before: char, key: string, n: Num, kind: Kind,
                                        letters: string, r: Num, end: string, text: string)
    requires GoodKey(before, key) && IsNum(n) && IsNum(r) && Letters(kind, letters) && (end == "" || end == "\n")
    requires Spells(text, key, NumText(n), letters, "|@" + NumText(r) + end) && !(0.0 < numbers.plain(r) <= 1.0)
    ensures Parse(numbers, before, text).None?
  {
    var tail := RateText(Some(r)) + end;
    RateSpelled(r, end);
    TailRejected(numbers, r, end);
    TypeRejected(numbers, key, Float(numbers.plain(n), !n.sign.NoSign?, |NumText(n)|), kind, letters, tail);
    SpelledInTwo(text, key, NumText(n), letters, tail);
    RestRejected(numbers, before, key, n, "|" + (letters + tail), text);
  }

  lemma Inverse(r: real)
    requires r != 0.0
    ensures 1.0 / r * r == 1.0
  {
  }

  ghost predicate Inverses(a: real, b: real) { a * b == 1.0 }

  lemma {:induction false} FrequencyInverse(numbers: Numbers, r: Num)
    requires numbers.plain(r) > 0.0
    ensures Inverses(Frequency(numbers, Some(r)), numbers.plain(r))
  {
    Inverse(numbers.plain(r));
  }

  lemma {:induction false} ReadsRate(numbers: Numbers, before: char, l: Line, letters: string, r: Num, end: string,
                                     text: string)
    requires GoodKey(before, l.key) && IsNum(l.num) && IsNum(r) && Letters(l.kind, letters)
    requires l.rate == Some(r) && end == EndText(l.newline) && 0.0 < numbers.plain(r) <= 1.0
    requires Spells(text, l.key, NumText(l.num), letters, "|@" + NumText(r) + end)
    ensures Parse(numbers, before, text) == Some(Meaning(numbers, l))
    ensures Meaning(numbers, l) ==
            Message(l.key, numbers.plain(l.num), !l.num.sign.NoSign?, l.kind, Frequency(numbers, l.rate))
  {
    RateSpelled(r, end);
    SpelledIsText(l, letters, RateText(Some(r)) + end, text);
    GoodLine(numbers, before, l);
    ParseSpelled(numbers, before, l, text);
  }

  /** A rate within it: the frequency is what the rate has to be multiplied by to give one. */
  lemma {:induction false} ReadsSampled(numbers: Numbers, before: char, key: string, n: Num, kind: Kind,
                                        letters: string, r: Num, end: string, text: string) returns (freq: real)
    requires GoodKey(before, key) && IsNum(n) && IsNum(r) && Letters(kind, letters) && (end == "" || end == "\n")
    requires Spells(text, key, NumText(n), letters, "|@" + NumText(r) + end) && 0.0 < numbers.plain(r) <= 1.0
    ensures Inverses(freq, numbers.plain(r))
    ensures Parse(numbers, before, text) == Some(Message(key, numbers.plain(n), !n.sign.NoSign?, kind, freq))
  {
    freq := Frequency(numbers, Some(r));
    FrequencyInverse(numbers, r);
    ReadsRate(numbers, before, Line(key, n, kind, Some(r), end != ""), letters, r, end, text);
  }

  // ----- lines in full -----

  lemma {:induction false} OneDigit(s: string, c: char)
    requires s == [c] && IsDigit(c)
    ensures AllDigits(s) && Value(s) == c as int - '0' as int
  {
    assert s[..0] == [];
  }

  /** A relative gauge: any key, then ":+5|g" raises by five, and ":-5|g" lowers by five. */
  lemma {:induction false} RelativeGauges(numbers: Numbers, before: char, key: string, up: string, down: string)
    requires numbers.plain == PlainValue && GoodKey(before, key) && up == key + ":+5|g" && down == key + ":-5|g"
    ensures Parse(numbers, before, up) == Some(Message(key, 5.0, true, Gauge, 1.0))
    ensures Parse(numbers, before, down) == Some(Message(key, -5.0, true, Gauge, 1.0))
  {
    FiveLine(key, up, down, ['5']);
    OneDigit(['5'], '5');
    ReadsUnsampled(numbers, before, key, Num(Plus, ['5'], None), Gauge, "g", "", up);
    ReadsUnsampled(numbers, before, key, Num(Minus, ['5'], None), Gauge, "g", "", down);
  }

  lemma {:induction false} FiveLine(key: string, up: string, down: string, five: string)
    requires five == ['5'] && up == key + ":+5|g" && down == key + ":-5|g"
    ensures Spells(up, key, NumText(Num(Plus, five, None)), "g", "")
    ensures Spells(down, key, NumText(Num(Minus, five, None)), "g", "")
  {
  }

  lemma {:induction false} TenthIsTenth(zero: string, one: string)
    requires zero == "0" && one == "1"
    ensures AllDigits(zero) && AllDigits(one) && Magnitude(zero, Some(one)) == 0.1 && Magnitude(one, None) == 1.0
  {
    OneDigit(zero, '0');
    OneDigit(one, '1');
    DecimalValue(zero, one);
    ValueConcat(zero, one);
    assert Pow10(1) == 10;
  }

  lemma {:induction false} SampledLine(key: string, zero: string, one: string, text: string)
    requires zero == "0" && one == "1" && text == key + ":1|c|@0.1"
    ensures Spells(text, key, NumText(Num(NoSign, one, None)), "c", "|@" + NumText(Num(NoSign, zero, Some(one))) + "")
  {
  }

  /** A sampled counter: any key, then ":1|c|@0.1", stands for ten. */
  lemma {:induction false} SampledMeter(numbers: Numbers, before: char, key: string, text: string)
    requires numbers.plain == PlainValue && GoodKey(before, key) && text == key + ":1|c|@0.1"
    ensures Parse(numbers, before, text) == Some(Message(key, 1.0, false, Meter, 10.0))
  {
    var zero: string, one: string := ['0'], ['1'];
    var n, r := Num(NoSign, one, None), Num(NoSign, zero, Some(one));
    TenthIsTenth(zero, one);
    SampledLine(key, zero, one, text);
    var freq := ReadsSampled(numbers, before, key, n, Meter, "c", r, "", text);
    TenTenths(freq, numbers.plain(r));
  }

  lemma TenTenths(f: real, r: real)
    requires Inverses(f, r) && r == 0.1
    ensures f == 10.0
  {
  }

  // ----- digits -----

  lemma {:induction false} NextDigit(s: string, k: nat, v: nat)
    requires k < |s| && AllDigits(s[..k]) && Value(s[..k]) == v && IsDigit(s[k])
    ensures AllDigits(s[..k + 1]) && Value(s[..k + 1]) == 10 * v + (s[k] as int - '0' as int)
  {
    assert s[..k + 1][..k] == s[..k];
  }

  /** The ten digits mean what they look like. */
  lemma {:induction false} DigitsMean(s: string)
    requires s == "1234567890"
    ensures AllDigits(s) && Value(s) == 1234567890
  {
    assert s[..0] == [] && s[..10] == s;
    NextDigit(s, 0, 0);
    NextDigit(s, 1, 1);
    NextDigit(s, 2, 12);
    NextDigit(s, 3, 123);
    NextDigit(s, 4, 1234);
    NextDigit(s, 5, 12345);
    NextDigit(s, 6, 123456);
    NextDigit(s, 7, 1234567);
    NextDigit(s, 8, 12345678);
    NextDigit(s, 9, 123456789);
  }
}
