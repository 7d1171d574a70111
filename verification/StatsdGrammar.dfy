/**
  The statsd line format as src/samplers/statsd.c reads it: what the parser returns for a
  C string, the grammar of the lines it takes, and the proof that the two agree.
 */
module StatsdGrammar {
  import opened Decimal
  import opened Wrappers

  datatype Kind = Gauge | Meter | Counter | Histogram | Timer

  datatype Message = Message(key: string, value: real, relative: bool, kind: Kind, sampleFreq: real)

  /**
    How digits become numbers: a plain number by its decimal value, a number with an
    exponent by the library's strtod, its value and how much it reads. The grammar below
    does not depend on either.
   */
  datatype Numbers = Numbers(plain: Num -> real, strtod: string -> real, length: string -> nat)

  // ----- numbers -----

  datatype Sign = NoSign | Plus | Minus

  /** A number as written: digits may be missing on either side of the dot. */
  datatype Num = Num(sign: Sign, whole: string, frac: Option<string>)

  function SignText(sign: Sign): string {
    match sign case NoSign => [] case Plus => ['+'] case Minus => ['-']
  }

  function FracText(frac: Option<string>): string {
    match frac case None => [] case Some(f) => ['.'] + f
  }

  function NumText(n: Num): string { SignText(n.sign) + n.whole + FracText(n.frac) }

  predicate IsNum(n: Num) {
    AllDigits(n.whole) && (n.frac.Some? ==> AllDigits(n.frac.value))
  }

  /** `v` with the decimal point moved n places to the left. */
  function Scaled(v: real, n: nat): real {
    if n == 0 then v else Scaled(v, n - 1) / 10.0
  }

  lemma TimesTen(v: real, s: real, p: real)
    requires s * p == v
    ensures s / 10.0 * (10.0 * p) == v
  {
  }

  lemma Quotient(v: real, s: real, p: real)
    requires s * p == v && p > 0.0
    ensures s == v / p
  {
  }

  /** That is division by a power of ten. */
  lemma {:induction false} ScaledIsQuotient(v: real, n: nat)
    ensures Scaled(v, n) * Pow10(n) as real == v && Scaled(v, n) == v / Pow10(n) as real
  {
    if n == 0 {
    } else {
      ScaledIsQuotient(v, n - 1);
      TimesTen(v, Scaled(v, n - 1), Pow10(n - 1) as real);
    }
    Quotient(v, Scaled(v, n), Pow10(n) as real);
  }

  function FracValue(frac: Option<string>): real
    requires frac.Some? ==> AllDigits(frac.value)
  {
    match frac case None => 0.0 case Some(f) => Scaled(Value(f) as real, |f|)
  }

  function Magnitude(whole: string, frac: Option<string>): real
    requires AllDigits(whole) && (frac.Some? ==> AllDigits(frac.value))
  {
    Value(whole) as real + FracValue(frac)
  }

  function NumValue(n: Num): real
    requires IsNum(n)
  {
    if n.sign.Minus? then -Magnitude(n.whole, n.frac) else Magnitude(n.whole, n.frac)
  }

  function PlainValue(n: Num): real { if IsNum(n) then NumValue(n) else 0.0 }

  /** How many digits a string starts with. */
  function Digits(s: string): (n: nat)
    ensures n <= |s| && AllDigits(s[..n]) && (n < |s| ==> !IsDigit(s[n]))
  {
    if s != [] && IsDigit(s[0]) then
      var n := Digits(s[1..]);
      assert s[..n + 1] == [s[0]] + s[1..][..n];
      n + 1
    else 0
  }

  function ScanSign(s: string): (sign: Sign)
    ensures SignText(sign) <= s
  {
    if s != [] && s[0] == '-' then Minus else if s != [] && s[0] == '+' then Plus else NoSign
  }

  function ScanFrac(s: string): (frac: Option<string>)
    ensures FracText(frac) <= s && (frac.Some? ==> AllDigits(frac.value))
  {
    if s != [] && s[0] == '.' then Some(s[1..][..Digits(s[1..])]) else None
  }

  lemma PrefixOfAll(a: string, b: string, c: string, s: string, s1: string, s2: string)
    requires a <= s && s1 == s[|a|..] && b <= s1 && s2 == s1[|b|..] && c <= s2
    ensures a + b + c <= s
  {
    assert s == a + (b + s2);
  }

  /** The longest number at the front of a string. */
  function Scan(s: string): (n: Num)
    ensures IsNum(n) && NumText(n) <= s
  {
    var sign := ScanSign(s);
    var s1 := s[|SignText(sign)|..];
    var n1 := Digits(s1);
    var frac := ScanFrac(s1[n1..]);
    PrefixOfAll(SignText(sign), s1[..n1], FracText(frac), s, s1, s1[n1..]);
    Num(sign, s1[..n1], frac)
  }

  predicate StartsExponent(s: string) { s != [] && (s[0] == 'e' || s[0] == 'E') }

  datatype Float = Float(value: real, relative: bool, used: nat)

  function Min(a: nat, b: nat): nat { if a < b then a else b }

  /** parse_float on a C string. */
  function ParseFloat(numbers: Numbers, s: string): (r: Float)
    ensures r.used <= |s|
  {
    Evaluate(numbers, s, Scan(s))
  }

  /** The value of a text that starts with the number `n`. */
  function Evaluate(numbers: Numbers, s: string, n: Num): (r: Float)
    requires |NumText(n)| <= |s|
    ensures r.used <= |s|
  {
    if StartsExponent(s[|NumText(n)|..]) then
      Float(numbers.strtod(s), !n.sign.NoSign?, Min(numbers.length(s), |s|))
    else Float(numbers.plain(n), !n.sign.NoSign?, |NumText(n)|)
  }

  // ----- lines -----

  /** The key's length: up to the first ':', with no space before it. */
  function KeyEnd(s: string): (k: Option<nat>)
    ensures k.Some? ==> k.value < |s| && s[k.value] == ':'
    ensures k.Some? ==> forall i :: 0 <= i < k.value ==> s[i] != ':' && s[i] != ' '
  {
    if s == [] || s[0] == ' ' then None
    else if s[0] == ':' then Some(0)
    else match KeyEnd(s[1..]) case None => None case Some(k) => Some(k + 1)
  }

  function KindText(k: Kind): string {
    match k case Gauge => "g" case Meter => "c" case Counter => "C" case Histogram => "h" case Timer => "ms"
  }

  function ScanKind(s: string): (k: Option<Kind>)
    ensures k.Some? ==> KindText(k.value) <= s
  {
    if s == [] then None
    else if s[0] == 'g' then Some(Gauge)
    else if s[0] == 'c' then Some(Meter)
    else if s[0] == 'C' then Some(Counter)
    else if s[0] == 'h' then Some(Histogram)
    else if s[0] == 'm' && |s| > 1 && s[1] == 's' then Some(Timer)
    else None
  }

  predicate AtEnd(s: string) { s == [] || s == ['\n'] }

  predicate HasRate(s: string) { |s| > 1 && s[0] == '|' && s[1] == '@' }

  function AcceptRate(rate: Float, s: string): Option<real>
    requires rate.used <= |s|
  {
    if rate.value <= 0.0 || rate.value > 1.0 || !AtEnd(s[rate.used..]) then None else Some(1.0 / rate.value)
  }

  /** The sample frequency and the end of the line. */
  function ParseTail(numbers: Numbers, s: string): Option<real> {
    if HasRate(s) then AcceptRate(ParseFloat(numbers, s[2..]), s[2..])
    else if AtEnd(s) then Some(1.0) else None
  }

  /** What follows a number. */
  function ParseType(numbers: Numbers, key: string, num: Float, s: string): Option<Message> {
    if s == [] || s[0] != '|' then None
    else
      match ScanKind(s[1..])
      case None => None
      case Some(kind) =>
        match ParseTail(numbers, s[1..][|KindText(kind)|..])
        case None => None
        case Some(freq) => Some(Message(key, num.value, num.relative, kind, freq))
  }

  /** What follows the key's colon. */
  function ParseRest(numbers: Numbers, key: string, s: string): Option<Message> {
    var num := ParseFloat(numbers, s);
    ParseType(numbers, key, num, s[num.used..])
  }

  /** The byte that `msg->key[msg->key_len - 1]` reads: for an empty key, the one before the line. */
  function LastOfKey(before: char, key: string): char {
    if key == [] then before else key[|key| - 1]
  }

  /** The key as far as its 16-bit length reaches. */
  function CutKey(key: string): (k: string)
    ensures |k| < 0x1_0000 && k <= key
  {
    key[..|key| % 0x1_0000]
  }

  lemma {:induction false} KeyExact(key: string)
    ensures CutKey(key) == key <==> |key| < 0x1_0000
    ensures CutKey(key) <= key && |CutKey(key)| < 0x1_0000 && (|key| - |CutKey(key)|) % 0x1_0000 == 0
  {
  }

  type BodyParser = (string, string) -> Option<Message>

  /** The key, then whatever `rest` makes of the text after its colon. */
  function ParseKey(rest: BodyParser, before: char, s: string): Option<Message> {
    match KeyEnd(s)
    case None => None
    case Some(k) =>
      var key := CutKey(s[..k]);
      if LastOfKey(before, key) == '.' then None else rest(key, s[k + 1..])
  }

  function Body(numbers: Numbers): BodyParser { (key, s) => ParseRest(numbers, key, s) }

  /** brubeck_statsd_msg_parse on a C string; `before` is the byte in front of it. */
  function Parse(numbers: Numbers, before: char, s: string): Option<Message> {
    ParseKey(Body(numbers), before, s)
  }

  // ----- the grammar -----

  datatype Line = Line(key: string, num: Num, kind: Kind, rate: Option<Num>, newline: bool)

  function RateText(rate: Option<Num>): string {
    match rate case None => [] case Some(r) => ['|', '@'] + NumText(r)
  }

  function EndText(newline: bool): string { if newline then ['\n'] else [] }

  function LineText(l: Line): string {
    l.key + [':'] + (NumText(l.num) + ['|'] + KindText(l.kind) + (RateText(l.rate) + EndText(l.newline)))
  }

  predicate IsLine(numbers: Numbers, before: char, l: Line) {
    && (forall i :: 0 <= i < |l.key| ==> l.key[i] != ':' && l.key[i] != ' ')
    && LastOfKey(before, CutKey(l.key)) != '.'
    && IsNum(l.num)
    && (l.rate.Some? ==> IsNum(l.rate.value) && 0.0 < numbers.plain(l.rate.value) <= 1.0)
  }

  function Frequency(numbers: Numbers, rate: Option<Num>): real {
    if rate.Some? && numbers.plain(rate.value) != 0.0 then 1.0 / numbers.plain(rate.value) else 1.0
  }

  function Meaning(numbers: Numbers, l: Line): Message {
    Message(CutKey(l.key), numbers.plain(l.num), !l.num.sign.NoSign?, l.kind, Frequency(numbers, l.rate))
  }

  // ----- lines that do not need strtod -----

  /** No exponent follows the number at the front. */
  predicate PlainNumber(s: string) { !StartsExponent(s[|NumText(Scan(s))|..]) }

  predicate PlainTail(s: string) { HasRate(s) ==> PlainNumber(s[2..]) }

  predicate HasKind(s: string) { s != [] && s[0] == '|' && ScanKind(s[1..]).Some? }

  /** What follows the type. */
  function AfterKind(s: string): string
    requires HasKind(s)
  {
    s[1..][|KindText(ScanKind(s[1..]).value)|..]
  }

  predicate PlainType(s: string) { HasKind(s) ==> PlainTail(AfterKind(s)) }

  predicate PlainBody(s: string) { PlainNumber(s) && PlainType(s[|NumText(Scan(s))|..]) }

  /** Neither the value nor the rate of this line is handed to strtod. */
  predicate Plain(s: string) { KeyEnd(s).Some? ==> PlainBody(s[KeyEnd(s).value + 1..]) }

  // ----- reading back a number -----

  lemma {:induction false} DigitsThen(ds: string, rest: string)
    requires AllDigits(ds) && (rest == [] || !IsDigit(rest[0]))
    ensures Digits(ds + rest) == |ds|
    decreases |ds|
  {
    if ds == [] {
      assert ds + rest == rest;
    } else {
      assert (ds + rest)[1..] == ds[1..] + rest;
      DigitsThen(ds[1..], rest);
    }
  }

  /** What may follow a number in a line. */
  predicate EndsNumber(rest: string) { rest == [] || rest[0] == '|' || rest[0] == '\n' }

  /** What cannot be part of a number's digits: the rest of a line, or an exponent. */
  predicate StopsScan(rest: string) { EndsNumber(rest) || StartsExponent(rest) }

  lemma {:induction false} ScanFracText(frac: Option<string>, rest: string)
    requires frac.Some? ==> AllDigits(frac.value)
    requires StopsScan(rest)
    ensures ScanFrac(FracText(frac) + rest) == frac
    ensures FracText(frac) + rest == [] || !IsDigit((FracText(frac) + rest)[0])
  {
    match frac
    case None => assert [] + rest == rest;
    case Some(f) =>
      assert (['.'] + f + rest)[1..] == f + rest;
      DigitsThen(f, rest);
      assert (f + rest)[..|f|] == f;
  }

  lemma {:induction false} ScanSignText(sign: Sign, s1: string)
    requires s1 == [] || (s1[0] != '-' && s1[0] != '+')
    ensures ScanSign(SignText(sign) + s1) == sign && (SignText(sign) + s1)[|SignText(sign)|..] == s1
  {
    if sign.NoSign? { assert [] + s1 == s1; }
  }

  lemma {:induction false} FirstOfMagnitude(n: Num, rest: string)
    requires IsNum(n) && StopsScan(rest)
    ensures var s1 := n.whole + (FracText(n.frac) + rest); s1 == [] || (s1[0] != '-' && s1[0] != '+')
  {
    if n.whole != [] { assert IsDigit(n.whole[0]); }
  }

  lemma {:induction false} ScanMagnitude(whole: string, tail: string)
    requires AllDigits(whole) && (tail == [] || !IsDigit(tail[0]))
    ensures var s1 := whole + tail; var n1 := Digits(s1); s1[..n1] == whole && s1[n1..] == tail
  {
    DigitsThen(whole, tail);
  }

  /** Scan, put together from its parts. */
  lemma {:induction false} ScanFrom(s: string, sign: Sign, s1: string, whole: string, tail: string,
                                    frac: Option<string>)
    requires ScanSign(s) == sign && s[|SignText(sign)|..] == s1
    requires s1[..Digits(s1)] == whole && s1[Digits(s1)..] == tail && ScanFrac(tail) == frac
    ensures Scan(s) == Num(sign, whole, frac)
  {
  }

  lemma {:induction false} Grouped(a: string, b: string, c: string, d: string)
    ensures a + b + c + d == a + (b + (c + d))
  {
  }

  /** A printed number, followed by something that cannot extend it, is scanned whole. */
  lemma {:induction false} ScanNumText(n: Num, rest: string)
    requires IsNum(n) && StopsScan(rest)
    ensures Scan(NumText(n) + rest) == n
  {
    var tail := FracText(n.frac) + rest;
    var s1 := n.whole + tail;
    ScanFracText(n.frac, rest);
    ScanMagnitude(n.whole, tail);
    FirstOfMagnitude(n, rest);
    ScanSignText(n.sign, s1);
    ScanFrom(SignText(n.sign) + s1, n.sign, s1, n.whole, tail, n.frac);
    Grouped(SignText(n.sign), n.whole, FracText(n.frac), rest);
  }

  lemma {:induction false} Dropped(a: string, b: string)
    ensures (a + b)[|a|..] == b && (a + b)[..|a|] == a
  {
  }

  lemma {:induction false} ParseFloatText(numbers: Numbers, n: Num, rest: string)
    requires IsNum(n) && EndsNumber(rest)
    ensures ParseFloat(numbers, NumText(n) + rest) == Float(numbers.plain(n), !n.sign.NoSign?, |NumText(n)|)
  {
    ScanNumText(n, rest);
    Dropped(NumText(n), rest);
  }

  // ----- every line of the grammar is read -----

  lemma {:induction false} KeyEndText(key: string, rest: string)
    requires forall i :: 0 <= i < |key| ==> key[i] != ':' && key[i] != ' '
    ensures KeyEnd(key + [':'] + rest) == Some(|key|)
    decreases |key|
  {
    var s := key + [':'] + rest;
    if key == [] {
    } else {
      assert s[1..] == key[1..] + [':'] + rest;
      KeyEndText(key[1..], rest);
    }
  }

  lemma {:induction false} ParseRateText(numbers: Numbers, r: Num, end: string)
    requires IsNum(r) && 0.0 < numbers.plain(r) <= 1.0 && AtEnd(end)
    ensures ParseTail(numbers, RateText(Some(r)) + end) == Some(1.0 / numbers.plain(r))
  {
    RateGrouped(r, end);
    Dropped(['|', '@'], NumText(r) + end);
    ParseFloatText(numbers, r, end);
    Dropped(NumText(r), end);
  }

  lemma {:induction false} ParseTailText(numbers: Numbers, rate: Option<Num>, newline: bool)
    requires rate.Some? ==> IsNum(rate.value) && 0.0 < numbers.plain(rate.value) <= 1.0
    ensures ParseTail(numbers, RateText(rate) + EndText(newline)) == Some(Frequency(numbers, rate))
  {
    match rate
    case None => assert [] + EndText(newline) == EndText(newline);
    case Some(r) => ParseRateText(numbers, r, EndText(newline));
  }

  lemma {:induction false} ScanKindText(k: Kind, rest: string)
    ensures ScanKind(KindText(k) + rest) == Some(k)
  {
  }

  lemma {:induction false} ParseTypeText(numbers: Numbers, key: string, num: Float, kind: Kind, tail: string)
    requires ParseTail(numbers, tail).Some?
    ensures ParseType(numbers, key, num, ['|'] + (KindText(kind) + tail))
         == Some(Message(key, num.value, num.relative, kind, ParseTail(numbers, tail).value))
  {
    var s := ['|'] + (KindText(kind) + tail);
    Dropped(['|'], KindText(kind) + tail);
    ScanKindText(kind, tail);
    Dropped(KindText(kind), tail);
  }

  lemma {:induction false} ParseRestText(numbers: Numbers, key: string, num: Num, after: string)
    requires IsNum(num) && EndsNumber(after)
    ensures ParseRest(numbers, key, NumText(num) + after)
         == ParseType(numbers, key, Float(numbers.plain(num), !num.sign.NoSign?, |NumText(num)|), after)
  {
    ParseFloatText(numbers, num, after);
    Dropped(NumText(num), after);
  }

  lemma {:induction false} KeyParts(key: string, body: string)
    ensures var s := key + [':'] + body; s[..|key|] == key && s[|key| + 1..] == body
  {
  }

  lemma {:induction false} ParseKeyText(rest: BodyParser, before: char, key: string, body: string)
    requires forall i :: 0 <= i < |key| ==> key[i] != ':' && key[i] != ' '
    requires LastOfKey(before, CutKey(key)) != '.'
    ensures ParseKey(rest, before, key + [':'] + body) == rest(CutKey(key), body)
  {
    KeyEndText(key, body);
    KeyParts(key, body);
  }

  /**
    Printing any valid line and parsing it gives back its key (whole below 65536 bytes, by
    KeyExact), value, type, modifier and 1/rate.
   */
  lemma {:induction false} ParseLineText(numbers: Numbers, before: char, l: Line)
    requires IsLine(numbers, before, l)
    ensures Parse(numbers, before, LineText(l)) == Some(Meaning(numbers, l))
  {
    var tail := RateText(l.rate) + EndText(l.newline);
    var after := ['|'] + (KindText(l.kind) + tail);
    var body := NumText(l.num) + after;
    ParseTailText(numbers, l.rate, l.newline);
    ParseTypeText(numbers, CutKey(l.key), Float(numbers.plain(l.num), !l.num.sign.NoSign?, |NumText(l.num)|),
                  l.kind, tail);
    ParseRestText(numbers, CutKey(l.key), l.num, after);
    ParseKeyText(Body(numbers), before, l.key, body);
    Grouped(NumText(l.num), ['|'], KindText(l.kind), tail);
  }

  // ----- every line that is read is in the grammar -----

  lemma {:induction false} Taken(a: string, s: string)
    requires a <= s
    ensures s == a + s[|a|..]
  {
  }

  /** Without an exponent, what parse_float takes is a printed number. */
  lemma {:induction false} ParseFloatIsText(numbers: Numbers, s: string) returns (n: Num, rest: string)
    requires PlainNumber(s)
    ensures n == Scan(s) && IsNum(n) && s == NumText(n) + rest
    ensures ParseFloat(numbers, s) == Float(numbers.plain(n), !n.sign.NoSign?, |NumText(n)|)
    ensures s[|NumText(n)|..] == rest
  {
    n := Scan(s);
    rest := s[|NumText(n)|..];
    Taken(NumText(n), s);
  }

  lemma {:induction false} ParseRateIsText(numbers: Numbers, s: string) returns (n: Num, newline: bool)
    requires HasRate(s) && PlainTail(s) && ParseTail(numbers, s).Some?
    ensures s == RateText(Some(n)) + EndText(newline)
    ensures IsNum(n) && 0.0 < numbers.plain(n) <= 1.0 && ParseTail(numbers, s).value == 1.0 / numbers.plain(n)
  {
    var rest;
    n, rest := ParseFloatIsText(numbers, s[2..]);
    AcceptedRate(numbers, Float(numbers.plain(n), !n.sign.NoSign?, |NumText(n)|), s[2..], rest);
    newline := rest != [];
    RateSplit(s, n, rest);
  }

  lemma {:induction false} RateSplit(s: string, n: Num, rest: string)
    requires HasRate(s) && s[2..] == NumText(n) + rest
    ensures s == RateText(Some(n)) + rest
  {
    Taken(['|', '@'], s);
    RateGrouped(n, rest);
  }

  lemma {:induction false} ParseTailIsText(numbers: Numbers, s: string) returns (rate: Option<Num>, newline: bool)
    requires PlainTail(s) && ParseTail(numbers, s).Some?
    ensures s == RateText(rate) + EndText(newline)
    ensures rate.Some? ==> IsNum(rate.value) && 0.0 < numbers.plain(rate.value) <= 1.0
    ensures ParseTail(numbers, s).value == Frequency(numbers, rate)
  {
    if HasRate(s) {
      var n;
      n, newline := ParseRateIsText(numbers, s);
      rate := Some(n);
    } else {
      rate, newline := None, s != [];
      assert [] + s == s;
    }
  }

  lemma {:induction false} RateGrouped(n: Num, rest: string)
    ensures ['|', '@'] + (NumText(n) + rest) == RateText(Some(n)) + rest
  {
  }

  lemma {:induction false} AcceptedRate(numbers: Numbers, rate: Float, s: string, rest: string)
    requires rate.used <= |s| && s[rate.used..] == rest && AcceptRate(rate, s).Some?
    ensures 0.0 < rate.value <= 1.0 && AcceptRate(rate, s).value == 1.0 / rate.value && rest == EndText(rest != [])
  {
  }

  lemma {:induction false} ParseTypeIsText(numbers: Numbers, key: string, num: Float, s: string)
    returns (kind: Kind, tail: string)
    requires PlainType(s) && ParseType(numbers, key, num, s).Some?
    ensures s == ['|'] + (KindText(kind) + tail) && PlainTail(tail) && ParseTail(numbers, tail).Some?
    ensures ParseType(numbers, key, num, s)
         == Some(Message(key, num.value, num.relative, kind, ParseTail(numbers, tail).value))
  {
    kind := ScanKind(s[1..]).value;
    tail := s[1..][|KindText(kind)|..];
    Taken(['|'], s);
    Taken(KindText(kind), s[1..]);
  }

  /** The grammar's line behind an accepted text. */
  lemma {:induction false} AcceptedBody(numbers: Numbers, key: string, body: string) returns (l: Line)
    requires PlainBody(body) && ParseRest(numbers, CutKey(key), body).Some?
    ensures l.key == key && IsNum(l.num)
    ensures l.rate.Some? ==> IsNum(l.rate.value) && 0.0 < numbers.plain(l.rate.value) <= 1.0
    ensures LineText(l) == key + [':'] + body && ParseRest(numbers, CutKey(key), body) == Some(Meaning(numbers, l))
  {
    var n, after := ParseFloatIsText(numbers, body);
    var num := Float(numbers.plain(n), !n.sign.NoSign?, |NumText(n)|);
    var kind, tail := ParseTypeIsText(numbers, CutKey(key), num, after);
    var rate, newline := ParseTailIsText(numbers, tail);
    l := Line(key, n, kind, rate, newline);
    Grouped(NumText(n), ['|'], KindText(kind), tail);
  }

  lemma {:induction false} ParseKeyIsText(rest: BodyParser, before: char, s: string) returns (key: string, body: string)
    requires ParseKey(rest, before, s).Some?
    ensures s == key + [':'] + body && ParseKey(rest, before, s) == rest(CutKey(key), body)
    ensures LastOfKey(before, CutKey(key)) != '.'
    ensures forall i :: 0 <= i < |key| ==> key[i] != ':' && key[i] != ' '
    ensures KeyEnd(s) == Some(|key|) && body == s[|key| + 1..]
  {
    var k := KeyEnd(s).value;
    key, body := s[..k], s[k + 1..];
  }

  /**
    Everything the parser accepts without strtod is a printed line that means what was
    returned; with ParseLineText, acceptance is exactly the grammar.
   */
  lemma {:induction false} AcceptedIsLine(numbers: Numbers, before: char, s: string) returns (l: Line)
    requires Parse(numbers, before, s).Some? && Plain(s)
    ensures IsLine(numbers, before, l) && s == LineText(l) && Parse(numbers, before, s) == Some(Meaning(numbers, l))
  {
    var key, body := ParseKeyIsText(Body(numbers), before, s);
    l := AcceptedBody(numbers, key, body);
  }

  lemma {:induction false} NumberIsPlain(n: Num, rest: string)
    requires IsNum(n) && EndsNumber(rest)
    ensures var s := NumText(n) + rest; PlainNumber(s) && s[|NumText(Scan(s))|..] == rest
  {
    ScanNumText(n, rest);
    Dropped(NumText(n), rest);
  }

  lemma {:induction false} TailIsPlain(rate: Option<Num>, newline: bool)
    requires rate.Some? ==> IsNum(rate.value)
    ensures PlainTail(RateText(rate) + EndText(newline))
  {
    match rate
    case None => assert [] + EndText(newline) == EndText(newline);
    case Some(r) =>
      RateGrouped(r, EndText(newline));
      Dropped(['|', '@'], NumText(r) + EndText(newline));
      NumberIsPlain(r, EndText(newline));
  }

  lemma {:induction false} TypeIsPlain(kind: Kind, tail: string)
    requires PlainTail(tail)
    ensures PlainType(['|'] + (KindText(kind) + tail))
  {
    Dropped(['|'], KindText(kind) + tail);
    ScanKindText(kind, tail);
    Dropped(KindText(kind), tail);
  }

  /** A printed line never needs strtod. */
  lemma {:induction false} LineIsPlain(numbers: Numbers, before: char, l: Line)
    requires IsLine(numbers, before, l)
    ensures Plain(LineText(l))
  {
    var tail := RateText(l.rate) + EndText(l.newline);
    var after := ['|'] + (KindText(l.kind) + tail);
    var body := NumText(l.num) + after;
    TailIsPlain(l.rate, l.newline);
    TypeIsPlain(l.kind, tail);
    NumberIsPlain(l.num, after);
    Grouped(NumText(l.num), ['|'], KindText(l.kind), tail);
    KeyEndText(l.key, body);
    KeyParts(l.key, body);
  }

  /** The grammar is exactly what is accepted without strtod. */
  lemma {:induction false} AcceptsExactlyTheGrammar(numbers: Numbers, before: char, s: string)
    ensures Parse(numbers, before, s).Some? && Plain(s) <==> exists l :: IsLine(numbers, before, l) && s == LineText(l)
  {
    if Parse(numbers, before, s).Some? && Plain(s) {
      var l := AcceptedIsLine(numbers, before, s);
    }
    forall l | IsLine(numbers, before, l) && s == LineText(l) ensures Parse(numbers, before, s).Some? && Plain(s) {
      ParseLineText(numbers, before, l);
      LineIsPlain(numbers, before, l);
    }
  }

  lemma Reciprocal(r: real)
    requires 0.0 < r <= 1.0
    ensures 1.0 / r >= 1.0
  {
  }

  lemma {:induction false} TailFrequency(numbers: Numbers, s: string)
    requires ParseTail(numbers, s).Some?
    ensures ParseTail(numbers, s).value >= 1.0
  {
    if HasRate(s) { Reciprocal(ParseFloat(numbers, s[2..]).value); }
  }

  lemma {:induction false} TypeFrequency(numbers: Numbers, key: string, num: Float, s: string)
    requires ParseType(numbers, key, num, s).Some?
    ensures ParseType(numbers, key, num, s).value.sampleFreq >= 1.0
  {
    TailFrequency(numbers, s[1..][|KindText(ScanKind(s[1..]).value)|..]);
  }

  /** The parser's sample frequencies are never below one. */
  lemma {:induction false} FrequencyAtLeastOne(numbers: Numbers, before: char, s: string)
    requires Parse(numbers, before, s).Some?
    ensures Parse(numbers, before, s).value.sampleFreq >= 1.0
  {
    var key, body := ParseKeyIsText(Body(numbers), before, s);
    var num := ParseFloat(numbers, body);
    TypeFrequency(numbers, CutKey(key), num, body[num.used..]);
  }
}
