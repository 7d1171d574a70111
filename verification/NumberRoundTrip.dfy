/** Numbers printed by src/utils.c, read back by parse_float of src/samplers/statsd.c. */
module NumberRoundTrip {
  import opened Decimal
  import FloatMeaning
  import opened FloatPrinting
  import opened StatsdGrammar
  import opened Words
  import opened Wrappers

  /** The number that Print4 writes, in the parser's terms. */
  function Printed(negative: bool, n: nat): Num {
    var frac := Strip(Fixed(n % 10000, 4));
    Num(if negative then Minus else NoSign, Text(n / 10000), if frac == [] then None else Some(frac))
  }

  lemma {:induction false} PrintedText(negative: bool, n: nat)
    ensures IsNum(Printed(negative, n)) && NumText(Printed(negative, n)) == Print4(negative, n)
  {
    StripDigits(Fixed(n % 10000, 4));
  }

  /** No leading zero but a lone one, at most four decimals, none trailing, no bare dot. */
  lemma {:induction false} CanonicalForm(negative: bool, n: nat)
    ensures var p := Printed(negative, n);
            && (p.whole[0] == '0' ==> p.whole == "0")
            && (p.frac.Some? ==> 1 <= |p.frac.value| <= 4 && p.frac.value[|p.frac.value| - 1] != '0')
  {
    TextLeads(n / 10000);
  }

  lemma {:induction false} Pow10Add(a: nat, b: nat)
    ensures Pow10(a + b) == Pow10(a) * Pow10(b)
    decreases b
  {
    if b == 0 {
    } else {
      Pow10Add(a, b - 1);
      Decimal.TimesTen(Pow10(a), Pow10(b - 1));
    }
  }

  lemma SameFraction(v: real, k: real, rest: real, d: real)
    requires k > 0.0 && rest > 0.0 && k * rest == 10000.0 && v * rest == d
    ensures v / k == d / 10000.0
  {
    assert v / k * k == v;
    assert v / k * (k * rest) == d;
  }

  lemma {:induction false} SameFractionInt(v: nat, k: nat, rest: nat, d: nat)
    requires k > 0 && rest > 0 && k * rest == 10000 && v * rest == d
    ensures v as real / k as real == d as real / 10000.0
  {
    assert k as real * rest as real == (k * rest) as real;
    assert v as real * rest as real == (v * rest) as real;
    SameFraction(v as real, k as real, rest as real, d as real);
  }

  /** Four fixed digits, trailing zeros dropped, still denote d / 10^4. */
  lemma {:induction false} StrippedFraction(d: nat)
    requires d < 10000
    ensures var s := Strip(Fixed(d, 4));
            AllDigits(s) && FracValue(if s == [] then None else Some(s)) == d as real / 10000.0
  {
    var f := Fixed(d, 4);
    var s := Strip(f);
    assert Pow10(2) == 100 && Pow10(4) == 100 * Pow10(2);
    ValueOfFixed(d, 4);
    StripDigits(f);
    Pow10Add(|s|, 4 - |s|);
    SameFractionInt(Value(s), Pow10(|s|), Pow10(4 - |s|), d);
    ScaledIsQuotient(Value(s) as real, |s|);
    if s == [] { assert Value(s) == 0; }
  }

  function Signed4(negative: bool, n: nat): real {
    if negative then -(n as real / 10000.0) else n as real / 10000.0
  }

  lemma WholeAndFraction(n: nat)
    ensures (n / 10000) as real + (n % 10000) as real / 10000.0 == n as real / 10000.0
  {
    var q, r := n / 10000, n % 10000;
    assert n as real == 10000.0 * q as real + r as real;
  }

  /** What Print4 writes denotes n / 10^4. */
  lemma {:induction false} PrintedValue(negative: bool, n: nat)
    ensures IsNum(Printed(negative, n)) && NumValue(Printed(negative, n)) == Signed4(negative, n)
  {
    PrintedText(negative, n);
    ValueOfText(n / 10000);
    StrippedFraction(n % 10000);
    WholeAndFraction(n);
  }

  /** parse_float reads a printed number whole and returns its value, whatever may follow in a line. */
  lemma {:induction false} PrintThenParse(numbers: Numbers, negative: bool, n: nat, rest: string)
    requires numbers.plain == PlainValue && EndsNumber(rest)
    ensures ParseFloat(numbers, Print4(negative, n) + rest)
         == Float(Signed4(negative, n), negative, |Print4(negative, n)|)
  {
    PrintedText(negative, n);
    PrintedValue(negative, n);
    ParseFloatText(numbers, Printed(negative, n), rest);
  }

  /**
    brubeck_ftoa then parse_float: for every binary32 of magnitude below 2^32 the value
    read is its truncation toward zero to four decimals.
   */
  lemma {:induction false} FtoaReadsBack(numbers: Numbers, x: nat, rest: string)
    requires numbers.plain == PlainValue && EndsNumber(rest) && x < UINT32 && Exponent(x) < 127 + 32
    ensures ParseFloat(numbers, Print4(Negative(x), Shown(x)) + rest).value == Signed4(Negative(x), Truncated(x))
    ensures ParseFloat(numbers, Print4(Negative(x), Shown(x)) + rest).used == |Print4(Negative(x), Shown(x))|
  {
    ShownIsTruncatedExactlyBelow32Bits(x);
    PrintThenParse(numbers, Negative(x), Shown(x), rest);
  }

  /** brubeck_itoa then parse_float. */
  lemma {:induction false} ItoaReadsBack(numbers: Numbers, n: nat, rest: string)
    requires numbers.plain == PlainValue && EndsNumber(rest)
    ensures ParseFloat(numbers, Text(n) + rest) == Float(n as real, false, |Text(n)|)
  {
    var num := Num(NoSign, Text(n), None);
    assert NumText(num) == Text(n);
    ValueOfText(n);
    ParseFloatText(numbers, num, rest);
  }

  /** What parse_float makes of a text that stands alone. */
  function ReadAlone(s: string): Float { ParseFloat(Numbers(PlainValue, _ => 0.0, _ => 0), s) }

  lemma {:induction false} PrintThenReadAlone(negative: bool, n: nat)
    ensures ReadAlone(Print4(negative, n)) == Float(Signed4(negative, n), negative, |Print4(negative, n)|)
  {
    PrintThenParse(Numbers(PlainValue, _ => 0.0, _ => 0), negative, n, []);
    assert Print4(negative, n) + [] == Print4(negative, n);
  }

  lemma {:induction false} Signed4Injective(negative: bool, n: nat, m: nat)
    requires Signed4(negative, n) == Signed4(negative, m)
    ensures n == m
  {
    assert n as real == m as real;
  }

  /** Different numbers print differently: nothing is lost after the truncation. */
  lemma {:induction false} Print4Injective(a: bool, n: nat, b: bool, m: nat)
    requires Print4(a, n) == Print4(b, m)
    ensures a == b && n == m
  {
    PrintThenReadAlone(a, n);
    PrintThenReadAlone(b, m);
    Signed4Injective(a, n, m);
  }

  /** Exactly the values that print as "-0". */
  lemma {:induction false} PrintsMinusZero(x: nat)
    ensures Print4(Negative(x), Shown(x)) == "-0" <==> Negative(x) && FloatMeaning.ShowsZero(x)
  {
    NoDecimals();
    assert Print4(true, 0) == "-0";
    FloatMeaning.ShownZero(x);
    if Print4(Negative(x), Shown(x)) == "-0" { Print4Injective(Negative(x), Shown(x), true, 0); }
  }

  /** -4294967296 is one of them, far from zero as it is. */
  lemma {:induction false} LargeMinusZero()
    ensures var x := FloatMeaning.MINUS_2_TO_32;
            FloatMeaning.Magnitude(x) == 4294967296.0 && Print4(Negative(x), Shown(x)) == "-0"
  {
    FloatMeaning.LargeShowsZero();
    PrintsMinusZero(FloatMeaning.MINUS_2_TO_32);
  }
}
