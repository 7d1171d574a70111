/** The value of a binary32 and its truncation, against the integers that src/utils.c works with. */
module FloatMeaning {
  import Arith
  import opened Bits
  import opened FloatPrinting
  import opened Words

  /** The magnitude itself. */
  function Magnitude(x: nat): real {
    var e := Exponent(x);
    if e == 0 then Fraction(x) as real / Pow2(149) as real
    else if e >= 150 then (Significand(x) * Pow2(e - 150)) as real
    else Significand(x) as real / Pow2(150 - e) as real
  }

  lemma FloorBetween(v: real, q: int)
    requires q as real <= v < (q + 1) as real
    ensures v.Floor == q
  {
  }

  lemma {:induction false} ProductOfReals(a: int, b: int)
    ensures (a * b) as real == a as real * b as real
  {
  }

  lemma ScaleOrder(a: real, b: real, d: real)
    requires a <= b && d > 0.0
    ensures a * d <= b * d && (a < b ==> a * d < b * d)
  {
    assert b * d - a * d == (b - a) * d;
  }

  lemma DividedBounds(n: real, d: real, q: real)
    requires d > 0.0 && q * d <= n < (q + 1.0) * d
    ensures q <= n / d < q + 1.0
  {
    var v := n / d;
    assert v * d == n;
    if v < q { ScaleOrder(v, q, d); }
    if v >= q + 1.0 { ScaleOrder(q + 1.0, v, d); }
  }

  lemma {:induction false} FloorQuotient(n: nat, d: nat)
    requires d > 0
    ensures (n as real / d as real).Floor == Quotient(n, d)
  {
    Arith.DivMod(n, d);
    var q := n / d;
    ProductOfReals(q, d);
    ProductOfReals(q + 1, d);
    assert (q + 1) * d == q * d + d;
    DividedBounds(n as real, d as real, q as real);
    FloorBetween(n as real / d as real, q);
  }

  lemma ScaleQuotient(m: real, d: real)
    requires d > 0.0
    ensures m / d * 10000.0 == m * 10000.0 / d
  {
    assert m / d * 10000.0 * d == m / d * d * 10000.0;
  }

  /** Truncated is what IEEE 754 means by it: the value times 10^4, rounded down. */
  lemma {:induction false} TruncatedIsFloor(x: nat)
    ensures Truncated(x) == (Magnitude(x) * 10000.0).Floor
  {
    var e := Exponent(x);
    if e >= 150 {
      ProductOfReals(Significand(x) * Pow2(e - 150), 10000);
      FloorBetween(Magnitude(x) * 10000.0, Truncated(x));
    } else {
      var m, d := if e == 0 then Fraction(x) else Significand(x), if e == 0 then Pow2(149) else Pow2(150 - e);
      ScaleQuotient(m as real, d as real);
      FloorQuotient(m * 10000, d);
    }
  }

  /** What shows as zero: magnitudes below 10^-4, and multiples of 2^32 that the 32-bit argument cuts to nothing. */
  predicate ShowsZero(x: nat) {
    if Exponent(x) < 127 + 32 then Magnitude(x) * 10000.0 < 1.0
    else Exponent(x) < 127 + 64 && (Significand(x) * Pow2(Exponent(x) - 150)) % UINT32 == 0
  }

  lemma {:induction false} MagnitudePositive(x: nat)
    ensures Magnitude(x) * 10000.0 >= 0.0
  {
    var e := Exponent(x);
    if e == 0 {
      QuotientPositive(Fraction(x) as real, Pow2(149) as real);
    } else if e >= 150 {
      Arith.MulMonotone(0, Significand(x), Pow2(e - 150));
    } else {
      QuotientPositive(Significand(x) as real, Pow2(150 - e) as real);
    }
  }

  lemma QuotientPositive(a: real, b: real)
    requires a >= 0.0 && b > 0.0
    ensures a / b >= 0.0
  {
  }

  lemma {:induction false} ShownZero(x: nat)
    ensures Shown(x) == 0 <==> ShowsZero(x)
  {
    if Exponent(x) < 127 + 32 {
      TruncatedIsFloor(x);
      MagnitudePositive(x);
    }
  }

  /** The bit pattern of -2^32. */
  const MINUS_2_TO_32 := 0xCF80_0000

  lemma {:induction false} MinusTwoTo32Parts()
    ensures Exponent(MINUS_2_TO_32) == 159 && Significand(MINUS_2_TO_32) == 0x80_0000 && Pow2(9) == 512
  {
    Pow2Low();
    assert Pow2(9) == 2 * Pow2(8);
  }

  lemma {:induction false} LargeShowsZero()
    ensures Magnitude(MINUS_2_TO_32) == 4294967296.0 && Negative(MINUS_2_TO_32) && ShowsZero(MINUS_2_TO_32)
  {
    MinusTwoTo32Parts();
  }

  /** From 2^32 on, the low 32 bits of the integer are shown; from 2^64 on, infinities included, 32 ones. */
  lemma {:induction false} ShownAbove(x: nat)
    requires Exponent(x) >= 127 + 32
    ensures Exponent(x) < 127 + 64 ==> Shown(x) == Magnitude(x).Floor % UINT32 * 10000
    ensures Exponent(x) >= 127 + 64 ==> Shown(x) == 4294967295 * 10000
  {
    if Exponent(x) < 127 + 64 {
      FloorBetween(Magnitude(x), Significand(x) * Pow2(Exponent(x) - 150));
    } else {
      Arith.DivModUnique(UINT64 - 1, 4294967295, 4294967295, UINT32);
    }
  }
}
