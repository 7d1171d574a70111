/**
  brubeck_ftoa of src/utils.c: an IEEE 754 binary32 taken apart with shifts and masks and
  printed to four decimals in 64-bit fixed point. The bit pattern is a 32-bit word.
 */
module FloatPrinting {
  import Arith
  import opened Bits
  import opened Decimal
  import opened Words

  // ----- what a binary32 means (IEEE 754-2008, section 3.4) -----

  function Exponent(x: nat): (e: nat)
    ensures e < 256
  {
    x / 0x80_0000 % 256
  }

  function Fraction(x: nat): (f: nat)
    ensures f < 0x80_0000
  {
    x % 0x80_0000
  }

  predicate Negative(x: nat) { x >= 0x8000_0000 }

  function Significand(x: nat): nat { 0x80_0000 + Fraction(x) }

  function Quotient(n: nat, d: nat): nat
    requires d > 0
  {
    Arith.DivMod(n, d);
    n / d
  }

  /** The magnitude times 10^4, rounded toward zero. */
  function Truncated(x: nat): nat {
    var e := Exponent(x);
    if e == 0 then Quotient(Fraction(x) * 10000, Pow2(149))
    else if e >= 150 then Significand(x) * Pow2(e - 150) * 10000
    else Quotient(Significand(x) * 10000, Pow2(150 - e))
  }

  // ----- how a multiple of 10^-4 is printed -----

  function Decimals(d: nat): string {
    var s := Strip(Fixed(d, 4));
    if s == [] then [] else ['.'] + s
  }

  function Unsigned4(n: nat): string { Text(n / 10000) + Decimals(n % 10000) }

  function Print4(negative: bool, n: nat): string {
    (if negative then ['-'] else []) + Unsigned4(n)
  }

  /** int_part, in 64 bits, for exponents of 23 and above. */
  function LargePart(x: nat): nat
    requires Exponent(x) >= 150
  {
    if Exponent(x) - 127 >= 64 then UINT64 - 1 else Significand(x) * Pow2(Exponent(x) - 150)
  }

  /** What ends up printed: the truncation, until the 32-bit argument of brubeck_itoa cuts it. */
  function Shown(x: nat): nat {
    if Exponent(x) - 127 < 32 then Truncated(x) else LargePart(x) % UINT32 * 10000
  }

  // ----- bit patterns -----

  lemma NestedMod(x: nat)
    ensures x % 0x100_0000 % 0x80_0000 == x % 0x80_0000
  {
    var q, r := x / 0x100_0000, x % 0x100_0000;
    Arith.DivModUnique(x, 2 * q + r / 0x80_0000, r % 0x80_0000, 0x80_0000);
  }

  /** `(x.L & 0xFFFFFF) | 0x800000`: the exponent bit that the mask lets through does no harm. */
  lemma MantissaBits(x: nat)
    ensures Or(And(x, 0xFF_FFFF), 0x80_0000) == Significand(x)
  {
    Pow2Low();
    AndMask(x, 24);
    OrBit(x % 0x100_0000, 23);
    NestedMod(x);
  }

  /** safe_mask has exactly the bits below the binary point. */
  lemma SafeMask(exp2: int)
    requires -36 <= exp2 < 23
    ensures 5 <= 64 - 24 - -(exp2 + 1) <= 63
    ensures Shr(UINT64 - 1, 64 - 24 - -(exp2 + 1)) == Pow2(23 - exp2) - 1
  {
    Pow2High();
    ShiftedOnes(64, 41 + exp2);
  }

  /** Times ten by two shifts never overflows: at most 59 bits lie below the point. */
  lemma TimesTenFits(frac: nat, shift: nat)
    requires shift <= 59 && frac < Pow2(shift)
    ensures (Shl64(frac, 3) + Shl64(frac, 1)) % UINT64 == 10 * frac
  {
    Pow2High();
    Pow2Monotone(shift, 59);
    assert Pow2(3) == 8 && Pow2(1) == 2;
    Arith.ModSmall(frac * 8, UINT64);
    Arith.ModSmall(frac * 2, UINT64);
    Arith.ModSmall(10 * frac, UINT64);
  }

  // ----- the digit loop -----

  /** One digit of the expansion of `f / p`: what comes out, and what is left. */
  lemma DigitStep(f: nat, p: nat, m: nat, d: nat, frac: nat)
    requires p > 0 && f * Pow10(m) == d * p + frac && frac < p
    ensures 10 * frac / p < 10 && 10 * frac / p >= 0
    ensures f * Pow10(m + 1) == (10 * d + 10 * frac / p) * p + 10 * frac % p
  {
    Arith.DivMod(10 * frac, p);
    var q := 10 * frac / p;
    if q >= 10 { Arith.MulMonotone(10, q, p); }
    assert f * Pow10(m + 1) == 10 * (f * Pow10(m));
    assert (10 * d + q) * p == 10 * (d * p) + q * p;
  }

  lemma DigitsDone(f: nat, p: nat, d: nat, frac: nat)
    requires p > 0 && f < p && f * 10000 == d * p + frac && frac < p
    ensures d == Quotient(f * 10000, p) && d < 10000
  {
    Arith.DivModUnique(f * 10000, d, frac, p);
    if d >= 10000 {
      Arith.MulMonotone(10000, d, p);
    }
  }

  /** The body of the digit loop in 64-bit arithmetic: times ten, integer part out, fraction kept. */
  method NextDigit(frac: nat, shift: nat, mask: nat) returns (digit: nat, rest: nat)
    requires shift <= 59 && mask == Pow2(shift) - 1 && frac < Pow2(shift)
    ensures digit == 10 * frac / Pow2(shift) && rest == 10 * frac % Pow2(shift)
  {
    TimesTenFits(frac, shift);
    var scaled := (Shl64(frac, 3) + Shl64(frac, 1)) % UINT64;
    digit := Shr(scaled, shift);
    AndMask(scaled, shift);
    rest := And(scaled, mask);
  }

  /** The loop over FLOAT_PRECISION digits; `mask` keeps the bits below the point. */
  method FourDigits(buf: array<char>, at: nat, fracPart: nat, shift: nat, mask: nat)
    requires 0 < shift <= 59 && mask == Pow2(shift) - 1 && fracPart < Pow2(shift) && at + 4 <= buf.Length
    modifies buf
    ensures buf[at..at + 4] == Fixed(Quotient(fracPart * 10000, Pow2(shift)), 4)
    ensures forall i :: 0 <= i < buf.Length && !(at <= i < at + 4) ==> buf[i] == old(buf[i])
  {
    var frac := fracPart;
    ghost var d, p := 0, Pow2(shift);
    assert buf[at..at] == [];
    for m := 0 to 4
      invariant 0 <= frac < p && 0 <= d
      invariant fracPart * Pow10(m) == d * p + frac
      invariant buf[at..at + m] == Fixed(d, m)
      invariant forall i :: 0 <= i < buf.Length && !(at <= i < at + m) ==> buf[i] == old(buf[i])
    {
      DigitStep(fracPart, p, m, d, frac);
      ghost var before := buf[at..at + m];
      var digit, rest := NextDigit(frac, shift, mask);
      Arith.DivMod(10 * frac, p);
      FixedPush(d, m, digit);
      buf[at + m] := ('0' as int + digit) as char;
      assert buf[at..at + m + 1] == before + [Digit(digit)];
      frac := rest;
      d := 10 * d + digit;
    }
    assert Pow10(4) == 10000 by { assert Pow10(2) == 100; }
    DigitsDone(fracPart, p, d, frac);
  }

  /** Trailing zeros, and a dot left bare, are taken back. */
  method Trim(buf: array<char>, at: nat, end: nat) returns (p: nat)
    requires at < end <= buf.Length && buf[at] == '.' && AllDigits(buf[at + 1..end])
    ensures at <= p <= end
    ensures var s := Strip(buf[at + 1..end]); buf[at..p] == if s == [] then [] else ['.'] + s
  {
    p := end;
    while buf[p - 1] == '0'
      invariant at < p <= end
      invariant Strip(buf[at + 1..p]) == Strip(buf[at + 1..end])
      decreases p
    {
      assert buf[at + 1..p][..|buf[at + 1..p]| - 1] == buf[at + 1..p - 1];
      p := p - 1;
    }
    assert buf[at..p] == ['.'] + buf[at + 1..p];
    assert forall i :: at < i < p ==> buf[i] == buf[at + 1..end][i - at - 1];
    if buf[p - 1] == '.' {
      p := p - 1;
    }
  }

  // ----- the whole conversion -----

  /** Scaling by 10^4 and dividing, taken apart into integer and fraction. */
  lemma ScaledSplit(m: nat, p: nat)
    requires p > 0
    ensures 0 <= m % p && Quotient(m * 10000, p) / 10000 == Quotient(m, p)
    ensures Quotient(m * 10000, p) % 10000 == Quotient(m % p * 10000, p)
  {
    Arith.DivMod(m, p);
    var q, r := m / p, m % p;
    Arith.DivMod(r * 10000, p);
    var d, rest := r * 10000 / p, r * 10000 % p;
    DigitsDone(r, p, d, rest);
    assert (q * 10000 + d) * p == q * p * 10000 + d * p;
    Arith.DivModUnique(m * 10000, q * 10000 + d, rest, p);
    Arith.DivModUnique(q * 10000 + d, q, d, 10000);
  }

  /** With the point inside or left of the significand: integer and fraction, split at the point. */
  lemma SplitAtPoint(x: nat)
    requires 91 <= Exponent(x) < 150
    ensures var p := Pow2(150 - Exponent(x)); var m := Significand(x);
            && Truncated(x) / 10000 == Quotient(m, p) && Quotient(m, p) < 0x80_0000
            && Truncated(x) % 10000 == Quotient(m % p * 10000, p)
            && (Exponent(x) < 127 ==> m < p)
  {
    var p, m := Pow2(150 - Exponent(x)), Significand(x);
    ScaledSplit(m, p);
    Pow2Low();
    Pow2Monotone(1, 150 - Exponent(x));
    Arith.DivMod(m, p);
    if m / p >= 0x80_0000 { Arith.MulMonotone(0x80_0000, m / p, p); }
    if Exponent(x) < 127 { Pow2Monotone(24, 150 - Exponent(x)); }
  }

  /** Below the cutoff exponent the truncation is zero, subnormals included. */
  lemma BelowCutoff(x: nat)
    requires Exponent(x) < 91
    ensures Truncated(x) == 0
  {
    Pow2Low();
    Pow2High();
    if Exponent(x) == 0 {
      Pow2Monotone(38, 149);
      Arith.ModSmall(Fraction(x) * 10000, Pow2(149));
    } else {
      Pow2Monotone(38, 150 - Exponent(x));
      Arith.ModSmall(Significand(x) * 10000, Pow2(150 - Exponent(x)));
    }
  }

  /** From exponent 23 up there is no fraction, and 64 bits hold the integer. */
  lemma AbovePoint(x: nat)
    requires 150 <= Exponent(x) < 191
    ensures Shl64(Significand(x), Exponent(x) - 150) == LargePart(x) == Significand(x) * Pow2(Exponent(x) - 150)
    ensures 0 < LargePart(x) && (Exponent(x) < 159 <==> LargePart(x) < UINT32)
  {
    var n, m := Exponent(x) - 150, Significand(x);
    Pow2Low();
    Pow2High();
    Pow2Monotone(n, 40);
    Pow2Add(24, 40);
    Arith.MulMonotone(m, 0x100_0000 - 1, Pow2(n));
    Arith.MulMonotone(1, m, Pow2(n));
    assert (0x100_0000 - 1) * Pow2(n) < Pow2(24) * Pow2(40);
    Arith.ModSmall(m * Pow2(n), UINT64);
    if n < 9 {
      Pow2Monotone(n, 8);
    } else {
      Pow2Monotone(9, n);
      assert Pow2(9) == 512 by { assert Pow2(9) == 2 * Pow2(8); }
      Arith.MulMonotone(0x80_0000, m, Pow2(n));
    }
  }

  /** The integer part is what the branches of brubeck_ftoa leave in int_part, cut to 32 bits. */
  lemma ShownParts(x: nat)
    requires Exponent(x) >= 150
    ensures Shown(x) / 10000 == LargePart(x) % UINT32 && Shown(x) % 10000 == 0
    ensures LargePart(x) > 0
  {
    Arith.DivMod(LargePart(x), UINT32);
    if Exponent(x) < 191 { AbovePoint(x); }
    if Exponent(x) < 159 { Arith.ModSmall(LargePart(x), UINT32); }
  }

  lemma {:induction false} FixedZero(k: nat)
    ensures Fixed(0, k) == seq(k, _ => '0') && Strip(Fixed(0, k)) == []
  {
    if k == 0 {
    } else {
      FixedZero(k - 1);
      assert Fixed(0, k)[..k - 1] == Fixed(0, k - 1);
    }
  }

  lemma NoDecimals()
    ensures Decimals(0) == []
  {
    FixedZero(4);
  }

  /** `if (int_part == 0)` prints a zero of its own; otherwise brubeck_itoa, on 32 bits. */
  method PutInteger(buf: array<char>, at: nat, intPart: nat) returns (p: nat)
    requires at + |Text(intPart % UINT32)| <= buf.Length
    modifies buf
    ensures p == at + |Text(intPart % UINT32)| <= at + 10
    ensures buf[at..p] == Text(intPart % UINT32)
    ensures forall i :: 0 <= i < at ==> buf[i] == old(buf[i])
  {
    if intPart == 0 {
      buf[at] := '0';
      p := at + 1;
    } else {
      var size := Itoa(buf, at, intPart % UINT32);
      p := at + size;
    }
  }

  /** Dot, digits, and the clean-up after them. */
  method PutFraction(buf: array<char>, at: nat, fracPart: nat, shift: nat, mask: nat) returns (p: nat)
    requires 0 < shift <= 59 && mask == Pow2(shift) - 1 && fracPart < Pow2(shift)
    requires fracPart != 0 ==> at + 5 <= buf.Length
    requires at <= buf.Length
    modifies buf
    ensures at <= p <= at + 5 && p <= buf.Length
    ensures buf[at..p] == Decimals(Quotient(fracPart * 10000, Pow2(shift)))
    ensures forall i :: 0 <= i < at ==> buf[i] == old(buf[i])
  {
    p := at;
    if fracPart != 0 {
      buf[at] := '.';
      FourDigits(buf, at + 1, fracPart, shift, mask);
      assert buf[at + 1..at + 5] == buf[at + 1..at + 1 + 4];
      p := Trim(buf, at, at + 5);
    } else {
      NoDecimals();
      Arith.ModSmall(0, Pow2(shift));
    }
  }

  /**
    brubeck_ftoa, for every bit pattern: sign, integer, decimals and the NUL, in at most
    fourteen bytes. `Shown` says what number that is.
   */
  method Ftoa(buf: array<char>, x: nat) returns (len: nat)
    requires x < UINT32 && buf.Length >= 14
    modifies buf
    ensures len <= 13 && buf[..len] == Print4(Negative(x), Shown(x)) && buf[len] == '\0'
  {
    var p := PutSign(buf, x);
    ghost var sign := buf[..p];
    p := PutMagnitude(buf, p, x);
    Joined(buf, |sign|, p, sign, Unsigned4(Shown(x)));
    buf[p] := '\0';
    len := p;
  }

  method PutSign(buf: array<char>, x: nat) returns (p: nat)
    requires buf.Length > 0
    modifies buf
    ensures p <= 1 && buf[..p] == if Negative(x) then ['-'] else []
  {
    p := 0;
    if x >= 0x8000_0000 {
      buf[p] := '-';
      p := p + 1;
    }
  }

  lemma {:induction false} Joined(buf: array<char>, mid: nat, end: nat, a: string, b: string)
    requires mid <= end <= buf.Length && buf[..mid] == a && buf[mid..end] == b
    ensures buf[..end] == a + b
  {
  }

  /** Everything after the sign. */
  method PutMagnitude(buf: array<char>, at: nat, x: nat) returns (p: nat)
    requires x < UINT32 && at + 12 < buf.Length
    modifies buf
    ensures at <= p <= at + 12 && buf[at..p] == Unsigned4(Shown(x))
    ensures buf[..at] == old(buf[..at])
  {
    var exp2 := x / 0x80_0000 % 256 - 127;
    var mantissa := Or(And(x, 0xFF_FFFF), 0x80_0000);
    MantissaBits(x);
    if exp2 < -36 {
      p := PutSmall(buf, at, x);
    } else if exp2 < 23 {
      p := PutPointed(buf, at, x, exp2, mantissa);
    } else {
      p := PutLarge(buf, at, x, exp2, mantissa);
    }
  }

  method PutSmall(buf: array<char>, at: nat, x: nat) returns (p: nat)
    requires Exponent(x) < 91 && at < buf.Length
    modifies buf
    ensures p == at + 1 && buf[at..p] == Unsigned4(Shown(x))
    ensures forall i :: 0 <= i < at ==> buf[i] == old(buf[i])
  {
    BelowCutoff(x);
    NoDecimals();
    buf[at] := '0';
    p := at + 1;
    assert Text(0) + [] == "0";
  }

  /** int_part, frac_part and safe_mask in the branches with exp2 below 23. */
  method Parts(exp2: int, mantissa: nat) returns (intPart: nat, fracPart: nat, safeMask: nat)
    requires -36 <= exp2 < 23 && mantissa < 0x100_0000
    ensures intPart == Quotient(mantissa, Pow2(23 - exp2))
    ensures fracPart == mantissa % Pow2(23 - exp2) < Pow2(23 - exp2) && safeMask == Pow2(23 - exp2) - 1
  {
    SafeMask(exp2);
    var safeShift := -(exp2 + 1);
    safeMask := Shr(UINT64 - 1, 64 - 24 - safeShift);
    Arith.DivMod(mantissa, Pow2(23 - exp2));
    if exp2 >= 0 {
      intPart := Shr(mantissa, 23 - exp2);
      AndMask(mantissa, 23 - exp2);
      fracPart := And(mantissa, safeMask);
    } else {
      Pow2Low();
      Pow2Monotone(24, 23 - exp2);
      AndMask(mantissa, 24);
      Arith.ModSmall(mantissa, 0x100_0000);
      Arith.ModSmall(mantissa, Pow2(23 - exp2));
      intPart := 0;
      fracPart := And(mantissa, 0xFF_FFFF);
    }
  }

  method PutParts(buf: array<char>, at: nat, intPart: nat, fracPart: nat, shift: nat, mask: nat) returns (p: nat)
    requires intPart < 0x80_0000 && 0 < shift <= 59 && mask == Pow2(shift) - 1 && fracPart < Pow2(shift)
    requires at + 12 < buf.Length
    modifies buf
    ensures at <= p <= at + 12 && buf[at..p] == Text(intPart) + Decimals(Quotient(fracPart * 10000, Pow2(shift)))
    ensures forall i :: 0 <= i < at ==> buf[i] == old(buf[i])
  {
    ShortInteger(intPart);
    p := PutInteger(buf, at, intPart);
    ghost var mid := p;
    p := PutFraction(buf, p, fracPart, shift, mask);
    assert buf[at..p] == buf[at..mid] + buf[mid..p];
  }

  lemma PointedText(x: nat)
    requires 91 <= Exponent(x) < 150
    ensures var p := Pow2(150 - Exponent(x)); var m := Significand(x);
            && 0 <= m % p && Quotient(m, p) < 0x80_0000
            && Unsigned4(Shown(x)) == Text(Quotient(m, p)) + Decimals(Quotient(m % p * 10000, p))
  {
    SplitAtPoint(x);
  }

  method PutPointed(buf: array<char>, at: nat, x: nat, exp2: int, mantissa: nat) returns (p: nat)
    requires exp2 == Exponent(x) - 127 && -36 <= exp2 < 23 && mantissa == Significand(x) && at + 12 < buf.Length
    modifies buf
    ensures at <= p <= at + 12 && buf[at..p] == Unsigned4(Shown(x))
    ensures forall i :: 0 <= i < at ==> buf[i] == old(buf[i])
  {
    PointedText(x);
    var intPart, fracPart, safeMask := Parts(exp2, mantissa);
    p := PutParts(buf, at, intPart, fracPart, 24 + -(exp2 + 1), safeMask);
  }

  lemma ShortInteger(n: nat)
    requires n < 0x80_0000
    ensures |Text(n)| <= 7 && n % UINT32 == n
  {
    assert Pow10(7) == 10000000 by { assert Pow10(3) == 1000; assert Pow10(5) == 100 * Pow10(3); }
    TextLength(n, 7);
  }

  /** The branches with exp2 of 23 and above: no fraction. */
  method PutLarge(buf: array<char>, at: nat, x: nat, exp2: int, mantissa: nat) returns (p: nat)
    requires exp2 == Exponent(x) - 127 && exp2 >= 23 && mantissa == Significand(x) && at + 12 < buf.Length
    modifies buf
    ensures at <= p <= at + 12 && buf[at..p] == Unsigned4(Shown(x))
    ensures forall i :: 0 <= i < at ==> buf[i] == old(buf[i])
  {
    ShownParts(x);
    NoDecimals();
    var intPart;
    if exp2 >= 64 {
      intPart := UINT64 - 1;
    } else {
      AbovePoint(x);
      intPart := Shl64(mantissa, exp2 - 23);
    }
    WordText(intPart % UINT32);
    p := PutInteger(buf, at, intPart);
    assert Text(intPart % UINT32) + [] == Text(intPart % UINT32);
  }

  lemma WordText(n: nat)
    requires n < UINT32
    ensures |Text(n)| <= 10
  {
    assert Pow10(10) == 10000000000 by { assert Pow10(5) == 100000; assert Pow10(10) == 100000 * Pow10(5); }
    TextLength(n, 10);
  }

  // ----- exactly when the printed number is the truncation -----

  /**
    For every finite binary32: what is printed is the truncation to four decimals if and
    only if the magnitude is below 2^32, the width of brubeck_itoa's argument.
   */
  lemma ShownIsTruncatedExactlyBelow32Bits(x: nat)
    requires x < UINT32 && Exponent(x) < 255
    ensures Shown(x) == Truncated(x) <==> Exponent(x) < 127 + 32
  {
    if Exponent(x) >= 159 {
      var n, m := Exponent(x) - 150, Significand(x);
      Pow2Monotone(9, n);
      Pow2Low();
      assert Pow2(9) == 2 * Pow2(8);
      Arith.MulMonotone(0x80_0000, m, Pow2(n));
      Arith.DivMod(LargePart(x), UINT32);
      assert m * Pow2(n) >= UINT32;
    }
  }
}
