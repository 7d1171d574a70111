/** Shifts and masks of C's unsigned integers, as arithmetic on natural numbers. */
module Bits {
  import Arith

  function Pow2(n: nat): (p: nat)
    ensures p > 0
  {
    if n == 0 then 1 else 2 * Pow2(n - 1)
  }

  /** `x & y`, bit by bit. */
  function And(x: nat, y: nat): nat {
    if x == 0 || y == 0 then 0 else 2 * And(x / 2, y / 2) + if x % 2 == 1 && y % 2 == 1 then 1 else 0
  }

  /** `x | y`, bit by bit. */
  function Or(x: nat, y: nat): nat {
    if x == 0 then y else if y == 0 then x
    else 2 * Or(x / 2, y / 2) + if x % 2 == 1 || y % 2 == 1 then 1 else 0
  }

  /** `x >> n` */
  function Shr(x: nat, n: nat): nat {
    Arith.DivMod(x, Pow2(n));
    x / Pow2(n)
  }

  /** `x << n` on 64 bits. */
  function Shl64(x: nat, n: nat): nat { x * Pow2(n) % 0x1_0000_0000_0000_0000 }

  lemma {:induction false} Pow2Add(a: nat, b: nat)
    ensures Pow2(a + b) == Pow2(a) * Pow2(b)
    decreases b
  {
    if b == 0 {
    } else {
      Pow2Add(a, b - 1);
    }
  }

  lemma {:induction false} Pow2Monotone(a: nat, b: nat)
    requires a <= b
    ensures Pow2(a) <= Pow2(b)
    decreases b
  {
    if a == b {
    } else {
      Pow2Monotone(a, b - 1);
    }
  }

  lemma Pow2Low()
    ensures Pow2(5) == 32 && Pow2(8) == 256 && Pow2(16) == 0x1_0000
    ensures Pow2(23) == 0x80_0000 && Pow2(24) == 0x100_0000
  {
    assert Pow2(3) == 8;
    assert Pow2(5) == 4 * Pow2(3);
    assert Pow2(7) == 4 * Pow2(5);
    Pow2Add(8, 8);
    Pow2Add(16, 8);
    assert Pow2(24) == 2 * Pow2(23);
  }

  lemma Pow2High()
    ensures Pow2(32) == 0x1_0000_0000 && Pow2(38) == 0x40_0000_0000
    ensures Pow2(59) == 0x800_0000_0000_0000 && Pow2(64) == 0x1_0000_0000_0000_0000
  {
    Pow2Low();
    Pow2Add(16, 16);
    assert Pow2(34) == 4 * Pow2(32);
    assert Pow2(36) == 4 * Pow2(34);
    assert Pow2(38) == 4 * Pow2(36);
    Pow2Add(32, 24);
    assert Pow2(58) == 4 * Pow2(56);
    Pow2Add(56, 8);
  }

  lemma {:induction false} AndStep(x: nat, y: nat)
    ensures And(x, y) == 2 * And(x / 2, y / 2) + if x % 2 == 1 && y % 2 == 1 then 1 else 0
  {
  }

  lemma {:induction false} OrStep(x: nat, y: nat)
    ensures Or(x, y) == 2 * Or(x / 2, y / 2) + if x % 2 == 1 || y % 2 == 1 then 1 else 0
  {
  }

  /** Masking with n ones is the remainder by 2^n. */
  lemma {:induction false} AndMask(x: nat, n: nat)
    ensures And(x, Pow2(n) - 1) == x % Pow2(n)
    decreases n
  {
    if n == 0 {
    } else {
      var p := Pow2(n - 1);
      AndMask(x / 2, n - 1);
      Arith.HalfMod(x, p);
      AndStep(x, 2 * p - 1);
      assert (2 * p - 1) / 2 == p - 1;
    }
  }

  lemma {:induction false} AndEven(x: nat, y: nat)
    ensures And(x, 2 * y) == 2 * And(x / 2, y)
  {
    AndStep(x, 2 * y);
    assert 2 * y / 2 == y && 2 * y % 2 == 0;
  }

  /** Clearing the n lowest of w bits rounds down to a multiple of 2^n. */
  lemma {:induction false} AndHigh(x: nat, n: nat, w: nat, mask: nat)
    requires n <= w && x < Pow2(w) && mask == Pow2(w) - Pow2(n)
    ensures And(x, mask) == x - x % Pow2(n)
    decreases n
  {
    if n == 0 {
      AndMask(x, w);
      Arith.ModSmall(x, Pow2(w));
    } else {
      Pow2Monotone(n - 1, w - 1);
      var half := Pow2(w - 1) - Pow2(n - 1);
      AndHigh(x / 2, n - 1, w - 1, half);
      AndEven(x, half);
      Arith.HalfMod(x, Pow2(n - 1));
    }
  }

  /** Setting bit n of a number below 2^(n+1). */
  lemma {:induction false} OrBit(x: nat, n: nat)
    requires x < 2 * Pow2(n)
    ensures Or(x, Pow2(n)) == x % Pow2(n) + Pow2(n)
    decreases n
  {
    OrStep(x, Pow2(n));
    if n == 0 {
    } else {
      OrBit(x / 2, n - 1);
      Arith.HalfMod(x, Pow2(n - 1));
    }
  }

  /** All ones of w bits, shifted right by s, are the ones of w - s bits. */
  lemma {:induction false} ShiftedOnes(w: nat, s: nat)
    requires s <= w
    ensures Shr(Pow2(w) - 1, s) == Pow2(w - s) - 1
  {
    Pow2Add(w - s, s);
    Arith.DivBelow(Pow2(s), Pow2(w - s));
  }
}
