/** The positions that double hashing gives a token in src/bloom.c, and what they tell apart. */
module BloomPositions {
  import Arith
  import opened Bloom
  import opened ReplayWindow
  import opened StatsdSecure
  import opened Words

  /** Double hashing in 32 bits: the first word is the first hash, and every round adds the second. */
  function HashWord(a: nat, b: nat, i: nat): (w: nat)
    ensures w < UINT32
  {
    if i == 0 then a % UINT32 else (HashWord(a, b, i - 1) + b) % UINT32
  }

  lemma {:induction false} AddedWord(x: nat, b: nat)
    ensures (x % UINT32 + b) % UINT32 == (x + b) % UINT32
  {
    Arith.AddMods(x, b, UINT32);
    Arith.AddMods(x % UINT32, b, UINT32);
    Arith.DivMod(x, UINT32);
    Arith.ModSmall(x % UINT32, UINT32);
  }

  lemma {:induction false} WordIsSum(a: nat, b: nat, i: nat)
    ensures HashWord(a, b, i) == (a + i * b) % UINT32
  {
    if i == 0 {
    } else {
      WordIsSum(a, b, i - 1);
      assert a + (i - 1) * b + b == a + i * b;
      AddedWord(a + (i - 1) * b, b);
    }
  }

  /** Each position is the word of its round, modulo the number of bits. */
  lemma {:induction false} PositionIsWord(bits: nat, a: nat, b: nat, i: nat)
    requires bits > 0
    ensures Position(bits, a, b, i) == HashWord(a, b, i) % bits
  {
    WordIsSum(a, b, i);
  }

  /** The first position is that of the first hash alone. */
  lemma {:induction false} FirstPosition(bits: nat, a: nat, b: nat)
    requires bits > 0 && a < UINT32
    ensures Position(bits, a, b, 0) == a % bits
  {
    PositionIsWord(bits, a, b, 0);
    Arith.ModSmall(a, UINT32);
  }

  lemma {:induction false} UnwrappedWord(a: nat, b: nat, i: nat)
    requires a + i * b < UINT32
    ensures HashWord(a, b, i) == a + i * b
  {
    WordIsSum(a, b, i);
    Arith.MulMonotone(0, i, b);
    Arith.ModSmall(a + i * b, UINT32);
  }

  /** Numbers less than `d` apart have different remainders. */
  lemma {:induction false} CloseApart(x: nat, y: nat, d: nat)
    requires x < y < x + d
    ensures x % d != y % d
  {
    Arith.DivMod(x, d);
    Arith.DivMod(y, d);
    assert (x / d + 1) * d == (x / d) * d + d;
    if y / d <= x / d {
      Arith.MulMonotone(y / d, x / d, d);
    } else {
      Arith.MulMonotone(x / d + 1, y / d, d);
    }
  }

  lemma {:induction false} NewPosition(bits: nat, a: nat, b: nat, i: nat, j: nat)
    requires 0 < b && i < j && a + j * b < UINT32 && j * b < bits
    ensures Position(bits, a, b, i) != Position(bits, a, b, j)
  {
    Arith.MulMonotone(0, i, b);
    Arith.MulMonotone(i + 1, j, b);
    assert (i + 1) * b == i * b + b;
    UnwrappedWord(a, b, i);
    UnwrappedWord(a, b, j);
    PositionIsWord(bits, a, b, i);
    PositionIsWord(bits, a, b, j);
    CloseApart(a + i * b, a + j * b, bits);
  }

  /** While neither the sums nor the steps wrap, every round has a position of its own. */
  lemma {:induction false} AllDifferent(bits: nat, hashes: nat, a: nat, b: nat)
    requires bits > 0 && 0 < b && (hashes > 0 ==> a + (hashes - 1) * b < UINT32 && (hashes - 1) * b < bits)
    ensures |Positions(bits, hashes, a, b)| == hashes
  {
    if hashes == 0 {
      assert Positions(bits, hashes, a, b) == {};
    } else {
      var n := hashes - 1;
      if n > 0 { Arith.MulMonotone(n - 1, n, b); }
      AllDifferent(bits, n, a, b);
      MorePositions(bits, n, a, b);
      forall i | 0 <= i < n ensures Position(bits, a, b, i) != Position(bits, a, b, n) {
        NewPosition(bits, a, b, i, n);
      }
      assert Position(bits, a, b, n) !in Positions(bits, n, a, b);
    }
  }

  lemma {:induction false} SameSumSameRest(a: nat, b: nat, b': nat, d: nat)
    requires d > 0 && (a + b) % d == (a + b') % d
    ensures b % d == b' % d
  {
    Arith.DivMod(a + b, d);
    Arith.DivMod(a + b', d);
    Arith.DivMod(b', d);
    var q := (a + b) / d - (a + b') / d + b' / d;
    assert q * d == ((a + b) / d) * d - ((a + b') / d) * d + (b' / d) * d;
    Arith.DivModUnique(b, q, b' % d, d);
  }

  /** Tokens with the same first hash and second hashes that differ modulo the bits differ in their second position. */
  lemma {:induction false} SecondPositionDiffers(bits: nat, hashes: nat, token: Token, token': Token)
    requires bits > 0 && hashes >= 2 && token.ha == token'.ha && token.hb % bits != token'.hb % bits
    requires token.ha + token.hb < UINT32 && token'.ha + token'.hb < UINT32
    ensures var x, x' := Position(bits, token.ha, token.hb, 1), Position(bits, token'.ha, token'.hb, 1);
            x != x' && x in HasherOf(bits, hashes)(token) && x' in HasherOf(bits, hashes)(token')
  {
    UnwrappedWord(token.ha, token.hb, 1);
    UnwrappedWord(token'.ha, token'.hb, 1);
    PositionIsWord(bits, token.ha, token.hb, 1);
    PositionIsWord(bits, token'.ha, token'.hb, 1);
    if Position(bits, token.ha, token.hb, 1) == Position(bits, token'.ha, token'.hb, 1) {
      SameSumSameRest(token.ha, token.hb, token'.hb, bits);
    }
  }

  lemma {:induction false} TwoPositions(bits: nat, a: nat, b: nat)
    requires a + b < bits && bits < UINT32
    ensures Positions(bits, 2, a, b) == {a, a + b}
  {
    FirstPosition(bits, a, b);
    UnwrappedWord(a, b, 1);
    PositionIsWord(bits, a, b, 1);
    Arith.ModSmall(a, bits);
    Arith.ModSmall(a + b, bits);
    MorePositions(bits, 1, a, b);
    MorePositions(bits, 0, a, b);
    assert Positions(bits, 0, a, b) == {};
  }

  /** Two tokens of one second that share a first hash are both let in: the second hash tells them apart. */
  lemma {:induction false} NeighboursAccepted()
    ensures var calls := [Call(10, Token(1, 2, 10)), Call(10, Token(1, 3, 10))];
            && VerdictAt(HasherOf(1000, 2), 4, calls, 0) == Accepted
            && VerdictAt(HasherOf(1000, 2), 4, calls, 1) == Accepted
  {
    var pos := HasherOf(1000, 2);
    var calls := [Call(10, Token(1, 2, 10)), Call(10, Token(1, 3, 10))];
    TwoPositions(1000, 1, 2);
    TwoPositions(1000, 1, 3);
    assert pos(calls[0].token) == {1, 3} && pos(calls[1].token) == {1, 4};
    AcceptedExactlyWhen(pos, 4, calls, 0);
    assert Unclaimed(pos, 4, calls, 0, 1);
    AcceptedExactlyWhen(pos, 4, calls, 1);
    assert Unclaimed(pos, 4, calls, 1, 4);
  }
}
