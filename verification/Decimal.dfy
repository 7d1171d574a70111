/** Decimal text: what digits mean, and how numbers are written. */
module Decimal {
  import Arith
  import opened Words

  function Digit(d: nat): char
    requires d < 10
  {
    ('0' as int + d) as char
  }

  predicate IsDigit(c: char) { '0' <= c <= '9' }

  function DigitValue(c: char): (d: nat)
    requires IsDigit(c)
    ensures d < 10
  {
    c as int - '0' as int
  }

  predicate AllDigits(s: string) {
    forall i :: 0 <= i < |s| ==> IsDigit(s[i])
  }

  /** The number a digit string denotes. */
  function Value(s: string): nat
    requires AllDigits(s)
  {
    if s == [] then 0 else 10 * Value(s[..|s| - 1]) + DigitValue(s[|s| - 1])
  }

  function Pow10(n: nat): (p: nat)
    ensures p > 0
  {
    if n == 0 then 1 else 10 * Pow10(n - 1)
  }

  /** The shortest digit string of a number. */
  function Text(n: nat): (s: string)
    ensures s != [] && AllDigits(s)
  {
    if n < 10 then [Digit(n)] else Text(n / 10) + [Digit(n % 10)]
  }

  /** The lowest k digits of a number, zeros included. */
  function Fixed(n: nat, k: nat): (s: string)
    ensures |s| == k && AllDigits(s)
  {
    if k == 0 then [] else Fixed(n / 10, k - 1) + [Digit(n % 10)]
  }

  function Strip(s: string): (r: string)
    ensures r <= s
    ensures r != [] ==> r[|r| - 1] != '0'
  {
    if s != [] && s[|s| - 1] == '0' then Strip(s[..|s| - 1]) else s
  }

  lemma ValuePush(s: string, d: nat)
    requires AllDigits(s) && d < 10
    ensures AllDigits(s + [Digit(d)]) && Value(s + [Digit(d)]) == 10 * Value(s) + d
  {
    assert (s + [Digit(d)])[..|s|] == s;
  }

  /** Reading back what was written. */
  lemma {:induction false} ValueOfText(n: nat)
    ensures Value(Text(n)) == n
  {
    if n < 10 {
      ValuePush([], n);
      assert [] + [Digit(n)] == [Digit(n)];
    } else {
      ValueOfText(n / 10);
      ValuePush(Text(n / 10), n % 10);
    }
  }

  /** No leading zero, except for zero itself. */
  lemma {:induction false} TextLeads(n: nat)
    ensures Text(n)[0] == '0' <==> n == 0
  {
    if n < 10 {
    } else {
      TextLeads(n / 10);
    }
  }

  lemma {:induction false} TextLength(n: nat, k: nat)
    requires k > 0 && n < Pow10(k)
    ensures |Text(n)| <= k
    decreases k
  {
    if n < 10 {
    } else {
      assert k > 1;
      TextLength(n / 10, k - 1);
    }
  }

  lemma {:induction false} ValueOfFixed(n: nat, k: nat)
    requires n < Pow10(k)
    ensures Value(Fixed(n, k)) == n
    decreases k
  {
    if k == 0 {
    } else {
      ValueOfFixed(n / 10, k - 1);
      ValuePush(Fixed(n / 10, k - 1), n % 10);
    }
  }

  /** One more digit at the end. */
  lemma FixedPush(n: nat, k: nat, d: nat)
    requires d < 10
    ensures Fixed(10 * n + d, k + 1) == Fixed(n, k) + [Digit(d)]
  {
  }

  lemma TimesTen(v: nat, p: nat)
    ensures 10 * (v * p) == v * (10 * p)
  {
  }

  lemma {:induction false} StripDigits(s: string)
    requires AllDigits(s)
    ensures AllDigits(Strip(s)) && Value(s) == Value(Strip(s)) * Pow10(|s| - |Strip(s)|)
    decreases |s|
  {
    if s == [] || s[|s| - 1] != '0' {
    } else {
      var r := s[..|s| - 1];
      StripDigits(r);
      TimesTen(Value(Strip(r)), Pow10(|r| - |Strip(r)|));
    }
  }

  // ----- brubeck_itoa -----

  function Reversed(s: string): (r: string)
    ensures |r| == |s| && forall i :: 0 <= i < |s| ==> r[i] == s[|s| - 1 - i]
  {
    seq(|s|, i requires 0 <= i < |s| => s[|s| - 1 - i])
  }

  /** The reversal loop of brubeck_itoa, in place between two indices. */
  method ReverseRange(buf: array<char>, lo: nat, hi: nat)
    requires lo <= hi <= buf.Length
    modifies buf
    ensures buf[lo..hi] == Reversed(old(buf[lo..hi]))
    ensures forall i :: 0 <= i < buf.Length && !(lo <= i < hi) ==> buf[i] == old(buf[i])
  {
    ghost var was, mirror := buf[..], lo + hi - 1;
    var origin, ptr := lo, hi - 1;
    while origin < ptr
      invariant lo <= origin <= ptr + 2 && ptr == mirror - origin
      invariant forall i :: origin <= i <= ptr ==> buf[i] == was[i]
      invariant forall i :: 0 <= i < buf.Length && !(lo <= i < hi) ==> buf[i] == was[i]
      invariant forall i :: lo <= i < hi && !(origin <= i <= ptr) ==> buf[i] == was[mirror - i]
    {
      var t := buf[ptr];
      buf[ptr] := buf[origin];
      buf[origin] := t;
      origin := origin + 1;
      ptr := ptr - 1;
    }
    ReversedRange(was, buf[..], lo, hi);
    assert buf[..][lo..hi] == buf[lo..hi] && was[lo..hi] == old(buf[lo..hi]);
  }

  lemma ReversedRange(was: string, after: string, lo: nat, hi: nat)
    requires |was| == |after| && lo <= hi <= |was|
    requires forall i :: lo <= i < hi ==> after[i] == was[lo + hi - 1 - i]
    ensures after[lo..hi] == Reversed(was[lo..hi])
  {
  }

  /** brubeck_itoa: digits least significant first, then reversed in place. */
  method Itoa(buf: array<char>, at: nat, number: nat) returns (size: nat)
    requires number < UINT32 && at + |Text(number)| <= buf.Length
    modifies buf
    ensures size == |Text(number)| <= 10
    ensures buf[at..at + size] == Text(number)
    ensures forall i :: 0 <= i < buf.Length && !(at <= i < at + size) ==> buf[i] == old(buf[i])
  {
    var ptr, n, more := at, number, true;
    while more
      invariant at <= ptr <= at + |Text(number)|
      invariant more ==> Text(number) == Text(n) + Reversed(buf[at..ptr])
      invariant !more ==> Text(number) == Reversed(buf[at..ptr])
      invariant forall i :: 0 <= i < buf.Length && !(at <= i < ptr) ==> buf[i] == old(buf[i])
      decreases more, n
    {
      ghost var done := buf[at..ptr];
      buf[ptr] := ('0' as int + n % 10) as char;
      ptr := ptr + 1;
      assert buf[at..ptr] == done + [Digit(n % 10)];
      ReversedPush(done, Digit(n % 10));
      ghost var before := n;
      n := n / 10;
      more := n != 0;
      assert Text(before) == (if more then Text(n) else []) + [Digit(before % 10)];
    }
    size := ptr - at;
    ReverseRange(buf, at, ptr);
    TextLength(number, 10) by { assert Pow10(5) == 100000; assert Pow10(10) == 100000 * Pow10(5); }
  }

  lemma ReversedPush(s: string, c: char)
    ensures Reversed(s + [c]) == [c] + Reversed(s)
  {
  }
}
