/** Sorting, ranks and sums of recorded values: what src/histogram.c computes them for. */
module OrderStatistics {
  import opened Sums

  /** value_cmp */
  function ValueCmp(a: real, b: real): int {
    if a < b then -1 else if a > b then 1 else 0
  }

  predicate Ordered(s: seq<real>) {
    forall i, j :: 0 <= i <= j < |s| ==> s[i] <= s[j]
  }

  function Insert(x: real, s: seq<real>): seq<real> {
    if s == [] || ValueCmp(x, s[0]) <= 0 then [x] + s else [s[0]] + Insert(x, s[1..])
  }

  /** The values in ascending order. SortedIsTheOnly: any sorting algorithm returns this. */
  function Sorted(s: seq<real>): seq<real> {
    if s == [] then [] else Insert(s[0], Sorted(s[1..]))
  }

  lemma {:induction false} InsertMultiset(x: real, s: seq<real>)
    ensures multiset(Insert(x, s)) == multiset(s) + multiset{x}
  {
    if s == [] {
    } else {
      assert s == [s[0]] + s[1..];
      InsertMultiset(x, s[1..]);
    }
  }

  lemma {:induction false} OrderedPush(a: real, s: seq<real>)
    requires Ordered(s) && forall v :: v in s ==> a <= v
    ensures Ordered([a] + s)
  {
    var t := [a] + s;
    forall i, j | 0 <= i <= j < |t| ensures t[i] <= t[j] {
      if i == 0 && j > 0 { assert t[j] in s; }
    }
  }

  lemma {:induction false} SameMembers(s: seq<real>, t: seq<real>)
    requires multiset(s) == multiset(t)
    ensures |s| == |t| && forall v :: v in s <==> v in t
  {
    assert |multiset(s)| == |s| && |multiset(t)| == |t|;
    forall v ensures v in s <==> v in t { assert v in s <==> v in multiset(s); }
  }

  lemma {:induction false} InsertOrdered(x: real, s: seq<real>)
    requires Ordered(s)
    ensures Ordered(Insert(x, s))
  {
    if s == [] || x <= s[0] {
      OrderedPush(x, s);
    } else {
      var rest := Insert(x, s[1..]);
      InsertOrdered(x, s[1..]);
      InsertMultiset(x, s[1..]);
      forall v | v in rest ensures s[0] <= v {
        assert v in multiset(rest);
        assert v == x || v in multiset(s[1..]);
      }
      OrderedPush(s[0], rest);
    }
  }

  /** Sorted is an ordered permutation … */
  lemma {:induction false} SortedIsOrdered(s: seq<real>)
    ensures Ordered(Sorted(s)) && multiset(Sorted(s)) == multiset(s) && |Sorted(s)| == |s|
  {
    if s == [] {
    } else {
      SortedIsOrdered(s[1..]);
      InsertOrdered(s[0], Sorted(s[1..]));
      InsertMultiset(s[0], Sorted(s[1..]));
      assert s == [s[0]] + s[1..];
    }
    SameMembers(Sorted(s), s);
  }

  lemma {:induction false} SameHead(t: seq<real>, u: seq<real>)
    requires Ordered(t) && Ordered(u) && multiset(t) == multiset(u) && t != [] && u != []
    ensures t[0] == u[0]
  {
    SameMembers(t, u);
    assert t[0] in t && u[0] in u;
    assert t[0] in u && u[0] in t;
  }

  lemma {:induction false} TailMultiset(t: seq<real>)
    requires t != []
    ensures multiset(t[1..]) == multiset(t) - multiset{t[0]}
  {
    assert t == [t[0]] + t[1..];
  }

  lemma {:induction false} SameTail(t: seq<real>, u: seq<real>)
    requires |t| == |u| > 0 && t[0] == u[0] && t[1..] == u[1..]
    ensures t == u
  {
    assert t == [t[0]] + t[1..] && u == [u[0]] + u[1..];
  }

  /** … and the only one. */
  lemma {:induction false} OrderedUnique(t: seq<real>, u: seq<real>)
    requires Ordered(t) && Ordered(u) && multiset(t) == multiset(u)
    ensures t == u
  {
    SameMembers(t, u);
    if t == [] {
    } else {
      SameHead(t, u);
      TailMultiset(t);
      TailMultiset(u);
      OrderedUnique(t[1..], u[1..]);
      SameTail(t, u);
    }
  }

  lemma {:induction false} SortedIsTheOnly(s: seq<real>, t: seq<real>)
    ensures t == Sorted(s) <==> Ordered(t) && multiset(t) == multiset(s)
  {
    SortedIsOrdered(s);
    if Ordered(t) && multiset(t) == multiset(s) { OrderedUnique(t, Sorted(s)); }
  }

  // ----- counting -----

  function Count(s: seq<real>, p: real -> bool): (n: nat)
    ensures n <= |s|
  {
    if s == [] then 0 else (if p(s[0]) then 1 else 0) + Count(s[1..], p)
  }

  lemma {:induction false} InsertCount(x: real, s: seq<real>, p: real -> bool)
    ensures Count(Insert(x, s), p) == (if p(x) then 1 else 0) + Count(s, p)
  {
    if s == [] || x <= s[0] {
      assert ([x] + s)[1..] == s;
    } else {
      InsertCount(x, s[1..], p);
      assert ([s[0]] + Insert(x, s[1..]))[1..] == Insert(x, s[1..]);
    }
  }

  lemma {:induction false} SortedCount(s: seq<real>, p: real -> bool)
    ensures Count(Sorted(s), p) == Count(s, p)
  {
    if s == [] {
    } else {
      SortedCount(s[1..], p);
      InsertCount(s[0], Sorted(s[1..]), p);
    }
  }

  lemma {:induction false} CountFirst(s: seq<real>, p: real -> bool, n: nat)
    requires n <= |s| && forall i :: 0 <= i < n ==> p(s[i])
    ensures Count(s, p) >= n
  {
    if n == 0 {
    } else {
      CountFirst(s[1..], p, n - 1);
    }
  }

  lemma {:induction false} CountOnlyFirst(s: seq<real>, p: real -> bool, n: nat)
    requires n <= |s| && forall i :: n <= i < |s| ==> !p(s[i])
    ensures Count(s, p) <= n
  {
    if s == [] {
    } else {
      CountOnlyFirst(s[1..], p, if n > 0 then n - 1 else 0);
    }
  }

  function AtMost(v: real): real -> bool { x => x <= v }

  function Below(v: real): real -> bool { x => x < v }

  function AtLeast(v: real): real -> bool { x => x >= v }

  lemma {:induction false} CountRest(s: seq<real>, v: real)
    ensures Count(s, Below(v)) + Count(s, AtLeast(v)) == |s|
  {
    if s == [] {
    } else {
      CountRest(s[1..], v);
    }
  }

  /** `v` is the k-th smallest of `s`, counting from one and counting repetitions. */
  predicate IsKth(s: seq<real>, k: nat, v: real) {
    v in s && Count(s, Below(v)) < k <= Count(s, AtMost(v))
  }

  lemma {:induction false} SortedKth(s: seq<real>, k: nat)
    requires 1 <= k <= |s|
    ensures |Sorted(s)| == |s| && IsKth(s, k, Sorted(s)[k - 1])
  {
    var t := Sorted(s);
    SortedIsOrdered(s);
    SameMembers(t, s);
    var v := t[k - 1];
    CountFirst(t, AtMost(v), k);
    CountOnlyFirst(t, Below(v), k - 1);
    SortedCount(s, AtMost(v));
    SortedCount(s, Below(v));
  }

  lemma {:induction false} CountMonotone(s: seq<real>, p: real -> bool, q: real -> bool)
    requires forall x :: p(x) ==> q(x)
    ensures Count(s, p) <= Count(s, q)
  {
    if s == [] {
    } else {
      CountMonotone(s[1..], p, q);
    }
  }

  /** The counts settle the value. */
  lemma {:induction false} KthUnique(s: seq<real>, k: nat, v: real, w: real)
    requires IsKth(s, k, v) && IsKth(s, k, w)
    ensures v == w
  {
    if v < w { CountMonotone(s, AtMost(v), Below(w)); }
    if w < v { CountMonotone(s, AtMost(w), Below(v)); }
  }

  // ----- sums -----

  lemma {:induction false} SumPrepend(x: real, s: seq<real>)
    ensures Sum([x] + s) == x + Sum(s)
    decreases |s|
  {
    var t := [x] + s;
    if s == [] {
      assert t[..|t| - 1] == [];
    } else {
      assert t[..|t| - 1] == [x] + s[..|s| - 1];
      SumPrepend(x, s[..|s| - 1]);
    }
  }

  lemma {:induction false} InsertSum(x: real, s: seq<real>)
    ensures Sum(Insert(x, s)) == x + Sum(s)
  {
    if s == [] || x <= s[0] {
      SumPrepend(x, s);
    } else {
      InsertSum(x, s[1..]);
      SumPrepend(s[0], Insert(x, s[1..]));
      SumPrepend(s[0], s[1..]);
      assert s == [s[0]] + s[1..];
    }
  }

  /** Sorting does not change the sum. */
  lemma {:induction false} SortedSum(s: seq<real>)
    ensures Sum(Sorted(s)) == Sum(s)
  {
    if s == [] {
    } else {
      SortedSum(s[1..]);
      InsertSum(s[0], Sorted(s[1..]));
      SumPrepend(s[0], s[1..]);
      assert s == [s[0]] + s[1..];
    }
  }

  lemma MoreTimes(n: nat, v: real)
    requires n > 0
    ensures n as real * v == (n - 1) as real * v + v
  {
  }

  lemma {:induction false} SumBetween(s: seq<real>, lo: real, hi: real)
    requires forall v :: v in s ==> lo <= v <= hi
    ensures |s| as real * lo <= Sum(s) <= |s| as real * hi
    decreases |s|
  {
    if s == [] {
    } else {
      var r := s[..|s| - 1];
      assert s[|s| - 1] in s && forall v :: v in r ==> v in s;
      SumBetween(r, lo, hi);
      MoreTimes(|s|, lo);
      MoreTimes(|s|, hi);
      assert |r| as real == (|s| - 1) as real;
    }
  }

  lemma Increasing(n: real, a: real, b: real)
    requires n > 0.0 && a < b
    ensures n * a < n * b
  {
    assert n * b - n * a == n * (b - a);
  }

  lemma DivideBetween(n: real, lo: real, sum: real, hi: real)
    requires n > 0.0 && n * lo <= sum <= n * hi
    ensures lo <= sum / n <= hi
  {
    var m := sum / n;
    assert n * m == sum;
    if m < lo { Increasing(n, m, lo); }
    if m > hi { Increasing(n, hi, m); }
  }

  /** The mean lies between any bounds of the values. */
  lemma {:induction false} MeanBetween(s: seq<real>, lo: real, hi: real)
    requires s != [] && forall v :: v in s ==> lo <= v <= hi
    ensures lo <= Sum(s) / |s| as real <= hi
  {
    SumBetween(s, lo, hi);
    DivideBetween(|s| as real, lo, Sum(s), hi);
  }
}
