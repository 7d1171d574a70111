/** The bank of Bloom filters of src/bloom.c: bits set in byte arrays, refining a set of positions. */
module Bloom {
  import opened Words

  /** `1 << k` for a bit of a byte. */
  function Mask(k: nat): bv8
    requires k < 8
  {
    if k == 0 then 1 else if k == 1 then 2 else if k == 2 then 4 else if k == 3 then 8
    else if k == 4 then 16 else if k == 5 then 32 else if k == 6 then 64 else 128
  }

  predicate Bit(filter: seq<bv8>, x: nat)
    requires x < 8 * |filter|
  {
    filter[x / 8] & Mask(x % 8) != 0
  }

  ghost function Members(filter: seq<bv8>): set<nat> {
    set x: nat | x < 8 * |filter| && Bit(filter, x)
  }

  /** The i-th position of a key: double hashing in 32-bit arithmetic. */
  function Position(bits: nat, a: nat, b: nat, i: nat): (x: nat)
    requires bits > 0
    ensures x < bits
  {
    (a + i * b) % UINT32 % bits
  }

  function Positions(bits: nat, hashes: nat, a: nat, b: nat): set<nat>
    requires bits > 0
  {
    set i | 0 <= i < hashes :: Position(bits, a, b, i)
  }

  lemma MaskIsShift(k: nat)
    requires k < 8
    ensures Mask(k) == (1 as bv8) << k
  {
  }

  lemma MaskOr(c: bv8, j: nat, k: nat)
    requires j < 8 && k < 8
    ensures (c | Mask(j)) & Mask(k) != 0 <==> j == k || c & Mask(k) != 0
  {
  }

  /** Setting one bit adds one member. */
  lemma SetBit(filter: seq<bv8>, x: nat)
    requires x < 8 * |filter|
    ensures Members(filter[x / 8 := filter[x / 8] | Mask(x % 8)]) == Members(filter) + {x}
  {
    var filter' := filter[x / 8 := filter[x / 8] | Mask(x % 8)];
    forall y: nat | y < 8 * |filter| ensures Bit(filter', y) <==> y == x || Bit(filter, y) {
      MaskOr(filter[x / 8], x % 8, y % 8);
      assert y / 8 == x / 8 && y % 8 == x % 8 ==> y == x;
    }
  }

  lemma NoBits(filter: seq<bv8>)
    requires forall i :: 0 <= i < |filter| ==> filter[i] == 0
    ensures Members(filter) == {}
  {
  }

  /** One round of the loop in multibloom_check: look at a bit, set it if it was clear. */
  method TestAndSet(filter: array<bv8>, x: nat) returns (hit: bool)
    requires x < 8 * filter.Length
    modifies filter
    ensures hit <==> x in old(Members(filter[..]))
    ensures Members(filter[..]) == old(Members(filter[..])) + {x}
  {
    ghost var was := filter[..];
    var byte := x / 8;
    var c := filter[byte];
    var mask := Mask(x % 8);
    assert Bit(was, x) == (c & mask != 0);
    hit := c & mask != 0;
    if !hit {
      SetBit(was, x);
      filter[byte] := c | mask;
      assert filter[..] == was[byte := c | mask];
    }
  }

  class Multibloom {
    const bits: nat
    const bytes: nat
    const hashes: nat
    const filters: seq<array<bv8>>

    ghost predicate Valid() {
      && bits >= 1
      && bytes == bits / 8 + (if bits % 8 != 0 then 1 else 0)
      && (forall f :: 0 <= f < |filters| ==> filters[f].Length == bytes)
      && (forall f, g :: 0 <= f < g < |filters| ==> filters[f] != filters[g])
    }

    ghost function Slot(f: nat): set<nat>
      requires f < |filters|
      reads filters[f]
    {
      Members(filters[f][..])
    }

    /** multibloom_new, given its sizes: all filters start empty. */
    constructor (n: nat, bits: nat, hashes: nat)
      requires bits >= 1
      ensures Valid() && |filters| == n && this.bits == bits && this.hashes == hashes
      ensures forall f :: 0 <= f < n ==> fresh(filters[f]) && Slot(f) == {}
    {
      this.bits := bits;
      this.hashes := hashes;
      var bytes := bits / 8 + (if bits % 8 != 0 then 1 else 0);
      this.bytes := bytes;
      var made: seq<array<bv8>> := [];
      for i := 0 to n
        invariant |made| == i
        invariant forall f :: 0 <= f < i ==> fresh(made[f]) && made[f].Length == bytes
        invariant forall f, g :: 0 <= f < g < i ==> made[f] != made[g]
        invariant forall f :: 0 <= f < i ==> forall k :: 0 <= k < bytes ==> made[f][k] == 0
      {
        var filter := new bv8[bytes](_ => 0);
        made := made + [filter];
      }
      filters := made;
      new;
      forall f | 0 <= f < n ensures Slot(f) == {} {
        NoBits(filters[f][..]);
      }
    }

    /**
      multibloom_check sets bits while it counts hits, yet answers about the filter as it
      was before the call, even when positions repeat; afterwards they are all set.
     */
    method Check(f: nat, a: nat, b: nat) returns (seen: bool)
      requires Valid() && f < |filters|
      modifies filters[f]
      ensures seen <==> Positions(bits, hashes, a, b) <= old(Slot(f))
      ensures Slot(f) == old(Slot(f)) + Positions(bits, hashes, a, b)
    {
      var filter := filters[f];
      ghost var before := Members(filter[..]);
      var hits := 0;
      for i := 0 to hashes
        invariant 0 <= hits <= i
        invariant hits == i <==> Positions(bits, i, a, b) <= before
        invariant Members(filter[..]) == before + Positions(bits, i, a, b)
      {
        var x := (a + i * b) % UINT32 % bits;
        MorePositions(bits, i, a, b);
        var hit := TestAndSet(filter, x);
        if hit {
          hits := hits + 1;
        }
      }
      seen := hits == hashes;
    }

    /** multibloom_reset */
    method Reset(f: nat)
      requires Valid() && f < |filters|
      modifies filters[f]
      ensures Slot(f) == {}
    {
      var filter := filters[f];
      for i := 0 to bytes
        invariant forall k :: 0 <= k < i ==> filter[k] == 0
      {
        filter[i] := 0;
      }
      NoBits(filter[..]);
    }
  }

  lemma MorePositions(bits: nat, i: nat, a: nat, b: nat)
    requires bits > 0
    ensures Positions(bits, i + 1, a, b) == Positions(bits, i, a, b) + {Position(bits, a, b, i)}
  {
  }
}
