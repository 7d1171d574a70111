/** The bump allocator of src/slab.c. */
module Slab {
  import Arith
  import opened Bits
  import opened Words

  const SLAB_SIZE := 32
  const SLABS_PER_NODE := 128
  const NODE_SIZE := SLAB_SIZE * (SLABS_PER_NODE - 1)
  const NODE_BYTES := SLAB_SIZE * SLABS_PER_NODE
  const HEADER := 16
  const SIZE_T := UINT64

  /** `(need + SLAB_SIZE - 1) & ~(SLAB_SIZE - 1)`, in 64 bits. */
  function Round(need: nat): nat { And((need + SLAB_SIZE - 1) % SIZE_T, SIZE_T - SLAB_SIZE) }

  lemma {:induction false} RoundDown(x: nat)
    requires x < SIZE_T
    ensures And(x, SIZE_T - SLAB_SIZE) == x - x % 32
  {
    Pow2Low();
    Pow2High();
    AndHigh(x, 5, 64, SIZE_T - SLAB_SIZE);
  }

  lemma {:induction false} LeastMultiple(need: nat, m: nat)
    ensures var up := need + 31 - (need + 31) % 32;
            up % 32 == 0 && need <= up < need + 32 && (m % 32 == 0 && need <= m ==> up <= m)
  {
  }

  /** The mask rounds up to the least multiple of 32 not below `need`. */
  lemma {:induction false} RoundIsLeastMultiple(need: nat, m: nat)
    requires need + 31 < SIZE_T
    ensures Round(need) % 32 == 0 && need <= Round(need) < need + 32
    ensures m % 32 == 0 && need <= m ==> Round(need) <= m
  {
    Arith.ModSmall(need + 31, SIZE_T);
    RoundDown(need + 31);
    LeastMultiple(need, m);
  }

  /** A request is served from one node exactly when it asks for at most NODE_SIZE bytes. */
  lemma {:induction false} RoundFits(need: nat)
    requires need + 31 < SIZE_T
    ensures Round(need) <= NODE_SIZE <==> need <= NODE_SIZE
  {
    RoundIsLeastMultiple(need, NODE_SIZE);
  }

  /** The largest need whose sums stay within size_t; no object is larger. */
  const MAX_NEED := 0x8000_0000_0000_0000 - SLAB_SIZE

  lemma {:induction false} RoundBound(need: nat)
    requires need <= MAX_NEED
    ensures need <= Round(need) <= MAX_NEED && Round(need) < need + SLAB_SIZE && Round(need) % SLAB_SIZE == 0
    ensures need > NODE_SIZE ==> Round(need) >= NODE_BYTES
  {
    RoundIsLeastMultiple(need, MAX_NEED);
  }

  /** A returned pointer: `node->heap + offset`, and how much of the heap it stands for. */
  datatype Block = Block(node: nat, offset: nat, size: nat)

  /** `allocs[k]` is the `alloc` of the k-th node made; the last is the current one. */
  datatype Heap = Heap(allocs: seq<nat>, total: nat)

  predicate Made(h: Heap) { h.allocs != [] }

  function Current(h: Heap): nat
    requires Made(h)
  {
    h.allocs[|h.allocs| - 1]
  }

  predicate NeedsNode(h: Heap, size: nat)
    requires Made(h)
  {
    (Current(h) + size) % SIZE_T > NODE_SIZE
  }

  function WithRoom(h: Heap, size: nat): (r: Heap)
    requires Made(h)
    ensures Made(r)
  {
    if NeedsNode(h, size) then h.(allocs := h.allocs + [0]) else h
  }

  /** Taking `size` bytes off the current node. */
  function Take(h: Heap, size: nat): (r: (Heap, Block))
    requires Made(h)
    ensures Made(r.0)
  {
    var k := |h.allocs| - 1;
    (Heap(h.allocs[k := (h.allocs[k] + size) % SIZE_T], (h.total + size) % SIZE_T), Block(k, h.allocs[k], size))
  }

  /** brubeck_slab_alloc */
  function Alloc(h: Heap, need: nat): (r: (Heap, Block))
    requires Made(h)
    ensures Made(r.0)
  {
    Take(WithRoom(h, Round(need)), Round(need))
  }

  /** The allocator as src/slab.c updates it. */
  class Allocator {
    var allocs: seq<nat>
    var total: nat

    ghost predicate Valid()
      reads this
    {
      allocs != []
    }

    ghost function State(): (h: Heap)
      reads this
    {
      Heap(allocs, total)
    }

    /** brubeck_slab_init on zeroed memory. */
    constructor ()
      ensures Valid() && State() == Heap([0], 0)
    {
      allocs, total := [], 0;
      new;
      PushNode();
    }

    method PushNode()
      modifies this
      ensures Valid() && allocs == old(allocs) + [0] && total == old(total)
    {
      allocs := allocs + [0];
    }

    method Allocate(need: nat) returns (block: Block)
      requires Valid() && need < SIZE_T
      modifies this
      ensures Valid() && (State(), block) == Alloc(old(State()), need)
    {
      var size := Round(need);
      if (allocs[|allocs| - 1] + size) % SIZE_T > NODE_SIZE {
        PushNode();
      }
      total := (total + size) % SIZE_T;
      var k := |allocs| - 1;
      block := Block(k, allocs[k], size);
      allocs := allocs[k := (allocs[k] + size) % SIZE_T];
    }
  }

  // ----- what holds after any sequence of allocations -----

  function Sum(s: seq<nat>): nat {
    if s == [] then 0 else Sum(s[..|s| - 1]) + s[|s| - 1]
  }

  /**
    The block lies below what its node has given out, at a multiple of 32; and within
    NODE_SIZE if it is not larger than that itself.
   */
  predicate Inside(h: Heap, b: Block) {
    && b.node < |h.allocs|
    && b.offset % SLAB_SIZE == 0
    && b.offset + b.size <= h.allocs[b.node]
    && (b.size <= NODE_SIZE ==> b.offset + b.size <= NODE_SIZE)
  }

  predicate Disjoint(a: Block, b: Block) {
    a.node != b.node || a.offset + a.size <= b.offset || b.offset + b.size <= a.offset
  }

  predicate Inv(h: Heap, blocks: seq<Block>) {
    && Made(h) && NodesOk(h.allocs)
    && h.total == Sum(h.allocs) % SIZE_T
    && (forall i :: 0 <= i < |blocks| ==> Inside(h, blocks[i]))
    && (forall i, j :: 0 <= i < j < |blocks| ==> Disjoint(blocks[i], blocks[j]))
  }

  /** Whole slabs per node, and no two neighbours that would have fitted in one node. */
  predicate NodesOk(allocs: seq<nat>) {
    && (forall k :: 0 <= k < |allocs| ==> allocs[k] <= MAX_NEED && allocs[k] % SLAB_SIZE == 0)
    && (forall k :: 0 < k < |allocs| ==> allocs[k - 1] + allocs[k] > NODE_SIZE)
  }

  /** Serving needs, one after the other. */
  function Run(needs: seq<nat>): (r: (Heap, seq<Block>))
    ensures Made(r.0) && |r.1| == |needs|
  {
    if needs == [] then (Heap([0], 0), [])
    else
      var before := Run(needs[..|needs| - 1]);
      var step := Alloc(before.0, needs[|needs| - 1]);
      (step.0, before.1 + [step.1])
  }

  lemma {:induction false} SumPush(s: seq<nat>, x: nat)
    ensures Sum(s + [x]) == Sum(s) + x
  {
    assert (s + [x])[..|s|] == s;
  }

  lemma {:induction false} SumLast(s: seq<nat>, x: nat)
    requires s != []
    ensures Sum(s[|s| - 1 := x]) == Sum(s) - s[|s| - 1] + x
  {
    assert s[|s| - 1 := x][..|s| - 1] == s[..|s| - 1];
  }

  /** The node list after one allocation, in terms of the one before. */
  function NextAllocs(allocs: seq<nat>, size: nat): seq<nat>
    requires allocs != []
  {
    var k := |allocs| - 1;
    if allocs[k] + size > NODE_SIZE then allocs + [size] else allocs[k := allocs[k] + size]
  }

  lemma {:induction false} AllocParts(h: Heap, need: nat)
    requires Made(h) && NodesOk(h.allocs) && need <= MAX_NEED
    ensures var size := Round(need); var (h', b) := Alloc(h, need);
            && size <= MAX_NEED && size % SLAB_SIZE == 0
            && h'.allocs == NextAllocs(h.allocs, size) && h'.total == (h.total + size) % SIZE_T
            && b == Block(|h'.allocs| - 1, h'.allocs[|h'.allocs| - 1] - size, size)
  {
    var size := Round(need);
    RoundBound(need);
    Arith.ModSmall(Current(h) + size, SIZE_T);
    Arith.ModSmall(size, SIZE_T);
  }

  lemma {:induction false} MultiplesAdd(a: nat, b: nat)
    requires a % 32 == 0 && b % 32 == 0
    ensures (a + b) % 32 == 0
  {
    Arith.DivModUnique(a + b, a / 32 + b / 32, 0, 32);
  }

  lemma {:induction false} NextNodesOk(allocs: seq<nat>, size: nat)
    requires allocs != [] && NodesOk(allocs) && size <= MAX_NEED && size % SLAB_SIZE == 0
    ensures NodesOk(NextAllocs(allocs, size))
  {
    MultiplesAdd(allocs[|allocs| - 1], size);
  }

  lemma {:induction false} NextSum(allocs: seq<nat>, size: nat)
    requires allocs != []
    ensures Sum(NextAllocs(allocs, size)) == Sum(allocs) + size
  {
    SumPush(allocs, size);
    SumLast(allocs, allocs[|allocs| - 1] + size);
  }

  lemma {:induction false} NextNodes(allocs: seq<nat>, size: nat)
    requires allocs != [] && NodesOk(allocs) && size <= MAX_NEED && size % SLAB_SIZE == 0
    ensures NodesOk(NextAllocs(allocs, size)) && Sum(NextAllocs(allocs, size)) == Sum(allocs) + size
    ensures forall k :: 0 <= k < |allocs| ==> allocs[k] <= NextAllocs(allocs, size)[k]
    ensures |NextAllocs(allocs, size)| > |allocs| ==> NextAllocs(allocs, size)[|allocs|] == size
  {
    NextNodesOk(allocs, size);
    NextSum(allocs, size);
  }

  lemma {:induction false} TotalNext(total: nat, sum: nat, size: nat)
    requires total == sum % SIZE_T && size <= MAX_NEED
    ensures (total + size) % SIZE_T == (sum + size) % SIZE_T
  {
    Arith.AddMods(sum, size, SIZE_T);
    Arith.ModSmall(size, SIZE_T);
  }

  /** Older blocks stay in their nodes. */
  lemma {:induction false} StillInside(h: Heap, h': Heap, b: Block)
    requires Inside(h, b) && |h.allocs| <= |h'.allocs| && b.node < |h.allocs|
    requires h.allocs[b.node] <= h'.allocs[b.node]
    ensures Inside(h', b)
  {
  }

  /** The new block starts where its node had got to, or at the front of a new node. */
  lemma {:induction false} NewBlock(h: Heap, need: nat, a: Block)
    requires Made(h) && NodesOk(h.allocs) && need <= MAX_NEED
    ensures var (h', b) := Alloc(h, need); Inside(h', b) && (Inside(h, a) ==> Disjoint(a, b))
  {
    AllocParts(h, need);
    NextNodes(h.allocs, Round(need));
  }

  lemma {:induction false} AllocInv(h: Heap, blocks: seq<Block>, need: nat)
    requires Inv(h, blocks) && need <= MAX_NEED
    ensures var (h', b) := Alloc(h, need); Inv(h', blocks + [b])
  {
    var (h', b) := Alloc(h, need);
    var size := Round(need);
    AllocParts(h, need);
    NextNodes(h.allocs, size);
    TotalNext(h.total, Sum(h.allocs), size);
    var all := blocks + [b];
    forall i | 0 <= i < |all| ensures Inside(h', all[i]) {
      if i < |blocks| { StillInside(h, h', blocks[i]); } else { NewBlock(h, need, b); }
    }
    forall i, j | 0 <= i < j < |all| ensures Disjoint(all[i], all[j]) {
      if j == |blocks| { NewBlock(h, need, blocks[i]); }
    }
  }

  predicate Sane(needs: seq<nat>) {
    forall i :: 0 <= i < |needs| ==> needs[i] <= MAX_NEED
  }

  /**
    For every sequence of needs: the blocks are pairwise disjoint, lie below what their
    nodes have given out at multiples of 32, and total_alloc is the sum over the nodes.
   */
  lemma {:induction false} RunInv(needs: seq<nat>)
    requires Sane(needs)
    ensures Inv(Run(needs).0, Run(needs).1)
    decreases |needs|
  {
    if needs == [] {
    } else {
      var before := needs[..|needs| - 1];
      RunInv(before);
      AllocInv(Run(before).0, Run(before).1, needs[|needs| - 1]);
    }
  }

  lemma {:induction false} RunSizes(needs: seq<nat>)
    ensures forall i :: 0 <= i < |needs| ==> Run(needs).1[i].size == Round(needs[i])
    decreases |needs|
  {
    if needs == [] {
    } else {
      RunSizes(needs[..|needs| - 1]);
    }
  }

  function Rounded(needs: seq<nat>): seq<nat> {
    if needs == [] then [] else Rounded(needs[..|needs| - 1]) + [Round(needs[|needs| - 1])]
  }

  /** What the nodes have given out is what was asked for, rounded. */
  lemma {:induction false} RunTotal(needs: seq<nat>)
    requires Sane(needs)
    ensures Sum(Run(needs).0.allocs) == Sum(Rounded(needs)) && Run(needs).0.total == Sum(Rounded(needs)) % SIZE_T
    decreases |needs|
  {
    RunInv(needs);
    if needs == [] {
      SumPush([], 0);
      assert [] + [0] == [0];
    } else {
      var before, need := needs[..|needs| - 1], needs[|needs| - 1];
      RunTotal(before);
      RunInv(before);
      AllocParts(Run(before).0, need);
      NextNodes(Run(before).0.allocs, Round(need));
      SumPush(Rounded(before), Round(need));
    }
  }

  predicate InPage(b: Block) { HEADER + b.offset + b.size <= NODE_BYTES }

  /** A need above NODE_SIZE is served past the end of its page, from whatever state. */
  lemma {:induction false} OversizeOverruns(h: Heap, need: nat)
    requires Made(h) && NODE_SIZE < need <= MAX_NEED
    ensures !InPage(Alloc(h, need).1)
  {
    RoundBound(need);
  }

  /**
    In every run, every caller gets at least what it asked for; and it lies in the page
    allocated for its node if and only if it asked for at most NODE_SIZE.
   */
  lemma {:induction false} InPageExactlyWhen(needs: seq<nat>, i: nat)
    requires i < |needs| && Sane(needs)
    ensures var b := Run(needs).1[i];
            needs[i] <= b.size < needs[i] + 32 && (16 + b.offset + b.size <= 4096 <==> needs[i] <= 4064)
  {
    RunInv(needs);
    RunSizes(needs);
    RoundBound(needs[i]);
    RoundFits(needs[i]);
    assert Inside(Run(needs).0, Run(needs).1[i]);
  }

  // ----- how much is wasted -----

  lemma {:induction false} PairsFill(allocs: seq<nat>)
    requires allocs != [] && NodesOk(allocs)
    ensures 2 * Sum(allocs) >= (|allocs| - 1) * NODE_SIZE + allocs[|allocs| - 1]
    decreases |allocs|
  {
    if |allocs| <= 1 {
    } else {
      PairsFill(allocs[..|allocs| - 1]);
    }
  }

  /**
    How little is wasted: NODE_SIZE for every node but one, and what the last node has given
    out, come to at most twice what all nodes, the last included, have given out.
   */
  lemma {:induction false} NeighboursFill(needs: seq<nat>)
    requires Sane(needs)
    ensures var h := Run(needs).0;
            (|h.allocs| - 1) * NODE_SIZE + Current(h) <= 2 * Sum(h.allocs)
  {
    RunInv(needs);
    PairsFill(Run(needs).0.allocs);
  }
}
