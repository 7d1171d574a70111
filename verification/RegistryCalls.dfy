/**
  What a single call does: where a key's metric goes, and what brubeck_metric_find and
  brubeck_metric_new come to when no other thread takes a step in between.
 */
module RegistryCalls {
  import Arith
  import opened Registry
  import opened RegistrySafety
  import opened RegistryRuns
  import opened Words
  import opened Wrappers

  // ----- shards -----

  lemma {:induction false} Congruent(n: nat, b: nat, d: nat)
    requires b < d
    ensures n % d == b <==> (n - b) % d == 0
  {
    Arith.DivMod(n, d);
    Arith.DivMod(n - b, d);
    if n % d == b {
      Arith.DivModUnique(n - b, n / d, 0, d);
    }
    if (n - b) % d == 0 {
      Arith.DivModUnique(n, (n - b) / d, b, d);
    }
  }

  /** A key belongs to the backend whose number is congruent to its hash. */
  lemma {:induction false} ShardExactlyWhen(hash: Key -> nat, backends: nat, key: Key, b: nat)
    requires b < backends
    ensures Shard(hash, backends, key) == b <==> (hash(key) - b) % backends == 0
  {
    Congruent(hash(key), b, backends);
    if backends == 1 { Arith.DivModUnique(hash(key), hash(key), 0, 1); }
  }

  lemma {:induction false} CongruentTo(m: nat, n: nat, d: nat)
    requires d > 0
    ensures m % d == n % d <==> (m - n) % d == 0
  {
    Arith.DivMod(m, d);
    Arith.DivMod(n, d);
    Arith.DivMod(m - n, d);
    if m % d == n % d {
      assert (m / d - n / d) * d == (m / d) * d - (n / d) * d;
      Arith.DivModUnique(m - n, m / d - n / d, 0, d);
    }
    if (m - n) % d == 0 {
      var q := (m - n) / d;
      assert (q + n / d) * d == q * d + (n / d) * d;
      Arith.DivModUnique(m, q + n / d, n % d, d);
    }
  }

  /** Two keys share a backend exactly when their hashes are congruent. */
  lemma {:induction false} SameShardExactlyWhen(hash: Key -> nat, backends: nat, k: Key, k': Key)
    requires backends > 0
    ensures Shard(hash, backends, k) == Shard(hash, backends, k') <==> (hash(k) - hash(k')) % backends == 0
  {
    CongruentTo(hash(k), hash(k'), backends);
    if backends == 1 { Arith.DivModUnique(hash(k) - hash(k'), hash(k) - hash(k'), 0, 1); }
  }

  /** A backend's list is exactly the pushed metrics whose hash is congruent to the backend's number. */
  lemma {:induction false} ListIsCongruent(hash: Key -> nat, states: seq<State>, actions: seq<Action>,
                                           i: nat, b: nat, list: seq<Id>, m: Id)
    requires IsRun(hash, states, actions) && i < |states| && Shape(states[i]) && b < |states[i].heads|
    requires IsChain(states[i].heap, states[i].heads[b], list)
    ensures var s := states[i];
            m in list <==>
              && m in s.heap && Get(s.table, s.heap[m].key) == Some(m)
              && (hash(s.heap[m].key) - b) % |s.heads| == 0 && !BeingPushed(s, m)
  {
    ListIsShard(hash, states, actions, i, b, list);
    if m in states[i].heap { ShardExactlyWhen(hash, |states[i].heads|, states[i].heap[m].key, b); }
  }

  // ----- a call that runs alone -----

  /** Thread t takes these steps one after the other, and no one else takes any. */
  function Solo(hash: Key -> nat, s: State, steps: seq<Action>): Option<State>
    decreases |steps|
  {
    if steps == [] then Some(s)
    else if !Shape(s) || !Enabled(s, steps[0]) then None
    else Solo(hash, Next(hash, s, steps[0]), steps[1..])
  }

  lemma {:induction false} SoloStep(hash: Key -> nat, s: State, a: Action, rest: seq<Action>)
    requires Shape(s) && Enabled(s, a)
    ensures Solo(hash, s, [a] + rest) == Solo(hash, Next(hash, s, a), rest)
  {
    assert ([a] + rest)[1..] == rest;
  }

  lemma {:induction false} SoloTwo(hash: Key -> nat, s: State, a: Action, b: Action)
    requires Shape(s) && Enabled(s, a) && Enabled(Next(hash, s, a), b)
    ensures Solo(hash, s, [a, b]) == Some(Next(hash, Next(hash, s, a), b))
  {
    assert [a, b] == [a] + [b] && [b] == [b] + [];
    SoloStep(hash, s, a, [b]);
    SoloStep(hash, Next(hash, s, a), b, []);
  }

  predicate IsIdle(s: State, t: nat) { Shape(s) && t < |s.pcs| && s.pcs[t].Idle? }

  /** brubeck_metric_new goes straight to the allocation. */
  lemma {:induction false} NewStarts(hash: Key -> nat, s: State, t: nat, key: Key)
    requires IsIdle(s, t)
    ensures Next(hash, s, CallNew(t, key)) == s.(pcs := s.pcs[t := Allocate(key)])
  {
  }

  /** A key that is in the table: its metric, and nothing else happens. */
  lemma {:induction false} FindPresent(hash: Key -> nat, s: State, t: nat, key: Key, atCapacity: bool)
    requires IsIdle(s, t) && key in s.table
    ensures Solo(hash, s, [Call(t, key), DoLookup(t, atCapacity)])
         == Some(s.(pcs := s.pcs[t := Returned(key, Some(s.table[key]))]))
  {
    SoloTwo(hash, s, Call(t, key), DoLookup(t, atCapacity));
    assert s.pcs[t := Lookup(key)][t := Returned(key, Some(s.table[key]))]
        == s.pcs[t := Returned(key, Some(s.table[key]))];
  }

  /** A missing key at capacity: NULL, and nothing else happens. */
  lemma {:induction false} FindAtCapacity(hash: Key -> nat, s: State, t: nat, key: Key)
    requires IsIdle(s, t) && key !in s.table
    ensures Solo(hash, s, [Call(t, key), DoLookup(t, true)]) == Some(s.(pcs := s.pcs[t := Returned(key, None)]))
  {
    SoloTwo(hash, s, Call(t, key), DoLookup(t, true));
    assert s.pcs[t := Lookup(key)][t := Returned(key, None)] == s.pcs[t := Returned(key, None)];
  }

  /** A missing key below capacity: on to the allocation. */
  lemma {:induction false} FindMissing(hash: Key -> nat, s: State, t: nat, key: Key)
    requires IsIdle(s, t) && key !in s.table
    ensures Solo(hash, s, [Call(t, key), DoLookup(t, false)]) == Some(s.(pcs := s.pcs[t := Allocate(key)]))
  {
    SoloTwo(hash, s, Call(t, key), DoLookup(t, false));
    assert s.pcs[t := Lookup(key)][t := Allocate(key)] == s.pcs[t := Allocate(key)];
  }

  /** brubeck_metric_new as one atomic step: in the table, in front of its shard's list, counted and returned. */
  function Created(s: State, t: nat, key: Key, m: Id, b: nat): State
    requires Shape(s) && t < |s.pcs| && b < |s.heads|
  {
    State(s.heap[m := Metric(key, s.heads[b])], s.table[key := m], s.heads[b := Some(m)],
          s.pcs[t := Returned(key, Some(m))], s.walkers, (s.uniqueKeys + 1) % UINT32)
  }

  function CreateSteps(t: nat, m: Id): seq<Action> {
    [DoAllocate(t, m), DoInsert(t), DoLoadHead(t), DoStoreNext(t), DoSwap(t), DoCount(t)]
  }

  lemma {:induction false} SoloAppend(hash: Key -> nat, s: State, steps: seq<Action>, mid: State, rest: seq<Action>)
    requires Solo(hash, s, steps) == Some(mid)
    ensures Solo(hash, s, steps + rest) == Solo(hash, mid, rest)
    decreases |steps|
  {
    if steps == [] {
      assert steps + rest == rest;
    } else {
      assert (steps + rest)[1..] == steps[1..] + rest;
      SoloAppend(hash, Next(hash, s, steps[0]), steps[1..], mid, rest);
    }
  }

  /** Allocation and insertion of an absent key. */
  lemma {:induction false} SoloInsert(hash: Key -> nat, s: State, t: nat, key: Key, m: Id)
    requires Shape(s) && t < |s.pcs| && s.pcs[t] == Allocate(key) && key !in s.table && m !in s.heap
    ensures Solo(hash, s, [DoAllocate(t, m), DoInsert(t)]) ==
            Some(s.(heap := s.heap[m := Metric(key, None)], table := s.table[key := m],
                    pcs := s.pcs[t := LoadHead(key, m)]))
  {
    SoloTwo(hash, s, DoAllocate(t, m), DoInsert(t));
    assert s.pcs[t := Insert(key, m)][t := LoadHead(key, m)] == s.pcs[t := LoadHead(key, m)];
  }

  /** Reading the head and storing the link. */
  lemma {:induction false} SoloLink(hash: Key -> nat, s: State, t: nat, key: Key, m: Id)
    requires Shape(s) && t < |s.pcs| && s.pcs[t] == LoadHead(key, m) && m in s.heap
    ensures var head := s.heads[Shard(hash, |s.heads|, key)];
            Solo(hash, s, [DoLoadHead(t), DoStoreNext(t)]) ==
            Some(s.(heap := s.heap[m := s.heap[m].(next := head)], pcs := s.pcs[t := Swap(key, m, head)]))
  {
    var head := s.heads[Shard(hash, |s.heads|, key)];
    SoloTwo(hash, s, DoLoadHead(t), DoStoreNext(t));
    assert s.pcs[t := StoreNext(key, m, head)][t := Swap(key, m, head)] == s.pcs[t := Swap(key, m, head)];
  }

  /** The swap and the increment. */
  lemma {:induction false} SoloPublish(hash: Key -> nat, s: State, t: nat, key: Key, m: Id)
    requires Shape(s) && t < |s.pcs| && s.pcs[t] == Swap(key, m, s.heads[Shard(hash, |s.heads|, key)])
    ensures Solo(hash, s, [DoSwap(t), DoCount(t)]) ==
            Some(s.(heads := s.heads[Shard(hash, |s.heads|, key) := Some(m)], uniqueKeys := (s.uniqueKeys + 1) % UINT32,
                    pcs := s.pcs[t := Returned(key, Some(m))]))
  {
    SoloTwo(hash, s, DoSwap(t), DoCount(t));
    assert s.pcs[t := Count(key, m)][t := Returned(key, Some(m))] == s.pcs[t := Returned(key, Some(m))];
  }

  /** From the insert to the swap. */
  lemma {:induction false} SoloReady(hash: Key -> nat, s: State, t: nat, key: Key, m: Id, b: nat, s1: State, s2: State)
    requires Shape(s) && t < |s.pcs| && s.pcs[t] == LoadHead(key, m) && m in s.heap && b < |s.heads|
    requires Shard(hash, |s.heads|, key) == b && s1 == s
    requires s2 == s.(heap := s.heap[m := Metric(s.heap[m].key, s.heads[b])],
                      pcs := s.pcs[t := Swap(key, m, s.heads[b])])
    ensures Solo(hash, s1, [DoLoadHead(t), DoStoreNext(t)]) == Some(s2)
  {
    SoloLink(hash, s, t, key, m);
  }

  function PublishSteps(t: nat): seq<Action> { [DoLoadHead(t), DoStoreNext(t)] + [DoSwap(t), DoCount(t)] }

  /** From the insert on. */
  lemma {:induction false} PublishAlone(hash: Key -> nat, s: State, t: nat, key: Key, m: Id, b: nat)
    requires Shape(s) && t < |s.pcs| && b < |s.heads| && Shard(hash, |s.heads|, key) == b
    ensures Solo(hash, Inserted(s, t, key, m), PublishSteps(t)) == Some(Created(s, t, key, m, b))
  {
    var s1, s2 := Inserted(s, t, key, m), Linked(s, t, key, m, b);
    LinkedFrom(s, t, key, m, b);
    SoloReady(hash, s1, t, key, m, b, s1, s2);
    SoloPublish(hash, s2, t, key, m);
    CreatedFrom(s, t, key, m, b);
    SoloAppend(hash, s1, [DoLoadHead(t), DoStoreNext(t)], s2, [DoSwap(t), DoCount(t)]);
  }

  /**
    A creator that runs alone: the new metric is in the table, in front of the list of the
    backend whose number is congruent to the key's hash, counted, and returned.
   */
  lemma {:induction false} CreateAlone(hash: Key -> nat, s: State, t: nat, key: Key, m: Id, b: nat)
    requires Shape(s) && t < |s.pcs| && s.pcs[t] == Allocate(key) && key !in s.table && m !in s.heap
    requires b < |s.heads| && (hash(key) - b) % |s.heads| == 0
    ensures Solo(hash, s, CreateSteps(t, m)) == Some(Created(s, t, key, m, b))
  {
    ShardExactlyWhen(hash, |s.heads|, key, b);
    SoloInsert(hash, s, t, key, m);
    PublishAlone(hash, s, t, key, m, b);
    SoloAppend(hash, s, [DoAllocate(t, m), DoInsert(t)], Inserted(s, t, key, m), PublishSteps(t));
    CreateParts(t, m);
  }

  function Inserted(s: State, t: nat, key: Key, m: Id): State
    requires t < |s.pcs|
  {
    s.(heap := s.heap[m := Metric(key, None)], table := s.table[key := m], pcs := s.pcs[t := LoadHead(key, m)])
  }

  function Linked(s: State, t: nat, key: Key, m: Id, b: nat): State
    requires t < |s.pcs| && b < |s.heads|
  {
    s.(heap := s.heap[m := Metric(key, s.heads[b])], table := s.table[key := m],
       pcs := s.pcs[t := Swap(key, m, s.heads[b])])
  }

  lemma {:induction false} LinkedFrom(s: State, t: nat, key: Key, m: Id, b: nat)
    requires t < |s.pcs| && b < |s.heads|
    ensures var s1 := Inserted(s, t, key, m);
            Linked(s, t, key, m, b) ==
            s1.(heap := s1.heap[m := Metric(key, s1.heads[b])], pcs := s1.pcs[t := Swap(key, m, s1.heads[b])])
  {
    var s1 := Inserted(s, t, key, m);
    assert s1.heap[m := Metric(key, s.heads[b])] == s.heap[m := Metric(key, s.heads[b])];
    assert s1.pcs[t := Swap(key, m, s.heads[b])] == s.pcs[t := Swap(key, m, s.heads[b])];
  }

  lemma {:induction false} CreatedFrom(s: State, t: nat, key: Key, m: Id, b: nat)
    requires Shape(s) && t < |s.pcs| && b < |s.heads|
    ensures var s2 := Linked(s, t, key, m, b);
            Created(s, t, key, m, b) ==
            s2.(heads := s2.heads[b := Some(m)], uniqueKeys := (s2.uniqueKeys + 1) % UINT32,
                pcs := s2.pcs[t := Returned(key, Some(m))])
  {
    var s2 := Linked(s, t, key, m, b);
    assert s2.pcs[t := Returned(key, Some(m))] == s.pcs[t := Returned(key, Some(m))];
  }

  lemma {:induction false} CreateParts(t: nat, m: Id)
    ensures CreateSteps(t, m) ==
            [DoAllocate(t, m), DoInsert(t)] + PublishSteps(t)
  {
  }

  /** A creator that finds the key taken at its insert: the winner's metric; its own stays out of table and lists. */
  lemma {:induction false} LoseAlone(hash: Key -> nat, s: State, t: nat, key: Key, m: Id)
    requires Shape(s) && t < |s.pcs| && s.pcs[t] == Allocate(key) && key in s.table && m !in s.heap
    ensures Solo(hash, s, [DoAllocate(t, m), DoInsert(t), DoRefind(t)]) ==
            Some(s.(heap := s.heap[m := Metric(key, None)], pcs := s.pcs[t := Returned(key, Some(s.table[key]))]))
  {
    var s1 := s.(heap := s.heap[m := Metric(key, None)], pcs := s.pcs[t := Refind(key, m)]);
    SoloTwo(hash, s, DoAllocate(t, m), DoInsert(t));
    assert s.pcs[t := Insert(key, m)][t := Refind(key, m)] == s.pcs[t := Refind(key, m)];
    assert [DoAllocate(t, m), DoInsert(t), DoRefind(t)] == [DoAllocate(t, m), DoInsert(t)] + [DoRefind(t)];
    SoloAppend(hash, s, [DoAllocate(t, m), DoInsert(t)], s1, [DoRefind(t)]);
    assert [DoRefind(t)] == [DoRefind(t)] + [];
    SoloStep(hash, s1, DoRefind(t), []);
    assert s.pcs[t := Refind(key, m)][t := Returned(key, Some(s.table[key]))]
        == s.pcs[t := Returned(key, Some(s.table[key]))];
  }
}
