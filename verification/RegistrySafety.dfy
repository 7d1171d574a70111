/** Every step of the registry keeps `Registry.Inv`. */
module RegistrySafety {
  import Arith
  import opened Registry
  import opened Wrappers
  import opened Words

  /** Nothing is ever removed from the table or freed, and a metric's key never changes. */
  ghost predicate Grows(s: State, s': State) {
    && (forall k :: k in s.table ==> k in s'.table && s'.table[k] == s.table[k])
    && (forall m :: m in s.heap ==> m in s'.heap && s'.heap[m].key == s.heap[m].key)
  }

  lemma StepGrows(hash: Key -> nat, s: State, a: Action)
    requires Shape(s) && Enabled(s, a)
    ensures Shape(Next(hash, s, a)) && Grows(s, Next(hash, s, a))
  {
  }

  predicate IsThread(a: Action) { !(a.Wake? || a.Visit? || a.Sleep?) }

  /** A step moves one thread or one walker. */
  lemma StepLocal(hash: Key -> nat, s: State, a: Action)
    requires Shape(s) && Enabled(s, a)
    ensures var s' := Next(hash, s, a);
            && |s'.pcs| == |s.pcs| && |s'.heads| == |s.heads|
            && (forall u :: 0 <= u < |s.pcs| && !(IsThread(a) && u == a.t) ==> s'.pcs[u] == s.pcs[u])
            && (forall b :: 0 <= b < |s.walkers| && (IsThread(a) || b != a.b) ==> s'.walkers[b] == s.walkers[b])
            && (!IsThread(a) ==> s'.pcs == s.pcs && s'.heap == s.heap)
  {
  }

  /** A thread that owns a metric after a step owned it before, or has just allocated it. */
  lemma StepOwner(hash: Key -> nat, s: State, a: Action, t: nat)
    requires Shape(s) && Enabled(s, a) && t < |s.pcs|
    requires Owner(Next(hash, s, a).pcs[t])
    ensures var m := Next(hash, s, a).pcs[t].m;
            || (Owner(s.pcs[t]) && s.pcs[t].m == m)
            || (a.DoAllocate? && a.t == t && m == a.addr)
  {
  }

  lemma StepTable(hash: Key -> nat, s: State, a: Action)
    requires Shape(s) && Enabled(s, a) && TableOk(s) && ThreadsOk(s)
    ensures TableOk(Next(hash, s, a))
  {
    if a.DoInsert? { assert PcOk(s, s.pcs[a.t]); }
  }

  /** Threads other than the one that moves keep their facts. */
  lemma StepOther(hash: Key -> nat, s: State, a: Action, u: nat)
    requires Shape(s) && Enabled(s, a) && TableOk(s) && ThreadsOk(s) && OwnersOk(s)
    requires u < |s.pcs| && (IsThread(a) ==> u != a.t)
    ensures PcOk(Next(hash, s, a), s.pcs[u])
  {
    assert PcOk(s, s.pcs[u]);
    StepGrows(hash, s, a);
    if IsThread(a) { assert PcOk(s, s.pcs[a.t]); }
  }

  /** The thread that moves has the facts of the place it moves to. */
  lemma StepSelf(hash: Key -> nat, s: State, a: Action)
    requires Shape(s) && Enabled(s, a) && IsThread(a) && TableOk(s) && PcOk(s, s.pcs[a.t])
    ensures PcOk(Next(hash, s, a), Next(hash, s, a).pcs[a.t])
  {
    StepGrows(hash, s, a);
  }

  lemma StepThreads(hash: Key -> nat, s: State, a: Action)
    requires Shape(s) && Enabled(s, a) && TableOk(s) && ThreadsOk(s) && OwnersOk(s)
    ensures ThreadsOk(Next(hash, s, a))
  {
    var s' := Next(hash, s, a);
    StepLocal(hash, s, a);
    forall u | 0 <= u < |s'.pcs| ensures PcOk(s', s'.pcs[u]) {
      if IsThread(a) && u == a.t {
        StepSelf(hash, s, a);
      } else {
        StepOther(hash, s, a, u);
      }
    }
  }

  lemma StepOwners(hash: Key -> nat, s: State, a: Action)
    requires Shape(s) && Enabled(s, a) && TableOk(s) && ThreadsOk(s) && OwnersOk(s)
    ensures OwnersOk(Next(hash, s, a))
  {
    var s' := Next(hash, s, a);
    forall t, u | 0 <= t < |s'.pcs| && 0 <= u < |s'.pcs| && t != u && Owner(s'.pcs[t]) && Owner(s'.pcs[u])
      ensures s'.pcs[t].m != s'.pcs[u].m
    {
      StepOwner(hash, s, a, t);
      StepOwner(hash, s, a, u);
      assert PcOk(s, s.pcs[t]) && PcOk(s, s.pcs[u]);
    }
  }

  // ----- lists -----

  /** The only `next` a step writes belongs to a metric that its thread still owns. */
  lemma StepLinks(hash: Key -> nat, s: State, a: Action, m: Id)
    requires Shape(s) && Enabled(s, a) && m in s.heap
    requires forall t :: 0 <= t < |s.pcs| && Owner(s.pcs[t]) ==> s.pcs[t].m != m
    ensures m in Next(hash, s, a).heap && Next(hash, s, a).heap[m] == s.heap[m]
  {
  }

  lemma StepListed(hash: Key -> nat, s: State, a: Action, b: nat, m: Id)
    requires Shape(s) && Enabled(s, a) && Listed(hash, s, b, m)
    ensures Shape(Next(hash, s, a)) && Listed(hash, Next(hash, s, a), b, m)
  {
    var s' := Next(hash, s, a);
    StepLinks(hash, s, a, m);
    StepGrows(hash, s, a);
    StepLocal(hash, s, a);
    forall t | 0 <= t < |s'.pcs| && Owner(s'.pcs[t]) ensures s'.pcs[t].m != m {
      StepOwner(hash, s, a, t);
    }
  }

  /** A step leaves the chain of already listed metrics alone. */
  lemma StepChain(hash: Key -> nat, s: State, a: Action, b: nat, head: Option<Id>, list: seq<Id>)
    requires Shape(s) && Enabled(s, a) && IsChain(s.heap, head, list)
    requires forall i :: 0 <= i < |list| ==> Listed(hash, s, b, list[i])
    ensures IsChain(Next(hash, s, a).heap, head, list)
  {
    var s' := Next(hash, s, a);
    forall m | m in list && m in s.heap ensures m in s'.heap && s'.heap[m].next == s.heap[m].next {
      var i :| 0 <= i < |list| && list[i] == m;
      StepLinks(hash, s, a, m);
    }
    ChainFrame(s.heap, s'.heap, head, list);
  }

  /** A list no one pushes onto in this step stays as it is. */
  lemma StepListKept(hash: Key -> nat, s: State, a: Action, b: nat, list: seq<Id>)
    requires Shape(s) && Enabled(s, a) && b < |s.heads| && ListOk(hash, s, b, list)
    requires Next(hash, s, a).heads[b] == s.heads[b]
    ensures ListOk(hash, Next(hash, s, a), b, list)
  {
    var s' := Next(hash, s, a);
    forall i | 0 <= i < |list| ensures Listed(hash, s', b, list[i]) {
      StepListed(hash, s, a, b, list[i]);
    }
    StepChain(hash, s, a, b, s.heads[b], list);
  }

  /** A successful compare-and-swap puts the new metric in front of the list it read. */
  lemma StepListPushed(hash: Key -> nat, s: State, a: Action, b: nat, list: seq<Id>)
    requires Shape(s) && Enabled(s, a) && TableOk(s) && ThreadsOk(s) && OwnersOk(s)
    requires Casts(hash, s, a) && b == Shard(hash, |s.heads|, s.pcs[a.t].key) && ListOk(hash, s, b, list)
    ensures ListOk(hash, Next(hash, s, a), b, [s.pcs[a.t].m] + list)
  {
    var s' := Next(hash, s, a);
    var Swap(key, m, head) := s.pcs[a.t];
    assert PcOk(s, s.pcs[a.t]) && Owner(s.pcs[a.t]);
    assert forall i :: 0 <= i < |list| ==> Listed(hash, s, b, list[i]) && list[i] != m;
    ChainPush(s.heap, m, list);
    var list' := [m] + list;
    forall i | 0 <= i < |list'| ensures Listed(hash, s', b, list'[i]) {
      if i > 0 {
        StepListed(hash, s, a, b, list[i - 1]);
      } else {
        forall t | 0 <= t < |s'.pcs| && Owner(s'.pcs[t]) ensures s'.pcs[t].m != m {
          StepOwner(hash, s, a, t);
        }
      }
    }
  }

  lemma StepLists(hash: Key -> nat, s: State, h: History, a: Action)
    requires Shape(s) && Enabled(s, a) && |h.lists| == |h.snaps| == |s.heads|
    requires TableOk(s) && ThreadsOk(s) && OwnersOk(s) && ListsOk(hash, s, h)
    ensures ListsOk(hash, Next(hash, s, a), Track(hash, s, h, a))
  {
    var s' := Next(hash, s, a);
    var h' := Track(hash, s, h, a);
    forall b | 0 <= b < |s'.heads| ensures ListOk(hash, s', b, h'.lists[b]) {
      assert ListOk(hash, s, b, h.lists[b]);
      if Casts(hash, s, a) && b == Shard(hash, |s.heads|, s.pcs[a.t].key) {
        StepListPushed(hash, s, a, b, h.lists[b]);
      } else {
        StepListKept(hash, s, a, b, h.lists[b]);
      }
    }
  }

  /** A pushing thread goes on pushing the same metric until its compare-and-swap succeeds. */
  lemma StepPushing(hash: Key -> nat, s: State, a: Action, t: nat)
    requires Shape(s) && Enabled(s, a) && t < |s.pcs| && Pushing(s.pcs[t])
    ensures var pc := Next(hash, s, a).pcs[t];
            (Pushing(pc) && pc.m == s.pcs[t].m) || (Casts(hash, s, a) && a.t == t)
  {
  }

  lemma StepCover(hash: Key -> nat, s: State, h: History, a: Action)
    requires Shape(s) && Enabled(s, a) && |h.lists| == |h.snaps| == |s.heads|
    requires ThreadsOk(s) && TableOk(s) && CoverOk(hash, s, h)
    ensures CoverOk(hash, Next(hash, s, a), Track(hash, s, h, a))
  {
    var s' := Next(hash, s, a);
    var h' := Track(hash, s, h, a);
    StepGrows(hash, s, a);
    StepLocal(hash, s, a);
    forall k | k in s'.table
      ensures s'.table[k] in h'.lists[Shard(hash, |s.heads|, k)] || BeingPushed(s', s'.table[k])
    {
      if k !in s.table {
        assert Pushing(s'.pcs[a.t]);
      } else if s.table[k] !in h.lists[Shard(hash, |s.heads|, k)] {
        var t :| 0 <= t < |s.pcs| && Pushing(s.pcs[t]) && s.pcs[t].m == s.table[k];
        assert PcOk(s, s.pcs[t]);
        StepPushing(hash, s, a, t);
      }
    }
  }

  // ----- walkers -----

  /** The end of an end is an end, also of a longer list. */
  lemma {:induction false} Suffixes(list: seq<Id>, list': seq<Id>, snap: seq<Id>, n: nat)
    requires |snap| <= |list| && snap == list[|list| - |snap|..] && n <= |snap|
    requires |list| <= |list'| && list == list'[|list'| - |list|..]
    ensures snap == list'[|list'| - |snap|..]
    ensures forall i :: 0 <= i < |snap| - n ==> snap[n..][i] == list[|list| - |snap| + n + i]
  {
  }

  lemma {:induction false} StepWalkKept(hash: Key -> nat, s: State, a: Action, b: nat,
                                        list: seq<Id>, list': seq<Id>, snap: seq<Id>)
    requires Shape(s) && Enabled(s, a) && b < |s.walkers|
    requires Next(hash, s, a).walkers[b] == s.walkers[b]
    requires WalkOk(s, b, list, snap) && ListOk(hash, s, b, list)
    requires |list| <= |list'| && list == list'[|list'| - |list|..]
    ensures WalkOk(Next(hash, s, a), b, list', snap)
  {
    if s.walkers[b].Walking? {
      var n := |s.walkers[b].visited|;
      Suffixes(list, list', snap, n);
      StepChain(hash, s, a, b, s.walkers[b].cursor, snap[n..]);
    }
  }

  /** The walker that moves: it wakes with the whole list ahead of it, or advances by one. */
  lemma StepWalkMoved(hash: Key -> nat, s: State, a: Action, list: seq<Id>, snap: seq<Id>)
    requires Shape(s) && Enabled(s, a) && !IsThread(a)
    requires WalkOk(s, a.b, list, snap) && ListOk(hash, s, a.b, list)
    ensures WalkOk(Next(hash, s, a), a.b, list, if a.Wake? then list else snap)
  {
    if a.Visit? {
      var visited := s.walkers[a.b].visited;
      assert snap[|visited|..][1..] == snap[|visited| + 1..];
    } else if a.Wake? {
      assert list[0..] == list;
    }
  }

  lemma StepWalks(hash: Key -> nat, s: State, h: History, a: Action)
    requires Shape(s) && Enabled(s, a) && |h.lists| == |h.snaps| == |s.heads|
    requires ListsOk(hash, s, h) && WalksOk(s, h)
    ensures WalksOk(Next(hash, s, a), Track(hash, s, h, a))
  {
    var s' := Next(hash, s, a);
    var h' := Track(hash, s, h, a);
    StepLocal(hash, s, a);
    forall b | 0 <= b < |s'.walkers| ensures WalkOk(s', b, h'.lists[b], h'.snaps[b]) {
      assert WalkOk(s, b, h.lists[b], h.snaps[b]) && ListOk(hash, s, b, h.lists[b]);
      if IsThread(a) || b != a.b {
        StepWalkKept(hash, s, a, b, h.lists[b], h'.lists[b], h.snaps[b]);
      } else {
        StepWalkMoved(hash, s, a, h.lists[b], h.snaps[b]);
      }
    }
  }

  // ----- counting -----

  lemma {:induction false} TotalLengthPush(lists: seq<seq<Id>>, b: nat, m: Id)
    requires b < |lists|
    ensures TotalLength(lists[b := [m] + lists[b]]) == TotalLength(lists) + 1
  {
    if b > 0 {
      TotalLengthPush(lists[1..], b - 1, m);
      assert lists[b := [m] + lists[b]][1..] == lists[1..][b - 1 := [m] + lists[1..][b - 1]];
    } else {
      assert lists[b := [m] + lists[b]][1..] == lists[1..];
    }
  }

  /** The step that registers a new key. */
  predicate Inserts(s: State, a: Action)
    requires Enabled(s, a)
  {
    a.DoInsert? && s.pcs[a.t].key !in s.table
  }

  /** How one thread's move changes the two sets of threads that the counters are about. */
  lemma StepPushingSet(hash: Key -> nat, s: State, a: Action)
    requires Shape(s) && Enabled(s, a)
    ensures PushingSet(Next(hash, s, a)) ==
            if Inserts(s, a) then PushingSet(s) + {a.t}
            else if Casts(hash, s, a) then PushingSet(s) - {a.t}
            else PushingSet(s)
  {
    StepLocal(hash, s, a);
  }

  lemma StepUncountedSet(hash: Key -> nat, s: State, a: Action)
    requires Shape(s) && Enabled(s, a)
    ensures UncountedSet(Next(hash, s, a)) ==
            if Inserts(s, a) then UncountedSet(s) + {a.t}
            else if a.DoCount? then UncountedSet(s) - {a.t}
            else UncountedSet(s)
  {
    StepLocal(hash, s, a);
  }

  lemma StepTableSize(hash: Key -> nat, s: State, a: Action)
    requires Shape(s) && Enabled(s, a)
    ensures |Next(hash, s, a).table| == |s.table| + if Inserts(s, a) then 1 else 0
  {
  }

  /** The counter moves only in the increment. */
  lemma StepCounter(hash: Key -> nat, s: State, a: Action)
    requires Shape(s) && Enabled(s, a)
    ensures Next(hash, s, a).uniqueKeys == if a.DoCount? then (s.uniqueKeys + 1) % UINT32 else s.uniqueKeys
  {
  }

  /** How far the table is ahead of the counter changes only there, too. */
  lemma StepLag(hash: Key -> nat, s: State, a: Action)
    requires Shape(s) && Enabled(s, a) && |UncountedSet(s)| <= |s.table|
    ensures var s' := Next(hash, s, a);
            |s'.table| - |UncountedSet(s')| == |s.table| - |UncountedSet(s)| + if a.DoCount? then 1 else 0
  {
    StepUncountedSet(hash, s, a);
    StepTableSize(hash, s, a);
    if Inserts(s, a) {
      assert a.t !in UncountedSet(s);
    } else if a.DoCount? {
      assert a.t in UncountedSet(s);
    }
  }

  lemma CounterNext(counter: nat, lag: nat, counter': nat, lag': nat, step: bool)
    requires counter == lag % UINT32 && lag' == lag + (if step then 1 else 0)
    requires counter' == if step then (counter + 1) % UINT32 else counter
    ensures counter' == lag' % UINT32
  {
    Arith.WrappedSuccessor(lag, UINT32);
  }

  lemma StepUniqueKeys(hash: Key -> nat, s: State, h: History, a: Action)
    requires Shape(s) && Enabled(s, a) && CountsOk(s, h)
    ensures var s' := Next(hash, s, a);
            |UncountedSet(s')| <= |s'.table| && s'.uniqueKeys == (|s'.table| - |UncountedSet(s')|) % UINT32
  {
    var s' := Next(hash, s, a);
    StepLag(hash, s, a);
    StepCounter(hash, s, a);
    CounterNext(s.uniqueKeys, |s.table| - |UncountedSet(s)|,
                s'.uniqueKeys, |s'.table| - |UncountedSet(s')|, a.DoCount?);
  }

  lemma StepLengths(hash: Key -> nat, s: State, h: History, a: Action)
    requires Shape(s) && Enabled(s, a) && |h.lists| == |h.snaps| == |s.heads|
    requires TotalLength(h.lists) + |PushingSet(s)| == |s.table|
    ensures var s' := Next(hash, s, a);
            TotalLength(Track(hash, s, h, a).lists) + |PushingSet(s')| == |s'.table|
  {
    StepPushingSet(hash, s, a);
    StepTableSize(hash, s, a);
    if Inserts(s, a) {
      assert a.t !in PushingSet(s);
    } else if Casts(hash, s, a) {
      assert a.t in PushingSet(s);
      TotalLengthPush(h.lists, Shard(hash, |s.heads|, s.pcs[a.t].key), s.pcs[a.t].m);
    }
  }

  /** Inductive step: whatever thread or walker moves, the invariant survives. */
  lemma StepInv(hash: Key -> nat, s: State, h: History, a: Action)
    requires Inv(hash, s, h) && Enabled(s, a)
    ensures Inv(hash, Next(hash, s, a), Track(hash, s, h, a))
  {
    StepGrows(hash, s, a);
    StepTable(hash, s, a);
    StepThreads(hash, s, a);
    StepOwners(hash, s, a);
    StepLists(hash, s, h, a);
    StepCover(hash, s, h, a);
    StepWalks(hash, s, h, a);
    StepUniqueKeys(hash, s, h, a);
    StepLengths(hash, s, h, a);
  }
}
