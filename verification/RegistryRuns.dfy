/** What the registry guarantees over whole runs, for every interleaving. */
module RegistryRuns {
  import opened Registry
  import opened RegistrySafety
  import opened Wrappers
  import opened Words

  ghost predicate Goes(hash: Key -> nat, states: seq<State>, actions: seq<Action>, i: nat)
    requires |states| == |actions| + 1 && i < |actions|
  {
    Shape(states[i]) && Enabled(states[i], actions[i]) && states[i + 1] == Next(hash, states[i], actions[i])
  }

  ghost predicate IsRun(hash: Key -> nat, states: seq<State>, actions: seq<Action>) {
    && |states| == |actions| + 1
    && Init(states[0])
    && forall i :: 0 <= i < |actions| ==> Goes(hash, states, actions, i)
  }

  lemma {:induction false} TotalLengthOfEmpty(lists: seq<seq<Id>>)
    requires forall b :: 0 <= b < |lists| ==> lists[b] == []
    ensures TotalLength(lists) == 0
  {
    if lists == [] {
    } else {
      TotalLengthOfEmpty(lists[1..]);
    }
  }

  ghost function NoHistory(s: State): History {
    var none := seq(|s.heads|, _ => []);
    History(none, none)
  }

  lemma InitInv(hash: Key -> nat, s: State)
    requires Init(s)
    ensures Inv(hash, s, NoHistory(s))
  {
    TotalLengthOfEmpty(NoHistory(s).lists);
    assert PushingSet(s) == {} && UncountedSet(s) == {};
  }

  /** The lists behind the i-th state of a run. */
  ghost function HistoryAt(hash: Key -> nat, states: seq<State>, actions: seq<Action>, i: nat): (h: History)
    requires IsRun(hash, states, actions) && i < |states|
    ensures Shape(states[i]) && |h.lists| == |h.snaps| == |states[i].heads|
  {
    if i == 0 then
      NoHistory(states[0])
    else
      var h := HistoryAt(hash, states, actions, i - 1);
      assert Goes(hash, states, actions, i - 1);
      Track(hash, states[i - 1], h, actions[i - 1])
  }

  /** One step of a run, with its history. */
  lemma {:induction false} RunStep(hash: Key -> nat, states: seq<State>, actions: seq<Action>, i: nat)
    requires IsRun(hash, states, actions) && i < |actions|
    ensures Shape(states[i]) && Enabled(states[i], actions[i]) && states[i + 1] == Next(hash, states[i], actions[i])
    ensures HistoryAt(hash, states, actions, i + 1) ==
            Track(hash, states[i], HistoryAt(hash, states, actions, i), actions[i])
  {
    assert Goes(hash, states, actions, i);
  }

  /** What holds of a state and its history, and is kept by every step. */
  ghost predicate Kept(hash: Key -> nat, claim: (State, History) -> bool) {
    && (forall s :: Init(s) ==> claim(s, NoHistory(s)))
    && (forall s, h: History, a | Shape(s) && |h.lists| == |h.snaps| == |s.heads| && Enabled(s, a) && claim(s, h) ::
          claim(Next(hash, s, a), Track(hash, s, h, a)))
  }

  /** Induction over a run. */
  lemma {:induction false} RunKeeps(hash: Key -> nat, claim: (State, History) -> bool,
                                    states: seq<State>, actions: seq<Action>, i: nat)
    requires IsRun(hash, states, actions) && i < |states| && Kept(hash, claim)
    ensures claim(states[i], HistoryAt(hash, states, actions, i))
  {
    if i == 0 {
    } else {
      RunKeeps(hash, claim, states, actions, i - 1);
      RunStep(hash, states, actions, i - 1);
    }
  }

  lemma {:induction false} InvKept(hash: Key -> nat)
    ensures Kept(hash, (s, h) => Inv(hash, s, h))
  {
    forall s | Init(s) ensures Inv(hash, s, NoHistory(s)) { InitInv(hash, s); }
    forall s, h: History, a | Shape(s) && |h.lists| == |h.snaps| == |s.heads| && Enabled(s, a) && Inv(hash, s, h)
      ensures Inv(hash, Next(hash, s, a), Track(hash, s, h, a))
    {
      StepInv(hash, s, h, a);
    }
  }

  /** Safety: the invariant holds in every state of every run. */
  lemma {:induction false} RunInv(hash: Key -> nat, states: seq<State>, actions: seq<Action>, i: nat)
    returns (h: History)
    requires IsRun(hash, states, actions) && i < |states|
    ensures h == HistoryAt(hash, states, actions, i) && Inv(hash, states[i], h)
  {
    var claim := (s, h) => Inv(hash, s, h);
    InvKept(hash);
    RunKeeps(hash, claim, states, actions, i);
    h := HistoryAt(hash, states, actions, i);
    assert claim(states[i], h);
  }

  lemma {:induction false} RunGrows(hash: Key -> nat, states: seq<State>, actions: seq<Action>, i: nat, j: nat)
    requires IsRun(hash, states, actions) && i <= j < |states|
    ensures Grows(states[i], states[j])
    decreases j
  {
    if i == j {
    } else {
      RunGrows(hash, states, actions, i, j - 1);
      assert Goes(hash, states, actions, j - 1);
      StepGrows(hash, states[j - 1], actions[j - 1]);
    }
  }

  /** Whoever asks for a key, whenever, gets the same metric; and it is a metric for that key. */
  lemma CallersAgree(hash: Key -> nat, states: seq<State>, actions: seq<Action>,
                     i: nat, t: nat, j: nat, u: nat, key: Key, m: Id, m': Id)
    requires IsRun(hash, states, actions) && i < |states| && j < |states|
    requires t < |states[i].pcs| && states[i].pcs[t] == Returned(key, Some(m))
    requires u < |states[j].pcs| && states[j].pcs[u] == Returned(key, Some(m'))
    ensures m == m'
    ensures m in states[i].heap && states[i].heap[m].key == key
  {
    var h := RunInv(hash, states, actions, i);
    var h' := RunInv(hash, states, actions, j);
    assert PcOk(states[i], states[i].pcs[t]) && PcOk(states[j], states[j].pcs[u]);
    if i <= j {
      RunGrows(hash, states, actions, i, j);
    } else {
      RunGrows(hash, states, actions, j, i);
    }
  }

  lemma StepNull(hash: Key -> nat, s: State, a: Action, t: nat, key: Key)
    requires Shape(s) && Enabled(s, a) && t < |s.pcs| && PcOk(s, s.pcs[t])
    requires !s.pcs[t].Returned? && Next(hash, s, a).pcs[t] == Returned(key, None)
    ensures a == DoLookup(t, true) && key !in s.table
  {
  }

  /** NULL is returned only by a lookup made at capacity; a lost insert always finds the winner. */
  lemma NullOnlyAtCapacity(hash: Key -> nat, states: seq<State>, actions: seq<Action>, i: nat, t: nat, key: Key)
    requires IsRun(hash, states, actions) && i < |actions| && t < |states[i].pcs| && t < |states[i + 1].pcs|
    requires !states[i].pcs[t].Returned? && states[i + 1].pcs[t] == Returned(key, None)
    ensures actions[i] == DoLookup(t, true) && key !in states[i].table
  {
    var h := RunInv(hash, states, actions, i);
    assert Goes(hash, states, actions, i);
    assert PcOk(states[i], states[i].pcs[t]);
    StepNull(hash, states[i], actions[i], t, key);
  }

  // ----- lists -----

  lemma ListInState(hash: Key -> nat, s: State, h: History, b: nat, list: seq<Id>)
    requires Inv(hash, s, h) && b < |s.heads| && IsChain(s.heap, s.heads[b], list)
    ensures list == h.lists[b] && NoDup(list)
  {
    assert ListOk(hash, s, b, h.lists[b]);
    ChainUnique(s.heap, s.heads[b], list, h.lists[b]);
  }

  /**
    A backend's list is exactly the metrics of its shard whose push has finished: acyclic,
    each once, and nothing else. So lists of different backends are disjoint.
   */
  lemma ListIsShard(hash: Key -> nat, states: seq<State>, actions: seq<Action>, i: nat, b: nat, list: seq<Id>)
    requires IsRun(hash, states, actions) && i < |states| && Shape(states[i]) && b < |states[i].heads|
    requires IsChain(states[i].heap, states[i].heads[b], list)
    ensures NoDup(list)
    ensures var s := states[i];
            forall m :: m in list <==>
              && m in s.heap && Get(s.table, s.heap[m].key) == Some(m)
              && Shard(hash, |s.heads|, s.heap[m].key) == b && !BeingPushed(s, m)
  {
    var h := RunInv(hash, states, actions, i);
    var s := states[i];
    assert ListOk(hash, s, b, h.lists[b]);
    ListInState(hash, s, h, b, list);
    forall m | m in list
      ensures Listed(hash, s, b, m) && !BeingPushed(s, m)
    {
      var n :| 0 <= n < |list| && list[n] == m;
    }
    forall m | m in s.heap && Get(s.table, s.heap[m].key) == Some(m)
            && Shard(hash, |s.heads|, s.heap[m].key) == b && !BeingPushed(s, m)
      ensures m in list
    {
      assert s.heap[m].key in s.table;
    }
  }

  /** Following `next` from a head always ends: every head has such a list. */
  lemma ListExists(hash: Key -> nat, states: seq<State>, actions: seq<Action>, i: nat, b: nat)
    requires IsRun(hash, states, actions) && i < |states| && b < |states[i].heads|
    ensures exists list :: IsChain(states[i].heap, states[i].heads[b], list)
  {
    var h := RunInv(hash, states, actions, i);
    assert ListOk(hash, states[i], b, h.lists[b]);
  }

  /** Once listed, a metric stays listed and its `next` is never written again. */
  lemma {:induction false} RunListed(hash: Key -> nat, states: seq<State>, actions: seq<Action>,
                                     i: nat, j: nat, b: nat, m: Id)
    requires IsRun(hash, states, actions) && i <= j < |states|
    requires Shape(states[i]) && Listed(hash, states[i], b, m)
    ensures Shape(states[j]) && Listed(hash, states[j], b, m) && states[j].heap[m] == states[i].heap[m]
    decreases j
  {
    if i == j {
    } else {
      RunListed(hash, states, actions, i, j - 1, b, m);
      assert Goes(hash, states, actions, j - 1);
      StepListed(hash, states[j - 1], actions[j - 1], b, m);
      StepLinks(hash, states[j - 1], actions[j - 1], m);
    }
  }

  lemma PushedIsListed(hash: Key -> nat, s: State, h: History, a: Action)
    requires Inv(hash, s, h) && Enabled(s, a) && Casts(hash, s, a)
    ensures Shape(Next(hash, s, a))
    ensures Listed(hash, Next(hash, s, a), Shard(hash, |s.heads|, s.pcs[a.t].key), s.pcs[a.t].m)
  {
    var b := Shard(hash, |s.heads|, s.pcs[a.t].key);
    var list := h.lists[b];
    assert ListOk(hash, s, b, list);
    StepListPushed(hash, s, a, b, list);
    assert ([s.pcs[a.t].m] + list)[0] == s.pcs[a.t].m;
  }

  lemma {:induction false} PushedIsListedNext(hash: Key -> nat, states: seq<State>, actions: seq<Action>, k: nat)
    requires IsRun(hash, states, actions) && k < |actions|
    requires Goes(hash, states, actions, k) && Casts(hash, states[k], actions[k])
    ensures Shape(states[k + 1])
    ensures var pc := states[k].pcs[actions[k].t];
            Listed(hash, states[k + 1], Shard(hash, |states[k].heads|, pc.key), pc.m)
  {
    var h := RunInv(hash, states, actions, k);
    PushedIsListed(hash, states[k], h, actions[k]);
  }

  /** From its compare-and-swap on, a metric is listed under its shard. */
  lemma {:induction false} PushedStaysListed(hash: Key -> nat, states: seq<State>, actions: seq<Action>, k: nat, i: nat)
    requires IsRun(hash, states, actions) && k < i < |states|
    requires Goes(hash, states, actions, k) && Casts(hash, states[k], actions[k])
    ensures Shape(states[i])
    ensures var pc := states[k].pcs[actions[k].t];
            Listed(hash, states[i], Shard(hash, |states[k].heads|, pc.key), pc.m)
  {
    PushedIsListedNext(hash, states, actions, k);
    var pc := states[k].pcs[actions[k].t];
    RunListed(hash, states, actions, k + 1, i, Shard(hash, |states[k].heads|, pc.key), pc.m);
  }

  /** No metric is pushed twice, by the same thread or by two. */
  lemma PushedOnce(hash: Key -> nat, states: seq<State>, actions: seq<Action>, i: nat, j: nat)
    requires IsRun(hash, states, actions) && i < j < |actions|
    requires Goes(hash, states, actions, i) && Casts(hash, states[i], actions[i])
    requires Goes(hash, states, actions, j) && Casts(hash, states[j], actions[j])
    ensures states[i].pcs[actions[i].t].m != states[j].pcs[actions[j].t].m
  {
    PushedStaysListed(hash, states, actions, i, j);
    assert Owner(states[j].pcs[actions[j].t]);
  }

  // ----- losers of the insert race -----

  /** Allocated, but known to neither the table nor a thread that could still publish it. */
  ghost predicate Orphan(s: State, m: Id) {
    && m in s.heap
    && (forall k :: Get(s.table, k) != Some(m))
    && (forall t :: 0 <= t < |s.pcs| && (s.pcs[t].Insert? || Pushing(s.pcs[t])) ==> s.pcs[t].m != m)
  }

  lemma StepOrphan(hash: Key -> nat, s: State, a: Action, m: Id)
    requires Shape(s) && Enabled(s, a) && Orphan(s, m)
    ensures Orphan(Next(hash, s, a), m)
  {
    StepGrows(hash, s, a);
    var s' := Next(hash, s, a);
    forall t | 0 <= t < |s'.pcs| && (s'.pcs[t].Insert? || Pushing(s'.pcs[t])) ensures s'.pcs[t].m != m {
      StepOwner(hash, s, a, t);
      if a.DoInsert? && a.t == t { assert s.pcs[t].Insert?; }
    }
    if a.DoInsert? { assert s.pcs[a.t].Insert?; }
    assert forall k :: k in s.table ==> Get(s.table, k) == Some(s.table[k]);
  }

  lemma {:induction false} RunOrphan(hash: Key -> nat, states: seq<State>, actions: seq<Action>, i: nat, j: nat, m: Id)
    requires IsRun(hash, states, actions) && i <= j < |states| && Orphan(states[i], m)
    ensures Orphan(states[j], m)
    decreases j
  {
    if i == j {
    } else {
      RunOrphan(hash, states, actions, i, j - 1, m);
      assert Goes(hash, states, actions, j - 1);
      StepOrphan(hash, states[j - 1], actions[j - 1], m);
    }
  }

  /** The metric of a creator that lost the race is never found, listed or handed out. */
  lemma LoserNeverPublished(hash: Key -> nat, states: seq<State>, actions: seq<Action>,
                            i: nat, t: nat, j: nat, b: nat, list: seq<Id>)
    requires IsRun(hash, states, actions) && i <= j < |states| && t < |states[i].pcs| && states[i].pcs[t].Refind?
    requires b < |states[j].heads| && IsChain(states[j].heap, states[j].heads[b], list)
    ensures var m := states[i].pcs[t].m;
            && (forall k :: Get(states[j].table, k) != Some(m))
            && m !in list
            && (forall u :: 0 <= u < |states[j].pcs| && states[j].pcs[u].Returned? ==>
                  states[j].pcs[u].result != Some(m))
  {
    var s := states[i];
    var m := s.pcs[t].m;
    var h := RunInv(hash, states, actions, i);
    var h' := RunInv(hash, states, actions, j);
    assert PcOk(s, s.pcs[t]) && Owner(s.pcs[t]);
    assert Orphan(s, m);
    RunOrphan(hash, states, actions, i, j, m);
    ListIsShard(hash, states, actions, j, b, list);
    forall u | 0 <= u < |states[j].pcs| && states[j].pcs[u].Returned? ensures states[j].pcs[u].result != Some(m) {
      assert PcOk(states[j], states[j].pcs[u]);
      assert Get(states[j].table, states[j].pcs[u].key) != Some(m);
    }
  }

  // ----- counting -----

  lemma {:induction false} ListsInState(hash: Key -> nat, s: State, h: History, lists: seq<seq<Id>>)
    requires Shape(s) && |h.lists| == |s.heads| && ListsOk(hash, s, h) && |lists| == |s.heads|
    requires forall b :: 0 <= b < |lists| ==> IsChain(s.heap, s.heads[b], lists[b])
    ensures lists == h.lists
  {
    forall b | 0 <= b < |lists| ensures lists[b] == h.lists[b] {
      assert ListOk(hash, s, b, h.lists[b]);
      ChainUnique(s.heap, s.heads[b], lists[b], h.lists[b]);
    }
  }

  lemma {:induction false} CountsInState(s: State, h: History, lists: seq<seq<Id>>)
    requires CountsOk(s, h) && lists == h.lists
    ensures |UncountedSet(s)| <= |s.table|
    ensures s.uniqueKeys == (|s.table| - |UncountedSet(s)|) % UINT32
    ensures TotalLength(lists) + |PushingSet(s)| == |s.table|
  {
  }

  lemma {:induction false} RunCounts(hash: Key -> nat, states: seq<State>, actions: seq<Action>, i: nat)
    returns (h: History)
    requires IsRun(hash, states, actions) && i < |states|
    ensures Shape(states[i]) && |h.lists| == |states[i].heads|
    ensures ListsOk(hash, states[i], h) && CountsOk(states[i], h)
  {
    h := RunInv(hash, states, actions, i);
  }

  /**
    unique_keys trails the table by exactly the creators that have inserted and not yet
    counted (modulo 2^32, the width of the counter); the lists trail it by those still pushing.
   */
  lemma CountsAgree(hash: Key -> nat, states: seq<State>, actions: seq<Action>, i: nat, lists: seq<seq<Id>>)
    requires IsRun(hash, states, actions) && i < |states| && |lists| == |states[i].heads|
    requires forall b :: 0 <= b < |lists| ==> IsChain(states[i].heap, states[i].heads[b], lists[b])
    ensures var s := states[i];
            && |UncountedSet(s)| <= |s.table|
            && s.uniqueKeys == (|s.table| - |UncountedSet(s)|) % UINT32
            && TotalLength(lists) + |PushingSet(s)| == |s.table|
  {
    var h := RunCounts(hash, states, actions, i);
    ListsInState(hash, states[i], h, lists);
    CountsInState(states[i], h, lists);
  }

  /** With no thread between insert and increment, unique_keys is the total length of all lists. */
  lemma QuietCountsAgree(hash: Key -> nat, states: seq<State>, actions: seq<Action>, i: nat, lists: seq<seq<Id>>)
    requires IsRun(hash, states, actions) && i < |states| && |lists| == |states[i].heads|
    requires forall b :: 0 <= b < |lists| ==> IsChain(states[i].heap, states[i].heads[b], lists[b])
    requires forall t :: 0 <= t < |states[i].pcs| ==> !Uncounted(states[i].pcs[t])
    ensures states[i].uniqueKeys == TotalLength(lists) % UINT32 && TotalLength(lists) == |states[i].table|
  {
    CountsAgree(hash, states, actions, i, lists);
    assert UncountedSet(states[i]) == {} && PushingSet(states[i]) == {};
  }

  // ----- traversals -----

  ghost function Visits(actions: seq<Action>, b: nat, i: nat, j: nat): nat
    requires i <= j <= |actions|
    decreases j
  {
    if i == j then 0 else Visits(actions, b, i, j - 1) + if actions[j - 1] == Visit(b) then 1 else 0
  }

  lemma StepWalking(hash: Key -> nat, s: State, h: History, a: Action, b: nat)
    requires Shape(s) && Enabled(s, a) && |h.lists| == |h.snaps| == |s.heads| && b < |s.heads|
    requires s.walkers[b].Walking? && a != Sleep(b)
    ensures var w := Next(hash, s, a).walkers;
            && |w| == |s.walkers| && w[b].Walking?
            && |w[b].visited| == |s.walkers[b].visited| + if a == Visit(b) then 1 else 0
    ensures Track(hash, s, h, a).snaps[b] == h.snaps[b]
  {
    StepLocal(hash, s, a);
  }

  ghost predicate Underway(hash: Key -> nat, states: seq<State>, actions: seq<Action>, i: nat, j: nat, b: nat)
    requires IsRun(hash, states, actions) && i < j < |states|
  {
    var h, h' := HistoryAt(hash, states, actions, i), HistoryAt(hash, states, actions, j);
    && b < |h.lists| && b < |h'.snaps| && h'.snaps[b] == h.lists[b]
    && b < |states[j].walkers| && states[j].walkers[b].Walking?
    && Visits(actions, b, i, j) == |states[j].walkers[b].visited|
  }

  /** While a walker is under way its snapshot stands, and it has taken one step per metric visited. */
  lemma {:induction false} WalkUnderway(hash: Key -> nat, states: seq<State>, actions: seq<Action>, i: nat, j: nat,
                                        b: nat)
    requires IsRun(hash, states, actions) && i < j < |states| && b < |states[i].heads|
    requires actions[i] == Wake(b)
    requires forall x :: i < x < j ==> actions[x] != Sleep(b)
    ensures Underway(hash, states, actions, i, j, b)
    decreases j
  {
    var a, s := actions[j - 1], states[j - 1];
    var h := HistoryAt(hash, states, actions, j - 1);
    assert Goes(hash, states, actions, j - 1);
    assert HistoryAt(hash, states, actions, j) == Track(hash, s, h, a);
    if i + 1 < j {
      WalkUnderway(hash, states, actions, i, j - 1, b);
      StepWalking(hash, s, h, a, b);
    } else {
      assert Visits(actions, b, i, i) == 0;
    }
  }

  lemma WalkerInState(hash: Key -> nat, s: State, h: History, b: nat)
    requires Inv(hash, s, h) && b < |s.walkers| && s.walkers[b].Walking?
    ensures var w, snap := s.walkers[b], h.snaps[b];
            && w.visited <= snap
            && (w.cursor.None? <==> w.visited == snap)
            && (w.cursor.Some? ==> w.cursor.value in s.heap)
  {
    assert WalkOk(s, b, h.lists[b], h.snaps[b]);
    var rest := h.snaps[b][|s.walkers[b].visited|..];
    assert rest == [] <==> s.walkers[b].visited == h.snaps[b];
  }

  lemma WalkerAt(hash: Key -> nat, states: seq<State>, actions: seq<Action>, j: nat, b: nat)
    requires IsRun(hash, states, actions) && j < |states| && b < |states[j].walkers| && states[j].walkers[b].Walking?
    ensures var w, snap := states[j].walkers[b], HistoryAt(hash, states, actions, j).snaps[b];
            && w.visited <= snap
            && (w.cursor.None? <==> w.visited == snap)
            && (w.cursor.Some? ==> w.cursor.value in states[j].heap)
  {
    var h := RunInv(hash, states, actions, j);
    WalkerInState(hash, states[j], h, b);
  }

  lemma ListAt(hash: Key -> nat, states: seq<State>, actions: seq<Action>, i: nat, b: nat, list: seq<Id>)
    requires IsRun(hash, states, actions) && i < |states| && b < |states[i].heads|
    requires IsChain(states[i].heap, states[i].heads[b], list)
    ensures list == HistoryAt(hash, states, actions, i).lists[b] && NoDup(list)
  {
    var h := RunInv(hash, states, actions, i);
    ListInState(hash, states[i], h, b, list);
  }

  lemma WalkState(hash: Key -> nat, states: seq<State>, actions: seq<Action>, i: nat, j: nat, b: nat, list: seq<Id>)
    requires IsRun(hash, states, actions) && i < j < |states| && b < |states[i].heads|
    requires actions[i] == Wake(b) && forall x :: i < x < j ==> actions[x] != Sleep(b)
    requires IsChain(states[i].heap, states[i].heads[b], list)
    ensures b < |states[j].walkers| && states[j].walkers[b].Walking? && NoDup(list)
    ensures var w := states[j].walkers[b];
            && w.visited <= list && Visits(actions, b, i, j) == |w.visited|
            && (w.cursor.None? <==> w.visited == list)
            && (w.cursor.Some? ==> w.cursor.value in states[j].heap)
  {
    WalkUnderway(hash, states, actions, i, j, b);
    ListAt(hash, states, actions, i, b, list);
    WalkerAt(hash, states, actions, j, b);
  }

  lemma {:induction false} SleepsAtTheEnd(hash: Key -> nat, states: seq<State>, actions: seq<Action>, j: nat, b: nat)
    requires IsRun(hash, states, actions) && j < |actions| && actions[j] == Sleep(b)
    ensures b < |states[j].walkers| && states[j].walkers[b].Walking? && states[j].walkers[b].cursor.None?
  {
    RunStep(hash, states, actions, j);
  }

  /**
    A traversal ends after one step per metric and visits exactly the list its backend had
    when it read the head, in order, each metric once, whatever was pushed meanwhile.
   */
  lemma TraversalVisitsSnapshot(hash: Key -> nat, states: seq<State>, actions: seq<Action>,
                                i: nat, j: nat, b: nat, list: seq<Id>)
    requires IsRun(hash, states, actions) && i < j < |actions| && b < |states[i].heads|
    requires actions[i] == Wake(b) && actions[j] == Sleep(b)
    requires forall x :: i < x < j ==> actions[x] != Sleep(b)
    requires IsChain(states[i].heap, states[i].heads[b], list)
    ensures b < |states[j].walkers| && states[j].walkers[b] == Walking(None, list)
    ensures NoDup(list) && Visits(actions, b, i, j) == |list|
  {
    WalkState(hash, states, actions, i, j, b, list);
    SleepsAtTheEnd(hash, states, actions, j, b);
  }

  /** Progress: a walker under way can always take its next step, and has at most |list| visits to make. */
  lemma TraversalProgress(hash: Key -> nat, states: seq<State>, actions: seq<Action>, i: nat, j: nat, b: nat,
                          list: seq<Id>)
    requires IsRun(hash, states, actions) && i < j < |states| && b < |states[i].heads|
    requires actions[i] == Wake(b) && forall x :: i < x < j ==> actions[x] != Sleep(b)
    requires IsChain(states[i].heap, states[i].heads[b], list)
    ensures Visits(actions, b, i, j) <= |list|
    ensures Enabled(states[j], Visit(b)) <==> Visits(actions, b, i, j) < |list|
    ensures Enabled(states[j], Sleep(b)) <==> Visits(actions, b, i, j) == |list|
    ensures Enabled(states[j], Visit(b)) ==> states[j].walkers[b].cursor.value in states[j].heap
  {
    WalkState(hash, states, actions, i, j, b, list);
  }

  /** A metric whose compare-and-swap came before the head read is among those visited. */
  lemma EarlierPushIsVisited(hash: Key -> nat, states: seq<State>, actions: seq<Action>, k: nat, i: nat, j: nat, b: nat)
    requires IsRun(hash, states, actions) && k < i < j < |actions| && b < |states[i].heads|
    requires Goes(hash, states, actions, k) && Casts(hash, states[k], actions[k])
    requires Shard(hash, |states[k].heads|, states[k].pcs[actions[k].t].key) == b
    requires actions[i] == Wake(b) && actions[j] == Sleep(b)
    requires forall x :: i < x < j ==> actions[x] != Sleep(b)
    ensures b < |states[j].walkers| && states[j].walkers[b].Walking?
    ensures NoDup(states[j].walkers[b].visited) && states[k].pcs[actions[k].t].m in states[j].walkers[b].visited
  {
    PushedStaysListed(hash, states, actions, k, i);
    ListExists(hash, states, actions, i, b);
    var list :| IsChain(states[i].heap, states[i].heads[b], list);
    ListIsShard(hash, states, actions, i, b, list);
    TraversalVisitsSnapshot(hash, states, actions, i, j, b, list);
  }
}
