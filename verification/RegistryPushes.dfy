/**
  The compare-and-swap loop of brubeck_backend_register_metric: a head that looks unchanged
  is unchanged, and a retry means that another creator has got through.
 */
module RegistryPushes {
  import opened Registry
  import opened RegistrySafety
  import opened RegistryRuns
  import opened Wrappers

  ghost predicate PushesOn(hash: Key -> nat, s: State, a: Action, b: nat)
    requires Shape(s) && Enabled(s, a)
  {
    Casts(hash, s, a) && Shard(hash, |s.heads|, s.pcs[a.t].key) == b
  }

  /** Step x of the run pushes onto list b. */
  ghost predicate PushAt(hash: Key -> nat, states: seq<State>, actions: seq<Action>, b: nat, x: nat)
    requires |states| == |actions| + 1 && x < |actions|
  {
    Goes(hash, states, actions, x) && PushesOn(hash, states[x], actions[x], b)
  }

  ghost predicate NoPush(hash: Key -> nat, states: seq<State>, actions: seq<Action>, b: nat, i: nat, j: nat)
    requires |states| == |actions| + 1 && i <= j <= |actions|
  {
    forall x :: i <= x < j ==> !PushAt(hash, states, actions, b, x)
  }

  lemma {:induction false} StepHead(hash: Key -> nat, s: State, a: Action, b: nat)
    requires Shape(s) && Enabled(s, a) && b < |s.heads| && !PushesOn(hash, s, a, b)
    ensures Next(hash, s, a).heads[b] == s.heads[b]
  {
  }

  lemma {:induction false} TrackLength(hash: Key -> nat, s: State, h: History, a: Action, b: nat)
    requires Shape(s) && Enabled(s, a) && |h.lists| == |h.snaps| == |s.heads| && b < |s.heads|
    ensures |Track(hash, s, h, a).lists[b]| == |h.lists[b]| + if PushesOn(hash, s, a, b) then 1 else 0
  {
  }

  lemma {:induction false} HeadKept(hash: Key -> nat, states: seq<State>, actions: seq<Action>, i: nat, j: nat, b: nat)
    requires IsRun(hash, states, actions) && i <= j < |states| && b < |states[i].heads|
    requires NoPush(hash, states, actions, b, i, j)
    ensures |states[j].heads| == |states[i].heads| && states[j].heads[b] == states[i].heads[b]
    decreases j
  {
    if i == j {
    } else {
      HeadKept(hash, states, actions, i, j - 1, b);
      assert Goes(hash, states, actions, j - 1);
      assert !PushAt(hash, states, actions, b, j - 1);
      StepHead(hash, states[j - 1], actions[j - 1], b);
    }
  }

  ghost function LengthAt(hash: Key -> nat, states: seq<State>, actions: seq<Action>, i: nat, b: nat): nat
    requires IsRun(hash, states, actions) && i < |states| && b < |states[i].heads|
  {
    |HistoryAt(hash, states, actions, i).lists[b]|
  }

  lemma {:induction false} StepLength(hash: Key -> nat, states: seq<State>, actions: seq<Action>, i: nat, b: nat)
    requires IsRun(hash, states, actions) && i < |actions| && b < |states[i].heads|
    ensures |states[i + 1].heads| == |states[i].heads|
    ensures LengthAt(hash, states, actions, i + 1, b) ==
            LengthAt(hash, states, actions, i, b) + if PushAt(hash, states, actions, b, i) then 1 else 0
  {
    RunStep(hash, states, actions, i);
    assert Goes(hash, states, actions, i);
    TrackLength(hash, states[i], HistoryAt(hash, states, actions, i), actions[i], b);
  }

  /** Lists only grow, and grow whenever something is pushed. */
  lemma {:induction false} LengthGrows(hash: Key -> nat, states: seq<State>, actions: seq<Action>, i: nat, j: nat,
                                       b: nat)
    requires IsRun(hash, states, actions) && i <= j < |states| && b < |states[i].heads|
    ensures |states[j].heads| == |states[i].heads|
    ensures LengthAt(hash, states, actions, i, b) <= LengthAt(hash, states, actions, j, b)
    ensures LengthAt(hash, states, actions, i, b) == LengthAt(hash, states, actions, j, b) ==>
              NoPush(hash, states, actions, b, i, j)
    decreases j
  {
    if i == j {
    } else {
      LengthGrows(hash, states, actions, i, j - 1, b);
      StepLength(hash, states, actions, j - 1, b);
    }
  }

  /** A list stays a chain from its old head, whatever is pushed in front of it. */
  lemma {:induction false} ChainStays(hash: Key -> nat, states: seq<State>, actions: seq<Action>,
                                      i: nat, j: nat, b: nat, list: seq<Id>)
    requires IsRun(hash, states, actions) && i <= j < |states| && Shape(states[i]) && b < |states[i].heads|
    requires ListOk(hash, states[i], b, list)
    ensures IsChain(states[j].heap, states[i].heads[b], list)
  {
    forall m | m in list && m in states[i].heap
      ensures m in states[j].heap && states[j].heap[m].next == states[i].heap[m].next
    {
      var n :| 0 <= n < |list| && list[n] == m;
      assert Listed(hash, states[i], b, m);
      RunListed(hash, states, actions, i, j, b, m);
    }
    ChainFrame(states[i].heap, states[j].heap, states[i].heads[b], list);
  }

  lemma {:induction false} RunList(hash: Key -> nat, states: seq<State>, actions: seq<Action>, i: nat, b: nat)
    requires IsRun(hash, states, actions) && i < |states| && b < |states[i].heads|
    ensures Shape(states[i]) && ListOk(hash, states[i], b, HistoryAt(hash, states, actions, i).lists[b])
  {
    var h := RunInv(hash, states, actions, i);
  }

  lemma {:induction false} SameHeadSameList(hash: Key -> nat, states: seq<State>, actions: seq<Action>,
                                            i: nat, j: nat, b: nat)
    requires IsRun(hash, states, actions) && i <= j < |states| && b < |states[i].heads|
    requires |states[j].heads| == |states[i].heads| && states[j].heads[b] == states[i].heads[b]
    ensures LengthAt(hash, states, actions, i, b) == LengthAt(hash, states, actions, j, b)
  {
    var before := HistoryAt(hash, states, actions, i).lists[b];
    var after := HistoryAt(hash, states, actions, j).lists[b];
    RunList(hash, states, actions, i, b);
    RunList(hash, states, actions, j, b);
    ChainStays(hash, states, actions, i, j, b, before);
    ChainUnique(states[j].heap, states[j].heads[b], before, after);
  }

  /**
    Between any two states of a run, a backend's head is the same if and only if nothing was
    pushed onto its list: no head ever comes back.
   */
  lemma {:induction false} HeadSameExactlyWhen(hash: Key -> nat, states: seq<State>, actions: seq<Action>,
                                               i: nat, j: nat, b: nat)
    requires IsRun(hash, states, actions) && i <= j < |states| && b < |states[i].heads|
    ensures |states[j].heads| == |states[i].heads|
    ensures states[j].heads[b] == states[i].heads[b] <==> NoPush(hash, states, actions, b, i, j)
  {
    LengthGrows(hash, states, actions, i, j, b);
    if states[j].heads[b] == states[i].heads[b] {
      SameHeadSameList(hash, states, actions, i, j, b);
    }
    if NoPush(hash, states, actions, b, i, j) {
      HeadKept(hash, states, actions, i, j, b);
    }
  }

  // ----- one round of the loop -----

  /** Thread t holds the head it read, on its way to the compare-and-swap. */
  predicate Holds(s: State, t: nat, key: Key, m: Id, head: Option<Id>) {
    t < |s.pcs| && (s.pcs[t] == StoreNext(key, m, head) || s.pcs[t] == Swap(key, m, head))
  }

  lemma {:induction false} StepHolds(hash: Key -> nat, s: State, a: Action, t: nat, key: Key, m: Id, head: Option<Id>)
    requires Shape(s) && Enabled(s, a) && Holds(s, t, key, m, head) && a != DoSwap(t)
    ensures Holds(Next(hash, s, a), t, key, m, head)
  {
    StepLocal(hash, s, a);
  }

  /** Step i reads the head, step j tries to swap it, and thread t tries nothing in between. */
  ghost predicate Attempt(hash: Key -> nat, states: seq<State>, actions: seq<Action>, t: nat, i: nat, j: nat) {
    && IsRun(hash, states, actions) && i < j < |actions|
    && actions[i] == DoLoadHead(t) && actions[j] == DoSwap(t)
    && forall x :: i < x < j ==> actions[x] != DoSwap(t)
  }

  lemma {:induction false} AttemptHolds(hash: Key -> nat, states: seq<State>, actions: seq<Action>,
                                        t: nat, i: nat, j: nat, k: nat)
    requires Attempt(hash, states, actions, t, i, j) && i < k <= j
    ensures Shape(states[i]) && t < |states[i].pcs| && states[i].pcs[t].LoadHead?
    ensures var pc := states[i].pcs[t];
            Holds(states[k], t, pc.key, pc.m, states[i].heads[Shard(hash, |states[i].heads|, pc.key)])
    decreases k
  {
    RunStep(hash, states, actions, i);
    if k == i + 1 {
    } else {
      AttemptHolds(hash, states, actions, t, i, j, k - 1);
      RunStep(hash, states, actions, k - 1);
      var pc := states[i].pcs[t];
      StepHolds(hash, states[k - 1], actions[k - 1], t, pc.key, pc.m,
                states[i].heads[Shard(hash, |states[i].heads|, pc.key)]);
    }
  }

  /** The backend that the attempt is about. */
  ghost function Target(hash: Key -> nat, states: seq<State>, actions: seq<Action>, t: nat, i: nat, j: nat): (b: nat)
    requires Attempt(hash, states, actions, t, i, j)
    ensures b < |states[i].heads|
  {
    RunStep(hash, states, actions, i);
    Shard(hash, |states[i].heads|, states[i].pcs[t].key)
  }

  /** A compare-and-swap succeeds if and only if nothing was pushed onto the list since the head was read. */
  lemma {:induction false} SwapSucceedsExactlyWhen(hash: Key -> nat, states: seq<State>, actions: seq<Action>,
                                                   t: nat, i: nat, j: nat)
    requires Attempt(hash, states, actions, t, i, j)
    ensures var b := Target(hash, states, actions, t, i, j);
            PushAt(hash, states, actions, b, j) <==> NoPush(hash, states, actions, b, i, j)
  {
    var b := Target(hash, states, actions, t, i, j);
    AttemptHolds(hash, states, actions, t, i, j, j);
    assert Goes(hash, states, actions, j);
    HeadSameExactlyWhen(hash, states, actions, i, j, b);
  }

  /** So no attempt fails without another thread's success on the same list in the meantime. */
  lemma {:induction false} RetryMeansProgress(hash: Key -> nat, states: seq<State>, actions: seq<Action>,
                                              t: nat, i: nat, j: nat) returns (x: nat)
    requires Attempt(hash, states, actions, t, i, j)
    requires !PushAt(hash, states, actions, Target(hash, states, actions, t, i, j), j)
    ensures i < x < j && PushAt(hash, states, actions, Target(hash, states, actions, t, i, j), x)
    ensures actions[x].DoSwap? && actions[x].t != t
  {
    var b := Target(hash, states, actions, t, i, j);
    SwapSucceedsExactlyWhen(hash, states, actions, t, i, j);
    x :| i <= x < j && PushAt(hash, states, actions, b, x);
  }
}
