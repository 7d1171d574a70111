/**
  The metric registry of src/metric.c and src/backend.c as a step system: any number of
  finder threads, one hash table with an atomic put-if-absent (src/ht.c), one lock-free
  list per backend, and one walker per backend. Every shared access of the source is a
  separate step, and steps of different threads interleave arbitrarily.
 */
module Registry {
  import opened Wrappers
  import opened Words

  type Key = string
  type Id = nat

  /** Program counter of a finder thread; each constructor names the access that comes next. */
  datatype Pc =
    | Idle
    | Lookup(key: Key)                                 // hashtable_find in brubeck_metric_find
    | Allocate(key: Key)                               // new_metric
    | Insert(key: Key, m: Id)                          // hashtable_insert
    | Refind(key: Key, m: Id)                          // hashtable_find after a lost insert
    | LoadHead(key: Key, m: Id)                        // next = self->queue
    | StoreNext(key: Key, m: Id, head: Option<Id>)     // metric->next = next
    | Swap(key: Key, m: Id, head: Option<Id>)          // compare and swap on self->queue
    | Count(key: Key, m: Id)                           // atomic increment of unique_keys
    | Returned(key: Key, result: Option<Id>)

  datatype Metric = Metric(key: Key, next: Option<Id>)

  /** The traversal loop of a backend thread; `visited` is the metrics it has reached so far. */
  datatype Walker = Asleep | Walking(cursor: Option<Id>, visited: seq<Id>)

  datatype State = State(
    heap: map<Id, Metric>,
    table: map<Key, Id>,
    heads: seq<Option<Id>>,
    pcs: seq<Pc>,
    walkers: seq<Walker>,
    uniqueKeys: nat)

  datatype Action =
    | Call(t: nat, key: Key)
    | CallNew(t: nat, key: Key)
    | DoLookup(t: nat, atCapacity: bool)
    | DoAllocate(t: nat, addr: Id)
    | DoInsert(t: nat)
    | DoRefind(t: nat)
    | DoLoadHead(t: nat)
    | DoStoreNext(t: nat)
    | DoSwap(t: nat)
    | DoCount(t: nat)
    | Leave(t: nat)
    | Wake(b: nat)
    | Visit(b: nat)
    | Sleep(b: nat)

  /** brubeck_metric_shard: `hash` stands for CityHash32, any deterministic function. */
  function Shard(hash: Key -> nat, backends: nat, key: Key): (b: nat)
    requires backends > 0
    ensures b < backends
  {
    if backends > 1 then hash(key) % backends else 0
  }

  predicate Shape(s: State) {
    |s.heads| > 0 && |s.walkers| == |s.heads|
  }

  /** Control only: which access a thread or walker is about to make. Memory safety is proved. */
  predicate Enabled(s: State, a: Action) {
    match a
    case Call(t, _) => t < |s.pcs| && s.pcs[t].Idle?
    case CallNew(t, _) => t < |s.pcs| && s.pcs[t].Idle?
    case DoLookup(t, _) => t < |s.pcs| && s.pcs[t].Lookup?
    case DoAllocate(t, addr) => t < |s.pcs| && s.pcs[t].Allocate? && addr !in s.heap
    case DoInsert(t) => t < |s.pcs| && s.pcs[t].Insert?
    case DoRefind(t) => t < |s.pcs| && s.pcs[t].Refind?
    case DoLoadHead(t) => t < |s.pcs| && s.pcs[t].LoadHead?
    case DoStoreNext(t) => t < |s.pcs| && s.pcs[t].StoreNext?
    case DoSwap(t) => t < |s.pcs| && s.pcs[t].Swap?
    case DoCount(t) => t < |s.pcs| && s.pcs[t].Count?
    case Leave(t) => t < |s.pcs| && s.pcs[t].Returned?
    case Wake(b) => b < |s.walkers| && s.walkers[b].Asleep?
    case Visit(b) => b < |s.walkers| && s.walkers[b].Walking? && s.walkers[b].cursor.Some?
    case Sleep(b) => b < |s.walkers| && s.walkers[b].Walking? && s.walkers[b].cursor.None?
  }

  /** What a store to `metric->next` does. */
  function Link(heap: map<Id, Metric>, m: Id, next: Option<Id>): map<Id, Metric> {
    if m in heap then heap[m := heap[m].(next := next)] else heap
  }

  function Get(table: map<Key, Id>, key: Key): Option<Id> {
    if key in table then Some(table[key]) else None
  }

  function Next(hash: Key -> nat, s: State, a: Action): (s': State)
    requires Shape(s) && Enabled(s, a)
    ensures Shape(s') && |s'.heads| == |s.heads| && |s'.pcs| == |s.pcs|
  {
    match a
    case Call(t, key) => s.(pcs := s.pcs[t := Lookup(key)])
    case CallNew(t, key) => s.(pcs := s.pcs[t := Allocate(key)])
    case DoLookup(t, atCapacity) =>
      var key := s.pcs[t].key;
      s.(pcs := s.pcs[t :=
        if key in s.table then Returned(key, Some(s.table[key]))
        else if atCapacity then Returned(key, None)
        else Allocate(key)])
    case DoAllocate(t, addr) =>
      var key := s.pcs[t].key;
      s.(heap := s.heap[addr := Metric(key, None)], pcs := s.pcs[t := Insert(key, addr)])
    case DoInsert(t) =>
      var Insert(key, m) := s.pcs[t];
      if key in s.table then s.(pcs := s.pcs[t := Refind(key, m)])
      else s.(table := s.table[key := m], pcs := s.pcs[t := LoadHead(key, m)])
    case DoRefind(t) =>
      var key := s.pcs[t].key;
      s.(pcs := s.pcs[t := Returned(key, Get(s.table, key))])
    case DoLoadHead(t) =>
      var LoadHead(key, m) := s.pcs[t];
      s.(pcs := s.pcs[t := StoreNext(key, m, s.heads[Shard(hash, |s.heads|, key)])])
    case DoStoreNext(t) =>
      var StoreNext(key, m, head) := s.pcs[t];
      s.(heap := Link(s.heap, m, head), pcs := s.pcs[t := Swap(key, m, head)])
    case DoSwap(t) =>
      var Swap(key, m, head) := s.pcs[t];
      var b := Shard(hash, |s.heads|, key);
      if s.heads[b] == head then s.(heads := s.heads[b := Some(m)], pcs := s.pcs[t := Count(key, m)])
      else s.(pcs := s.pcs[t := LoadHead(key, m)])
    case DoCount(t) =>
      var Count(key, m) := s.pcs[t];
      s.(uniqueKeys := (s.uniqueKeys + 1) % UINT32, pcs := s.pcs[t := Returned(key, Some(m))])
    case Leave(t) => s.(pcs := s.pcs[t := Idle])
    case Wake(b) => s.(walkers := s.walkers[b := Walking(s.heads[b], [])])
    case Visit(b) =>
      var Walking(cursor, visited) := s.walkers[b];
      var m := cursor.value;
      s.(walkers := s.walkers[b := Walking(if m in s.heap then s.heap[m].next else None, visited + [m])])
    case Sleep(b) => s.(walkers := s.walkers[b := Asleep])
  }

  /** The server before any request: empty table, empty lists, threads idle, walkers asleep. */
  predicate Init(s: State) {
    && Shape(s)
    && s.heap == map[] && s.table == map[] && s.uniqueKeys == 0
    && (forall b :: 0 <= b < |s.heads| ==> s.heads[b].None? && s.walkers[b].Asleep?)
    && (forall t :: 0 <= t < |s.pcs| ==> s.pcs[t].Idle?)
  }

  // ----- chains -----

  /** `s` is the list reached from `head` by following `next` to its end. */
  ghost predicate IsChain(heap: map<Id, Metric>, head: Option<Id>, s: seq<Id>)
    decreases |s|
  {
    if s == [] then head.None?
    else head == Some(s[0]) && s[0] in heap && IsChain(heap, heap[s[0]].next, s[1..])
  }

  ghost predicate NoDup(s: seq<Id>) {
    forall i, j :: 0 <= i < j < |s| ==> s[i] != s[j]
  }

  lemma {:induction false} ChainFrame(heap: map<Id, Metric>, heap': map<Id, Metric>, head: Option<Id>, s: seq<Id>)
    requires IsChain(heap, head, s)
    requires forall m :: m in s && m in heap ==> m in heap' && heap'[m].next == heap[m].next
    ensures IsChain(heap', head, s)
    decreases |s|
  {
    if s == [] {
    } else {
      assert s[0] in s;
      ChainFrame(heap, heap', heap[s[0]].next, s[1..]);
    }
  }

  /** A head pointer determines its list. */
  lemma {:induction false} ChainUnique(heap: map<Id, Metric>, head: Option<Id>, s: seq<Id>, r: seq<Id>)
    requires IsChain(heap, head, s) && IsChain(heap, head, r)
    ensures s == r
    decreases |s|
  {
    if s == [] || r == [] {
    } else {
      ChainUnique(heap, heap[s[0]].next, s[1..], r[1..]);
      assert s == [s[0]] + s[1..] && r == [r[0]] + r[1..];
    }
  }

  lemma ChainPush(heap: map<Id, Metric>, m: Id, s: seq<Id>)
    requires m in heap && IsChain(heap, heap[m].next, s) && NoDup(s) && m !in s
    ensures IsChain(heap, Some(m), [m] + s) && NoDup([m] + s)
  {
    assert ([m] + s)[1..] == s;
  }

  // ----- history: what the lists are, and what each walker saw when it woke -----

  datatype History = History(lists: seq<seq<Id>>, snaps: seq<seq<Id>>)

  ghost predicate Casts(hash: Key -> nat, s: State, a: Action)
    requires Shape(s) && Enabled(s, a)
  {
    a.DoSwap? && s.heads[Shard(hash, |s.heads|, s.pcs[a.t].key)] == s.pcs[a.t].head
  }

  ghost function Track(hash: Key -> nat, s: State, h: History, a: Action): (h': History)
    requires Shape(s) && Enabled(s, a) && |h.lists| == |h.snaps| == |s.heads|
    ensures |h'.lists| == |h'.snaps| == |s.heads|
  {
    if Casts(hash, s, a) then
      var b := Shard(hash, |s.heads|, s.pcs[a.t].key);
      h.(lists := h.lists[b := [s.pcs[a.t].m] + h.lists[b]])
    else if a.Wake? then
      h.(snaps := h.snaps[a.b := h.lists[a.b]])
    else h
  }

  // ----- the invariant -----

  /** Between a successful insert and a successful compare-and-swap. */
  predicate Pushing(pc: Pc) { pc.LoadHead? || pc.StoreNext? || pc.Swap? }

  /** Between a successful insert and the increment of unique_keys. */
  predicate Uncounted(pc: Pc) { Pushing(pc) || pc.Count? }

  /** Holds a metric that is in no list: allocated, lost the insert, or not pushed yet. */
  predicate Owner(pc: Pc) { pc.Insert? || pc.Refind? || Pushing(pc) }

  ghost predicate TableOk(s: State) {
    forall k :: k in s.table ==> s.table[k] in s.heap && s.heap[s.table[k]].key == k
  }

  ghost predicate PcOk(s: State, pc: Pc) {
    && (pc.Insert? ==> pc.m in s.heap && s.heap[pc.m].key == pc.key && Get(s.table, pc.key) != Some(pc.m))
    && (pc.Refind? ==> pc.key in s.table && s.table[pc.key] != pc.m && pc.m in s.heap && s.heap[pc.m].key == pc.key)
    && (Uncounted(pc) ==> Get(s.table, pc.key) == Some(pc.m))
    && (pc.Swap? ==> pc.m in s.heap && s.heap[pc.m].next == pc.head)
    && (pc.Returned? && pc.result.Some? ==> Get(s.table, pc.key) == pc.result)
  }

  ghost predicate ThreadsOk(s: State) {
    forall t :: 0 <= t < |s.pcs| ==> PcOk(s, s.pcs[t])
  }

  ghost predicate OwnersOk(s: State) {
    forall t, u :: 0 <= t < |s.pcs| && 0 <= u < |s.pcs| && t != u && Owner(s.pcs[t]) && Owner(s.pcs[u])
      ==> s.pcs[t].m != s.pcs[u].m
  }

  /** A metric that sits in list `b`: the table's metric for its key, on the right shard, not being pushed. */
  ghost predicate Listed(hash: Key -> nat, s: State, b: nat, m: Id)
    requires Shape(s)
  {
    && m in s.heap
    && Get(s.table, s.heap[m].key) == Some(m)
    && Shard(hash, |s.heads|, s.heap[m].key) == b
    && (forall t :: 0 <= t < |s.pcs| && Owner(s.pcs[t]) ==> s.pcs[t].m != m)
  }

  ghost predicate ListOk(hash: Key -> nat, s: State, b: nat, list: seq<Id>)
    requires Shape(s) && b < |s.heads|
  {
    && IsChain(s.heap, s.heads[b], list)
    && NoDup(list)
    && forall i :: 0 <= i < |list| ==> Listed(hash, s, b, list[i])
  }

  ghost predicate ListsOk(hash: Key -> nat, s: State, h: History)
    requires Shape(s) && |h.lists| == |s.heads|
  {
    forall b :: 0 <= b < |s.heads| ==> ListOk(hash, s, b, h.lists[b])
  }

  ghost predicate BeingPushed(s: State, m: Id) {
    exists t :: 0 <= t < |s.pcs| && Pushing(s.pcs[t]) && s.pcs[t].m == m
  }

  ghost predicate CoverOk(hash: Key -> nat, s: State, h: History)
    requires Shape(s) && |h.lists| == |s.heads|
  {
    forall k :: k in s.table ==> s.table[k] in h.lists[Shard(hash, |s.heads|, k)] || BeingPushed(s, s.table[k])
  }

  ghost predicate WalkOk(s: State, b: nat, list: seq<Id>, snap: seq<Id>)
    requires b < |s.walkers|
  {
    s.walkers[b].Walking? ==>
      && |snap| <= |list| && snap == list[|list| - |snap|..]
      && s.walkers[b].visited <= snap
      && IsChain(s.heap, s.walkers[b].cursor, snap[|s.walkers[b].visited|..])
  }

  ghost predicate WalksOk(s: State, h: History)
    requires Shape(s) && |h.lists| == |h.snaps| == |s.heads|
  {
    forall b :: 0 <= b < |s.walkers| ==> WalkOk(s, b, h.lists[b], h.snaps[b])
  }

  ghost function PushingSet(s: State): set<nat> { set t: nat | t < |s.pcs| && Pushing(s.pcs[t]) }

  ghost function UncountedSet(s: State): set<nat> { set t: nat | t < |s.pcs| && Uncounted(s.pcs[t]) }

  ghost function TotalLength(lists: seq<seq<Id>>): nat {
    if lists == [] then 0 else |lists[0]| + TotalLength(lists[1..])
  }

  ghost predicate CountsOk(s: State, h: History) {
    && |UncountedSet(s)| <= |s.table|
    && s.uniqueKeys == (|s.table| - |UncountedSet(s)|) % UINT32
    && TotalLength(h.lists) + |PushingSet(s)| == |s.table|
  }

  ghost predicate Inv(hash: Key -> nat, s: State, h: History) {
    && Shape(s) && |h.lists| == |h.snaps| == |s.heads|
    && TableOk(s) && ThreadsOk(s) && OwnersOk(s)
    && ListsOk(hash, s, h) && CoverOk(hash, s, h)
    && WalksOk(s, h) && CountsOk(s, h)
  }
}
