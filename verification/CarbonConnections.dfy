/** When the carbon backend is connected, and what each of its writes does, over whole runs. */
module CarbonConnections {
  import opened Pickle
  import opened CarbonStream
  import opened Wrappers

  /** This event makes the backend write its buffer out: a flush, or a sample for which there is no room. */
  predicate Writes(c: Carbon, e: Event) {
    && c.pending != []
    && (e.Flush? || (e.Each? && Pos(c.pending) + 32 + |CutKey(e.key)| >= PICKLE_BUFFER_SIZE))
  }

  /** And the socket does not take all of it. */
  predicate Fails(c: Carbon, e: Event)
    requires Fits(c.pending)
  {
    Writes(c, e) && e.taken < |Packet(c.pending)|
  }

  lemma {:induction false} EmptyHasRoom(key: seq<Byte>)
    ensures Pos([]) + 32 + |CutKey(key)| < PICKLE_BUFFER_SIZE
  {
  }

  /** One event: a connect that succeeds connects, a write that fails disconnects, and nothing else does either. */
  lemma {:induction false} NextConnected(c: Carbon, e: Event)
    requires Steady(c)
    ensures Next(c, e).connected <==> e == Connect(true) || (c.connected && !Fails(c, e))
  {
    if e.Each? {
      EmptyHasRoom(e.key);
      EachPushes(c, e);
    }
  }

  ghost predicate FailsAt(events: seq<Event>, k: nat)
    requires AllEvents(events) && k < |events|
  {
    Fails(After(events[..k]), events[k])
  }

  /** Event i connects, and no write after it fails. */
  ghost predicate ConnectedSince(events: seq<Event>, i: nat)
    requires AllEvents(events)
  {
    i < |events| && events[i] == Connect(true) && forall k :: i < k < |events| ==> !FailsAt(events, k)
  }

  /** Turned on at i, and not turned off since. */
  predicate TurnedOn(ups: seq<bool>, downs: seq<bool>, i: nat, n: nat)
    requires |ups| == |downs| && n <= |ups|
  {
    i < n && ups[i] && forall k :: i < k < n ==> !downs[k]
  }

  predicate IsLatch(on: seq<bool>, ups: seq<bool>, downs: seq<bool>) {
    && |ups| == |downs| && |on| == |ups| + 1 && !on[0]
    && forall k :: 0 <= k < |ups| ==> on[k + 1] == (ups[k] || (on[k] && !downs[k]))
  }

  lemma {:induction false} LatchOn(on: seq<bool>, ups: seq<bool>, downs: seq<bool>, n: nat) returns (i: nat)
    requires IsLatch(on, ups, downs) && n <= |ups| && on[n]
    ensures TurnedOn(ups, downs, i, n)
  {
    if ups[n - 1] {
      i := n - 1;
    } else {
      i := LatchOn(on, ups, downs, n - 1);
    }
  }

  lemma {:induction false} LatchStays(on: seq<bool>, ups: seq<bool>, downs: seq<bool>, i: nat, n: nat)
    requires IsLatch(on, ups, downs) && n <= |ups| && TurnedOn(ups, downs, i, n)
    ensures on[n]
  {
    if n == i + 1 {
    } else {
      LatchStays(on, ups, downs, i, n - 1);
    }
  }

  ghost function Ons(events: seq<Event>): seq<bool>
    requires AllEvents(events)
  {
    seq(|events| + 1, k requires 0 <= k <= |events| => After(events[..k]).connected)
  }

  ghost function Ups(events: seq<Event>): seq<bool> {
    seq(|events|, k requires 0 <= k < |events| => events[k] == Connect(true))
  }

  ghost function Downs(events: seq<Event>): seq<bool>
    requires AllEvents(events)
  {
    seq(|events|, k requires 0 <= k < |events| => FailsAt(events, k))
  }

  lemma {:induction false} OnStep(events: seq<Event>, k: nat)
    requires AllEvents(events) && k < |events|
    ensures After(events[..k + 1]).connected
       <==> events[k] == Connect(true) || (After(events[..k]).connected && !FailsAt(events, k))
  {
    assert events[..k + 1] == events[..k] + [events[k]];
    AfterPush(events[..k], events[k]);
    NextConnected(After(events[..k]), events[k]);
  }

  lemma {:induction false} OnIsLatch(events: seq<Event>)
    requires AllEvents(events)
    ensures IsLatch(Ons(events), Ups(events), Downs(events)) && Ons(events)[|events|] == After(events).connected
  {
    assert events[..|events|] == events && events[..0] == [];
    forall k | 0 <= k < |events|
      ensures Ons(events)[k + 1] == (Ups(events)[k] || (Ons(events)[k] && !Downs(events)[k]))
    {
      OnStep(events, k);
    }
  }

  lemma {:induction false} SinceIsTurnedOn(events: seq<Event>, i: nat)
    requires AllEvents(events)
    ensures ConnectedSince(events, i) <==> TurnedOn(Ups(events), Downs(events), i, |events|)
  {
    assert forall k :: 0 <= k < |events| ==> Downs(events)[k] == FailsAt(events, k);
  }

  lemma {:induction false} ConnectedHasSince(events: seq<Event>) returns (i: nat)
    requires AllEvents(events) && After(events).connected
    ensures ConnectedSince(events, i)
  {
    OnIsLatch(events);
    i := LatchOn(Ons(events), Ups(events), Downs(events), |events|);
    SinceIsTurnedOn(events, i);
  }

  lemma {:induction false} SinceIsConnected(events: seq<Event>, i: nat)
    requires AllEvents(events) && ConnectedSince(events, i)
    ensures After(events).connected
  {
    OnIsLatch(events);
    SinceIsTurnedOn(events, i);
    LatchStays(Ons(events), Ups(events), Downs(events), i, |events|);
  }

  /**
    After any run the backend is connected if and only if some connect has succeeded and no
    write has failed since.
   */
  lemma {:induction false} ConnectedExactlyWhen(events: seq<Event>)
    requires AllEvents(events)
    ensures After(events).connected <==> exists i: nat :: ConnectedSince(events, i)
  {
    if After(events).connected {
      var i := ConnectedHasSince(events);
    }
    forall i: nat | ConnectedSince(events, i) ensures After(events).connected {
      SinceIsConnected(events, i);
    }
  }

  /** A successful connect always leads to a connection: the open one, or one new and empty; nothing else changes. */
  lemma {:induction false} ConnectConnects(events: seq<Event>)
    requires AllEvents(events)
    ensures AllEvents(events + [Connect(true)])
    ensures var c, c' := After(events), After(events + [Connect(true)]);
            && c'.connected
            && c'.conns == (if c.connected then c.conns else c.conns + [Conn([], [], [])])
            && c'.pending == c.pending && c'.pushed == c.pushed && c'.sent == c.sent
  {
    AfterPush(events, Connect(true));
  }

  /** A failed connect changes nothing. */
  lemma {:induction false} FailedConnect(events: seq<Event>)
    requires AllEvents(events)
    ensures AllEvents(events + [Connect(false)]) && After(events + [Connect(false)]) == After(events)
  {
    AfterPush(events, Connect(false));
  }

  /** What has gone out on the connection in use. */
  ghost function LastStream(c: Carbon): seq<Byte>
    requires c.conns != []
  {
    c.conns[|c.conns| - 1].stream
  }

  /**
    A write puts the frame of everything pending on the connection in use, or the part that the
    socket took; either way the buffer is empty.
   */
  lemma {:induction false} WriteSends(c: Carbon, e: Event)
    requires Steady(c) && c.connected && e.Flush? && Writes(c, e)
    ensures var c' := Next(c, e); var frame := Packet(c.pending);
            && |c'.conns| == |c.conns| && c'.pending == []
            && c'.conns[..|c.conns| - 1] == c.conns[..|c.conns| - 1]
            && LastStream(c') == LastStream(c) + (if Fails(c, e) then frame[..e.taken] else frame)
            && c'.sent == c.sent + (if Fails(c, e) then 0 else |frame|)
  {
  }

  lemma {:induction false} WriteBatches(c: Carbon, e: Event)
    requires Steady(c) && c.connected && e.Flush? && Writes(c, e)
    ensures var c' := Next(c, e); var batches := c.conns[|c.conns| - 1].batches;
            && |c'.conns| == |c.conns|
            && c'.conns[|c.conns| - 1].batches == if Fails(c, e) then batches else batches + [c.pending]
  {
  }

  lemma {:induction false} LastReceived(c: Carbon)
    requires Inv(c) && c.conns != []
    ensures Receive(LastStream(c)) == BatchOutcomes(c.conns[|c.conns| - 1].batches)
  {
    ReceiveConn(c.conns[|c.conns| - 1]);
  }

  /** The peer reads one more batch, the one that was pending, or no more. */
  lemma {:induction false} WriteIsReceived(c: Carbon, e: Event)
    requires Inv(c) && c.connected && e.Flush? && Writes(c, e)
    ensures Next(c, e).conns != []
    ensures Receive(LastStream(Next(c, e))) ==
            Receive(LastStream(c)) + if Fails(c, e) then [] else [Done(List(SampleValues(c.pending)), [])]
  {
    var c' := Next(c, e);
    NextInvFlush(c, e);
    WriteBatches(c, e);
    LastReceived(c);
    LastReceived(c');
    OutcomesAfter(c.conns[|c.conns| - 1].batches, c'.conns[|c'.conns| - 1].batches, c.pending, Fails(c, e));
  }

  lemma {:induction false} OutcomesAfter(batches: seq<seq<Sample>>, batches': seq<seq<Sample>>,
                                         xs: seq<Sample>, lost: bool)
    requires batches' == if lost then batches else batches + [xs]
    ensures BatchOutcomes(batches') == BatchOutcomes(batches) + if lost then [] else [Done(List(SampleValues(xs)), [])]
  {
    OutcomesMore(batches, xs);
    assert BatchOutcomes(batches) + [] == BatchOutcomes(batches);
  }

  lemma {:induction false} NextInvFlush(c: Carbon, e: Event)
    requires Inv(c) && e.Flush?
    ensures Inv(Next(c, e))
  {
    FlushInv(c, e.taken);
  }

  lemma {:induction false} OutcomesMore(batches: seq<seq<Sample>>, xs: seq<Sample>)
    ensures BatchOutcomes(batches + [xs]) == BatchOutcomes(batches) + [Done(List(SampleValues(xs)), [])]
  {
  }
}
