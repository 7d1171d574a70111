/**
  The pickling carbon backend (src/backends/carbon.c) as an event system: what it does with
  every sample, flush, connect and failed write, what its peer receives, and what is lost.
 */
module CarbonStream {
  import opened Pickle
  import opened Words

  const PICKLE_BUFFER_SIZE := 4096

  /** htonl */
  function Big32(n: nat): (b: seq<Byte>)
    requires n < UINT32
    ensures |b| == 4
  {
    var b := Bytes32(n);
    [b[3], b[2], b[1], b[0]]
  }

  /** The length prefix as the peer reads it. */
  function Prefix(stream: seq<Byte>): nat
    requires |stream| >= 4
  {
    Little32([stream[3], stream[2], stream[1], stream[0]])
  }

  /** `buf->pos` for the samples now in the buffer. */
  function Pos(xs: seq<Sample>): (pos: nat)
    ensures pos >= 8
  {
    if xs == [] then 8 else Pos(xs[..|xs| - 1]) + 26 + |xs[|xs| - 1].key|
  }

  /** What one flush hands to write_in_full. */
  function Frame(xs: seq<Sample>): seq<Byte>
    requires AllSamples(xs) && |Payload(xs)| < UINT32
  {
    Big32(|Payload(xs)|) + Payload(xs)
  }

  lemma {:induction false} EncodedLength(xs: seq<Sample>)
    requires AllSamples(xs)
    ensures |EncodeSamples(xs)| == Pos(xs) - 8 && |Payload(xs)| == Pos(xs) - 2
  {
    if xs == [] {
    } else {
      EncodedLength(xs[..|xs| - 1]);
    }
  }

  /** A batch that fits the buffer with its trailer. */
  predicate Fits(xs: seq<Sample>) {
    AllSamples(xs) && Pos(xs) + 2 < PICKLE_BUFFER_SIZE
  }

  function Packet(xs: seq<Sample>): (frame: seq<Byte>)
    requires Fits(xs)
    ensures |frame| == Pos(xs) + 2
  {
    EncodedLength(xs);
    Frame(xs)
  }

  // ----- the backend -----

  /**
    One TCP connection: the bytes its socket took, the batches it took whole and, when it
    broke, the batch it broke on. The last two are bookkeeping for the theorems.
   */
  datatype Conn = Conn(stream: seq<Byte>, batches: seq<seq<Sample>>, lost: seq<Sample>)

  datatype Carbon = Carbon(
    connected: bool,
    pending: seq<Sample>,
    conns: seq<Conn>,
    pushed: seq<Sample>,
    sent: nat)

  /** `taken` is how many bytes the socket takes before a write fails, if one fails. */
  datatype Event =
    | Connect(ok: bool)
    | Each(key: seq<Byte>, timestamp: nat, value: seq<Byte>, taken: nat)
    | Flush(taken: nat)

  predicate IsEvent(e: Event) {
    e.Each? ==> e.timestamp < UINT32 && |e.value| == 8
  }

  function LastConn(c: Carbon, conn: Conn): Carbon
    requires c.conns != []
  {
    c.(conns := c.conns[|c.conns| - 1 := conn])
  }

  /** What every operation relies on: room for the trailer, and an empty buffer when disconnected. */
  predicate Steady(c: Carbon) {
    && Fits(c.pending)
    && (c.connected ==> c.conns != [])
    && (!c.connected ==> c.pending == [])
  }

  /** carbon_connect */
  function ConnectNext(c: Carbon, ok: bool): Carbon {
    if c.connected || !ok then c
    else c.(connected := true, conns := c.conns + [Conn([], [], [])])
  }

  /** The state after a flush whose whole frame was taken. */
  function Whole(c: Carbon): Carbon
    requires Steady(c) && c.connected
  {
    var conn, frame := c.conns[|c.conns| - 1], Packet(c.pending);
    LastConn(c, conn.(stream := conn.stream + frame, batches := conn.batches + [c.pending]))
      .(pending := [], connected := true, sent := c.sent + |frame|)
  }

  /** The state after a flush that failed. */
  function Broken(c: Carbon, taken: nat): Carbon
    requires Steady(c) && c.connected && taken < |Packet(c.pending)|
  {
    var conn, frame := c.conns[|c.conns| - 1], Packet(c.pending);
    LastConn(c, conn.(stream := conn.stream + frame[..taken], lost := c.pending))
      .(pending := [], connected := false, sent := c.sent)
  }

  /** pickle1_flush: on failure the batch is dropped and the connection closed. */
  function FlushNext(c: Carbon, taken: nat): Carbon
    requires Steady(c)
  {
    if c.pending == [] || !c.connected then c
    else if taken >= |Packet(c.pending)| then Whole(c)
    else Broken(c, taken)
  }

  /** The key as pickle1_each passes it on: its length is cut to eight bits. */
  function CutKey(key: seq<Byte>): (k: seq<Byte>)
    ensures |k| < 256 && k <= key
  {
    key[..|key| % 256]
  }

  /** pickle1_each */
  function EachNext(c: Carbon, key: seq<Byte>, timestamp: nat, value: seq<Byte>, taken: nat): Carbon
    requires Steady(c)
  {
    var k := CutKey(key);
    var c1 := if Pos(c.pending) + 32 + |k| >= PICKLE_BUFFER_SIZE then FlushNext(c, taken) else c;
    if !c1.connected then c1
    else
      var x := Sample(k, timestamp, value);
      c1.(pending := c1.pending + [x], pushed := c1.pushed + [x])
  }

  function Next(c: Carbon, e: Event): Carbon
    requires Steady(c)
  {
    match e
    case Connect(ok) => ConnectNext(c, ok)
    case Each(key, timestamp, value, taken) => EachNext(c, key, timestamp, value, taken)
    case Flush(taken) => FlushNext(c, taken)
  }

  const START := Carbon(false, [], [], [], 0)

  // ----- invariant -----

  ghost predicate AllFit(batches: seq<seq<Sample>>) {
    forall i :: 0 <= i < |batches| ==> batches[i] != [] && Fits(batches[i])
  }

  ghost function Packets(batches: seq<seq<Sample>>): seq<Byte>
    requires AllFit(batches)
  {
    if batches == [] then [] else Packets(batches[..|batches| - 1]) + Packet(batches[|batches| - 1])
  }

  /** Whole frames, then, if the connection broke, part of one more frame and nothing after it. */
  ghost predicate ConnOk(conn: Conn) {
    && AllFit(conn.batches)
    && Fits(conn.lost)
    && (conn.lost == [] ==> conn.stream == Packets(conn.batches))
    && (conn.lost != [] ==>
          && |Packets(conn.batches)| <= |conn.stream| < |Packets(conn.batches)| + |Packet(conn.lost)|
          && conn.stream == Packets(conn.batches) + Packet(conn.lost)[..|conn.stream| - |Packets(conn.batches)|])
  }

  ghost function Flat(batches: seq<seq<Sample>>): seq<Sample> {
    if batches == [] then [] else Flat(batches[..|batches| - 1]) + batches[|batches| - 1]
  }

  /** All samples that left the buffer, connection by connection: delivered, then lost. */
  ghost function Gone(conns: seq<Conn>): seq<Sample> {
    if conns == [] then []
    else Gone(conns[..|conns| - 1]) + Flat(conns[|conns| - 1].batches) + conns[|conns| - 1].lost
  }

  ghost function Sent(conns: seq<Conn>): nat
    requires forall i :: 0 <= i < |conns| ==> ConnOk(conns[i])
  {
    if conns == [] then 0
    else
      assert ConnOk(conns[|conns| - 1]);
      Sent(conns[..|conns| - 1]) + |Packets(conns[|conns| - 1].batches)|
  }

  ghost predicate Inv(c: Carbon) {
    && Steady(c)
    && (c.connected ==> c.conns[|c.conns| - 1].lost == [])
    && (forall i :: 0 <= i < |c.conns| ==> ConnOk(c.conns[i]))
    && c.pushed == Gone(c.conns) + c.pending
    && c.sent == Sent(c.conns)
  }

  lemma {:induction false} PosPush(xs: seq<Sample>, x: Sample)
    ensures Pos(xs + [x]) == Pos(xs) + 26 + |x.key|
  {
    assert (xs + [x])[..|xs|] == xs;
  }

  lemma {:induction false} PacketsPush(batches: seq<seq<Sample>>, xs: seq<Sample>)
    requires AllFit(batches) && xs != [] && Fits(xs)
    ensures AllFit(batches + [xs]) && Packets(batches + [xs]) == Packets(batches) + Packet(xs)
    ensures Flat(batches + [xs]) == Flat(batches) + xs
  {
    assert (batches + [xs])[..|batches|] == batches;
  }

  lemma {:induction false} ConnectInv(c: Carbon, ok: bool)
    requires Inv(c)
    ensures Inv(ConnectNext(c, ok))
  {
    var c' := ConnectNext(c, ok);
    if c' != c {
      var fresh' := Conn([], [], []);
      assert ConnOk(fresh') && c'.conns[..|c.conns|] == c.conns;
      assert Gone(c'.conns) == Gone(c.conns);
      assert Sent(c'.conns) == Sent(c.conns);
    }
  }

  /** Replacing the last connection only changes its own contribution. */
  lemma {:induction false} LastConnParts(c: Carbon, conn: Conn)
    requires c.conns != [] && (forall i :: 0 <= i < |c.conns| ==> ConnOk(c.conns[i])) && ConnOk(conn)
    ensures var conns := LastConn(c, conn).conns; var init := c.conns[..|c.conns| - 1];
            && (forall i :: 0 <= i < |conns| ==> ConnOk(conns[i]))
            && Gone(conns) == Gone(init) + Flat(conn.batches) + conn.lost
            && Sent(conns) == Sent(init) + |Packets(conn.batches)|
  {
    var conns := LastConn(c, conn).conns;
    assert conns[..|conns| - 1] == c.conns[..|c.conns| - 1];
  }

  lemma {:induction false} ConnTakes(conn: Conn, xs: seq<Sample>)
    requires ConnOk(conn) && conn.lost == [] && xs != [] && Fits(xs)
    ensures ConnOk(conn.(stream := conn.stream + Packet(xs), batches := conn.batches + [xs]))
    ensures Packets(conn.batches + [xs]) == Packets(conn.batches) + Packet(xs)
    ensures Flat(conn.batches + [xs]) == Flat(conn.batches) + xs
  {
    PacketsPush(conn.batches, xs);
  }

  lemma {:induction false} ConnBreaks(conn: Conn, xs: seq<Sample>, taken: nat)
    requires ConnOk(conn) && conn.lost == [] && xs != [] && Fits(xs) && taken < |Packet(xs)|
    ensures ConnOk(conn.(stream := conn.stream + Packet(xs)[..taken], lost := xs))
  {
  }

  lemma {:induction false} Regroup(a: seq<Sample>, b: seq<Sample>, c: seq<Sample>, b': seq<Sample>, c': seq<Sample>)
    requires b + c == b' + c'
    ensures a + b + [] + c == a + b' + c' + []
  {
    assert a + b + [] + c == a + (b + c);
    assert a + b' + c' + [] == a + (b' + c');
  }

  /** Emptying the buffer into the last connection keeps the accounts. */
  lemma {:induction false} MoveToLast(c: Carbon, conn': Conn, connected: bool, sent: nat)
    requires Inv(c) && c.connected && ConnOk(conn') && (connected ==> conn'.lost == [])
    requires var conn := c.conns[|c.conns| - 1];
             && ConnOk(conn)
             && Flat(conn'.batches) + conn'.lost == Flat(conn.batches) + c.pending
             && sent == c.sent - |Packets(conn.batches)| + |Packets(conn'.batches)|
    ensures Inv(LastConn(c, conn').(pending := [], connected := connected, sent := sent))
  {
    var conn := c.conns[|c.conns| - 1];
    var init := c.conns[..|c.conns| - 1];
    LastConnParts(c, conn);
    assert LastConn(c, conn).conns == c.conns;
    LastConnParts(c, conn');
    Regroup(Gone(init), Flat(conn.batches), c.pending, Flat(conn'.batches), conn'.lost);
    assert conn.lost == [] && c.pushed == Gone(init) + Flat(conn.batches) + [] + c.pending;
  }

  lemma {:induction false} WholeInv(c: Carbon)
    requires Inv(c) && c.pending != [] && c.connected
    ensures Inv(Whole(c))
  {
    var conn, frame := c.conns[|c.conns| - 1], Packet(c.pending);
    assert ConnOk(conn);
    ConnTakes(conn, c.pending);
    MoveToLast(c, conn.(stream := conn.stream + frame, batches := conn.batches + [c.pending]), true, c.sent + |frame|);
  }

  lemma {:induction false} BrokenInv(c: Carbon, taken: nat)
    requires Inv(c) && c.pending != [] && c.connected && taken < |Packet(c.pending)|
    ensures Inv(Broken(c, taken))
  {
    var conn, frame := c.conns[|c.conns| - 1], Packet(c.pending);
    assert ConnOk(conn);
    ConnBreaks(conn, c.pending, taken);
    MoveToLast(c, conn.(stream := conn.stream + frame[..taken], lost := c.pending), false, c.sent);
  }

  lemma {:induction false} FlushFrame(c: Carbon, taken: nat)
    requires Steady(c)
    ensures var c' := FlushNext(c, taken); c'.pushed == c.pushed && (c'.connected ==> c'.pending == [])
    ensures FlushNext(c, taken).connected ==> c.connected
  {
  }

  lemma {:induction false} FlushInv(c: Carbon, taken: nat)
    requires Inv(c)
    ensures Inv(FlushNext(c, taken))
    ensures var c' := FlushNext(c, taken); c'.pushed == c.pushed && (c'.connected ==> c'.pending == [])
  {
    FlushFrame(c, taken);
    if c.pending == [] || !c.connected {
    } else if taken >= |Packet(c.pending)| {
      WholeInv(c);
    } else {
      BrokenInv(c, taken);
    }
  }

  predicate HasRoom(xs: seq<Sample>, x: Sample) {
    IsSample(x) && (Pos(xs) + 32 + |x.key| < PICKLE_BUFFER_SIZE || xs == [])
  }

  lemma {:induction false} PushFits(xs: seq<Sample>, x: Sample)
    requires Fits(xs) && HasRoom(xs, x)
    ensures Fits(xs + [x])
  {
    PosPush(xs, x);
  }

  lemma {:induction false} PushInv(c: Carbon, x: Sample)
    requires Inv(c) && c.connected && HasRoom(c.pending, x)
    ensures Inv(c.(pending := c.pending + [x], pushed := c.pushed + [x]))
  {
    PushFits(c.pending, x);
  }

  lemma {:induction false} EachInv(c: Carbon, key: seq<Byte>, timestamp: nat, value: seq<Byte>, taken: nat)
    requires Inv(c) && timestamp < UINT32 && |value| == 8
    ensures Inv(EachNext(c, key, timestamp, value, taken))
  {
    var k := CutKey(key);
    FlushInv(c, taken);
    var c1 := if Pos(c.pending) + 32 + |k| >= PICKLE_BUFFER_SIZE then FlushNext(c, taken) else c;
    if c1.connected { PushInv(c1, Sample(k, timestamp, value)); }
  }

  lemma {:induction false} NextInv(c: Carbon, e: Event)
    requires Inv(c) && IsEvent(e)
    ensures Inv(Next(c, e))
  {
    match e
    case Connect(ok) => ConnectInv(c, ok);
    case Flush(taken) => FlushInv(c, taken);
    case Each(key, timestamp, value, taken) => EachInv(c, key, timestamp, value, taken);
  }

  ghost predicate AllEvents(events: seq<Event>) {
    forall i :: 0 <= i < |events| ==> IsEvent(events[i])
  }

  /** The state after a run of events. */
  ghost function After(events: seq<Event>): (c: Carbon)
    requires AllEvents(events)
    ensures Inv(c)
  {
    if events == [] then START
    else
      var c := After(events[..|events| - 1]);
      NextInv(c, events[|events| - 1]);
      Next(c, events[|events| - 1])
  }

  lemma {:induction false} AfterPush(events: seq<Event>, e: Event)
    requires AllEvents(events) && IsEvent(e)
    ensures AllEvents(events + [e]) && After(events + [e]) == Next(After(events), e)
  {
    assert (events + [e])[..|events|] == events;
  }

  /** A flush leaves nothing pending: it was written, lost, or there was no connection to begin with. */
  lemma {:induction false} FlushEmpties(events: seq<Event>, taken: nat)
    requires AllEvents(events)
    ensures Next(After(events), Flush(taken)).pending == []
  {
  }

  // ----- which samples enter the buffer -----

  function SampleOf(e: Event): Sample
    requires e.Each?
  {
    Sample(CutKey(e.key), e.timestamp, e.value)
  }

  /** pickle1_each keeps its sample: there is a connection, and the flush that makes room, if any, goes through. */
  predicate Keeps(c: Carbon, e: Event)
    requires Steady(c) && e.Each?
  {
    c.connected && (Pos(c.pending) + 32 + |CutKey(e.key)| >= PICKLE_BUFFER_SIZE ==> e.taken >= |Packet(c.pending)|)
  }

  lemma {:induction false} EachPushes(c: Carbon, e: Event)
    requires Steady(c) && e.Each?
    ensures Next(c, e).pushed == if Keeps(c, e) then c.pushed + [SampleOf(e)] else c.pushed
    ensures Next(c, e).connected <==> Keeps(c, e)
  {
    FlushFrame(c, e.taken);
  }

  /** The samples handed over in a run that were kept, or those that were not. */
  ghost function Handed(events: seq<Event>, kept: bool): seq<Sample>
    requires AllEvents(events)
  {
    if events == [] then []
    else
      var before, e := events[..|events| - 1], events[|events| - 1];
      Handed(before, kept) + if e.Each? && Keeps(After(before), e) == kept then [SampleOf(e)] else []
  }

  /** What is ever in the accounts are exactly the samples that were kept, in order. */
  lemma {:induction false} PushedAreKept(events: seq<Event>)
    requires AllEvents(events)
    ensures After(events).pushed == Handed(events, true)
    decreases |events|
  {
    if events == [] {
    } else {
      var before, e := events[..|events| - 1], events[|events| - 1];
      PushedAreKept(before);
      if e.Each? {
        EachPushes(After(before), e);
      } else {
        QuietPushes(After(before), e);
      }
    }
  }

  lemma {:induction false} QuietPushes(c: Carbon, e: Event)
    requires Steady(c) && !e.Each?
    ensures Next(c, e).pushed == c.pushed
  {
  }

  ghost function AllHanded(events: seq<Event>): seq<Sample> {
    if events == [] then []
    else
      var e := events[|events| - 1];
      AllHanded(events[..|events| - 1]) + if e.Each? then [SampleOf(e)] else []
  }

  /** Kept or dropped, every sample handed over is one or the other. */
  lemma {:induction false} KeptOrDropped(events: seq<Event>)
    requires AllEvents(events)
    ensures multiset(AllHanded(events)) == multiset(Handed(events, true)) + multiset(Handed(events, false))
    decreases |events|
  {
    if events == [] {
    } else {
      KeptOrDropped(events[..|events| - 1]);
    }
  }

  // ----- the peer -----

  /** Reads length-prefixed pickles for as long as a whole one is there. */
  function Receive(stream: seq<Byte>): seq<Outcome>
    decreases |stream|
  {
    if |stream| < 4 || |stream| < 4 + Prefix(stream) then []
    else [Load(stream[4..4 + Prefix(stream)])] + Receive(stream[4 + Prefix(stream)..])
  }

  ghost function BatchOutcomes(batches: seq<seq<Sample>>): (r: seq<Outcome>)
    ensures |r| == |batches|
    ensures forall i :: 0 <= i < |batches| ==> r[i] == Done(List(SampleValues(batches[i])), [])
  {
    seq(|batches|, i requires 0 <= i < |batches| => Done(List(SampleValues(batches[i])), []))
  }

  lemma {:induction false} PacketParts(xs: seq<Sample>, rest: seq<Byte>)
    requires Fits(xs)
    ensures var s := Packet(xs) + rest; var n := |Payload(xs)|;
            && |s| >= 4 + n && Prefix(s) == n && s[4..4 + n] == Payload(xs) && s[4 + n..] == rest
            && |Packet(xs)| == 4 + n
  {
    EncodedLength(xs);
    var b := Bytes32(|Payload(xs)|);
    assert Packet(xs) == [b[3], b[2], b[1], b[0]] + Payload(xs);
    var s := Packet(xs) + rest;
    assert [s[3], s[2], s[1], s[0]] == b;
  }

  lemma {:induction false} ReceivePacket(xs: seq<Sample>, rest: seq<Byte>)
    requires Fits(xs)
    ensures Receive(Packet(xs) + rest) == [Done(List(SampleValues(xs)), [])] + Receive(rest)
  {
    PacketParts(xs, rest);
    LoadPayload(xs);
  }

  /** Part of a frame yields nothing. */
  lemma {:induction false} ReceivePartial(xs: seq<Sample>, n: nat)
    requires Fits(xs) && n < |Packet(xs)|
    ensures Receive(Packet(xs)[..n]) == []
  {
    PacketParts(xs, []);
    var s := Packet(xs)[..n];
    assert Packet(xs) + [] == Packet(xs);
    if n >= 4 {
      assert s[..4] == Packet(xs)[..4];
      assert Prefix(s) == Prefix(Packet(xs));
    }
  }

  lemma {:induction false} BatchOutcomesPush(batches: seq<seq<Sample>>, rest: seq<Outcome>)
    requires batches != []
    ensures BatchOutcomes(batches) + rest == BatchOutcomes(batches[..|batches| - 1])
              + ([Done(List(SampleValues(batches[|batches| - 1])), [])] + rest)
  {
  }

  lemma {:induction false} LastPacket(batches: seq<seq<Sample>>, rest: seq<Byte>)
    requires AllFit(batches) && batches != []
    ensures Fits(batches[|batches| - 1]) && AllFit(batches[..|batches| - 1])
    ensures Packets(batches) + rest == Packets(batches[..|batches| - 1]) + (Packet(batches[|batches| - 1]) + rest)
  {
  }

  lemma {:induction false} ReceivePackets(batches: seq<seq<Sample>>, rest: seq<Byte>)
    requires AllFit(batches)
    ensures Receive(Packets(batches) + rest) == BatchOutcomes(batches) + Receive(rest)
    decreases |batches|
  {
    if batches == [] {
      assert Packets(batches) + rest == rest;
      assert BatchOutcomes(batches) + Receive(rest) == Receive(rest);
    } else {
      var init, xs := batches[..|batches| - 1], batches[|batches| - 1];
      LastPacket(batches, rest);
      ReceivePackets(init, Packet(xs) + rest);
      ReceivePacket(xs, rest);
      BatchOutcomesPush(batches, Receive(rest));
    }
  }

  lemma {:induction false} ReceiveConn(conn: Conn)
    requires ConnOk(conn)
    ensures Receive(conn.stream) == BatchOutcomes(conn.batches)
  {
    var whole := Packets(conn.batches);
    var tail := conn.stream[|whole|..];
    assert conn.stream == whole + tail;
    ReceivePackets(conn.batches, tail);
    if conn.lost == [] {
      assert tail == [];
    } else {
      assert tail == Packet(conn.lost)[..|tail|];
      ReceivePartial(conn.lost, |tail|);
    }
    assert BatchOutcomes(conn.batches) + [] == BatchOutcomes(conn.batches);
  }

  /**
    Over every run of samples, flushes, connects and failed writes: the peer of each
    connection reads back exactly the batches that went through whole, never a damaged one;
    those, the batch lost on each broken connection and the buffer make up, in order, the
    samples that were kept; and the samples dropped on arrival are the rest of what was handed over.
   */
  lemma {:induction false} NothingElseIsLost(events: seq<Event>)
    requires AllEvents(events)
    ensures var c := After(events);
            && (forall i :: 0 <= i < |c.conns| ==> Receive(c.conns[i].stream) == BatchOutcomes(c.conns[i].batches))
            && c.pushed == Handed(events, true) == Gone(c.conns) + c.pending
            && multiset(AllHanded(events)) == multiset(Gone(c.conns) + c.pending) + multiset(Handed(events, false))
  {
    var c := After(events);
    forall i | 0 <= i < |c.conns| ensures Receive(c.conns[i].stream) == BatchOutcomes(c.conns[i].batches) {
      ReceiveConn(c.conns[i]);
    }
    PushedAreKept(events);
    KeptOrDropped(events);
  }

  /** The buffer always has room: frames never exceed 4091 bytes, and the memo counter never wraps. */
  lemma {:induction false} BufferBounds(events: seq<Event>)
    requires AllEvents(events)
    ensures var c := After(events);
            && Pos(c.pending) + 2 <= 4091
            && 1 + 3 * |c.pending| < 0x1_0000
            && (!c.connected ==> c.pending == [])
    decreases |events|
  {
    if events == [] {
    } else {
      var c, e := After(events[..|events| - 1]), events[|events| - 1];
      BufferBounds(events[..|events| - 1]);
      NextBound(c, e);
    }
    CountBound(After(events).pending);
  }

  lemma {:induction false} CountBound(xs: seq<Sample>)
    ensures Pos(xs) >= 8 + 26 * |xs|
  {
    if xs == [] {
    } else {
      CountBound(xs[..|xs| - 1]);
    }
  }

  lemma {:induction false} NextBound(c: Carbon, e: Event)
    requires Inv(c) && IsEvent(e) && Pos(c.pending) + 2 <= 4091
    ensures Pos(Next(c, e).pending) + 2 <= 4091
  {
    match e
    case Connect(_) =>
    case Flush(taken) => FlushInv(c, taken);
    case Each(key, timestamp, value, taken) =>
      FlushInv(c, taken);
      PosPush(c.pending, Sample(CutKey(key), timestamp, value));
      PosPush([], Sample(CutKey(key), timestamp, value));
      assert [] + [Sample(CutKey(key), timestamp, value)] == [Sample(CutKey(key), timestamp, value)];
  }

  /** A key arrives whole exactly when it is at most 255 bytes long; else its front, short by a multiple of 256. */
  lemma KeyExact(key: seq<Byte>)
    ensures CutKey(key) == key <==> |key| <= 255
    ensures CutKey(key) <= key && |CutKey(key)| < 256 && (|key| - |CutKey(key)|) % 256 == 0
  {
    if |key| <= 255 { assert key[..|key|] == key; }
  }
}
