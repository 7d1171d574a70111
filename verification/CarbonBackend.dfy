/**
  The pickling carbon backend as it is written: a fixed buffer, two 16-bit cursors and a
  socket that takes short writes. Every method is proved to do what `CarbonStream` says.
 */
module CarbonBackend {
  import opened Pickle
  import opened CarbonStream
  import opened Words

  type Uint16 = x: int | 0 <= x < 0x1_0000

  /** A connected socket; `taken` is every byte it has accepted. */
  class Socket {
    var taken: seq<Byte>

    constructor ()
      ensures taken == []
    {
      taken := [];
    }

    /** xwrite: takes any part of the buffer from the front, or fails. */
    method Xwrite(buf: array<Byte>, off: nat, len: nat) returns (nr: int)
      requires off + len <= buf.Length
      modifies this
      ensures nr <= len
      ensures taken == old(taken) + buf[off..off + if nr > 0 then nr else 0]
    {
      nr :| -1 <= nr <= len;
      if nr > 0 {
        taken := taken + buf[off..off + nr];
      }
    }
  }

  /**
    write_in_full: either all of `buf[..count]` goes out and its length is returned, or the
    result is negative and strictly less than that has gone out.
   */
  method WriteInFull(sock: Socket, buf: array<Byte>, count: nat) returns (total: int, ghost taken: nat)
    requires count <= buf.Length
    modifies sock
    ensures taken <= count && sock.taken == old(sock.taken) + buf[..taken]
    ensures total < 0 ==> taken < count
    ensures total >= 0 ==> total == count == taken
  {
    var p, left := 0, count;
    total := 0;
    while left > 0
      invariant 0 <= p <= count && left == count - p && total == p
      invariant sock.taken == old(sock.taken) + buf[..p]
    {
      var written := sock.Xwrite(buf, p, left);
      if written < 0 {
        return -1, p;
      }
      if written == 0 {
        return -1, p;
      }
      assert buf[..p] + buf[p..p + written] == buf[..p + written];
      left := left - written;
      p := p + written;
      total := total + written;
    }
    taken := count;
  }

  /** memcpy into the buffer. */
  method Copy(buf: array<Byte>, at: nat, bytes: seq<Byte>)
    requires at + |bytes| <= buf.Length
    modifies buf
    ensures buf[..at + |bytes|] == old(buf[..at]) + bytes
    ensures forall i :: 0 <= i < buf.Length && !(at <= i < at + |bytes|) ==> buf[i] == old(buf[i])
  {
    for i := 0 to |bytes|
      invariant forall j :: 0 <= j < i ==> buf[at + j] == bytes[j]
      invariant forall j :: 0 <= j < buf.Length && !(at <= j < at + i) ==> buf[j] == old(buf[j])
    {
      buf[at + i] := bytes[i];
    }
    assert forall i :: at <= i < at + |bytes| ==> buf[i] == bytes[i - at];
  }

  class Backend {
    const buf: array<Byte>
    var pos: Uint16
    var pt: Uint16
    var sock: Socket?
    var sent: nat
    ghost var model: Carbon

    ghost predicate Valid()
      reads this, buf, sock
    {
      && buf.Length == PICKLE_BUFFER_SIZE
      && Steady(model) && sent == model.sent
      && Buffered(model.pending)
      && (sock != null <==> model.connected)
      && (sock != null ==> sock.taken == model.conns[|model.conns| - 1].stream)
    }

    /** The buffer and both cursors hold exactly the pending samples. */
    ghost predicate Buffered(pending: seq<Sample>)
      reads this, buf
      requires AllSamples(pending) && buf.Length == PICKLE_BUFFER_SIZE
    {
      && pos == Pos(pending) <= PICKLE_BUFFER_SIZE
      && pt == 1 + 3 * |pending|
      && buf[4..pos] == LEAD + EncodeSamples(pending)
    }

    constructor ()
      ensures Valid() && model == START && fresh(buf)
    {
      buf := new Byte[PICKLE_BUFFER_SIZE];
      sock := null;
      sent := 0;
      model := START;
      pos := 8;
      pt := 1;
      new;
      Init();
    }

    /** pickle1_init */
    method Init()
      requires buf.Length == PICKLE_BUFFER_SIZE
      modifies this`pos, this`pt, buf
      ensures Buffered([])
    {
      Copy(buf, 4, LEAD);
      assert buf[4..8] == buf[..8][4..] == LEAD;
      pos := 4 + |LEAD|;
      pt := 1;
    }

    /** pickle1_push */
    method Push(key: seq<Byte>, keyLen: nat, timestamp: nat, value: seq<Byte>)
      requires keyLen <= |key| && keyLen < 256 && timestamp < UINT32 && |value| == 8
      requires buf.Length == PICKLE_BUFFER_SIZE && pos + 26 + keyLen <= PICKLE_BUFFER_SIZE && pt + 3 < 0x1_0000
      modifies this`pos, this`pt, buf
      ensures pos == old(pos) + 26 + keyLen && pt == old(pt) + 3
      ensures buf[..pos] == old(buf[..pos]) + EncodeSample(Sample(key[..keyLen], timestamp, value), old(pt))
    {
      SampleBytes(buf[..pos], Sample(key[..keyLen], timestamp, value), pt);
      var ptr := PushKey(pos, key[..keyLen]);
      pt := pt + 1;
      ptr := PushPoint(ptr, timestamp, value);
      pt := pt + 1;
      Copy(buf, ptr, [TUPLE, BINPUT, pt % 256]);
      pt := pt + 1;
      pos := ptr + 3;
    }

    method PushKey(at: nat, key: seq<Byte>) returns (ptr: nat)
      requires |key| < 256 && at + 5 + |key| <= buf.Length
      modifies buf
      ensures ptr == at + 5 + |key|
      ensures buf[..ptr] == old(buf[..at]) + EncodeKey(key, pt)
    {
      ghost var start := buf[..at];
      ptr := at;
      Copy(buf, ptr, [MARK]);
      ptr := ptr + 1;
      Copy(buf, ptr, [SHORT_BINSTRING, |key|] + key);
      ptr := ptr + 2 + |key|;
      Copy(buf, ptr, [BINPUT, pt % 256]);
      ptr := ptr + 2;
      assert buf[..ptr] == start + EncodeKey(key, pt);
    }

    method PushPoint(at: nat, timestamp: nat, value: seq<Byte>) returns (ptr: nat)
      requires timestamp < UINT32 && |value| == 8 && at + 18 <= buf.Length
      modifies buf
      ensures ptr == at + 18
      ensures buf[..ptr] == old(buf[..at]) + EncodePoint(timestamp, value, pt)
    {
      ghost var start := buf[..at];
      ptr := at;
      Copy(buf, ptr, [MARK]);
      ptr := ptr + 1;
      Copy(buf, ptr, EncodeInt(timestamp));
      ptr := ptr + 5;
      Copy(buf, ptr, EncodeDouble(value));
      ptr := ptr + 9;
      Copy(buf, ptr, [TUPLE, BINPUT, pt % 256]);
      ptr := ptr + 3;
      assert buf[..ptr] == start + EncodePoint(timestamp, value, pt);
    }

    /** carbon_connect; `ok` is whether the operating system grants the connection. */
    method Connect(ok: bool) returns (rc: int)
      requires Valid()
      modifies this
      ensures Valid() && model == ConnectNext(old(model), ok)
      ensures rc == 0 <==> model.connected
      ensures sock == old(sock) || fresh(sock)
    {
      if sock != null {
        return 0;
      }
      if ok {
        sock := new Socket();
        model := ConnectNext(model, ok);
        return 0;
      }
      return -1;
    }

    /** The first half of pickle1_flush: trailer and length prefix complete the frame. */
    method Seal(ghost pending: seq<Sample>)
      requires buf.Length == PICKLE_BUFFER_SIZE && Fits(pending) && Buffered(pending)
      modifies this`pos, buf
      ensures pos <= buf.Length && buf[..pos] == Packet(pending)
    {
      EncodedLength(pending);
      ghost var end, body := pos, buf[..pos];
      Copy(buf, pos, TRAIL);
      pos := pos + |TRAIL|;
      assert buf[4..pos] == Payload(pending) by {
        assert buf[4..pos] == buf[..pos][4..] == body[4..] + TRAIL;
      }
      ghost var payload := buf[4..pos];
      Copy(buf, 0, Big32(pos - 4));
      assert buf[..4] == Big32(pos - 4);
      assert buf[4..pos] == payload;
      assert buf[..pos] == buf[..4] + buf[4..pos];
    }

    /** The rest of it: write the frame out and start over with an empty buffer. */
    method Ship(out: Socket, ghost pending: seq<Sample>) returns (wr: int, ghost taken: nat)
      requires buf.Length == PICKLE_BUFFER_SIZE && Fits(pending) && Buffered(pending)
      modifies this`pos, this`pt, buf, out
      ensures Buffered([])
      ensures var frame := Packet(pending);
              && taken <= |frame| && out.taken == old(out.taken) + frame[..taken]
              && (wr < 0 ==> taken < |frame|)
              && (wr >= 0 ==> wr == |frame| == taken && out.taken == old(out.taken) + frame)
    {
      Seal(pending);
      ghost var frame := buf[..pos];
      wr, taken := WriteInFull(out, buf, pos);
      assert buf[..taken] == frame[..taken];
      assert frame[..|frame|] == frame;
      Init();
    }

    /** pickle1_flush; `taken` reports how much of the frame the socket took. */
    method Flush() returns (ghost taken: nat)
      requires Valid()
      modifies this, buf, sock
      ensures Valid() && model == FlushNext(old(model), taken)
      ensures sock == old(sock) || sock == null
    {
      if pt == 1 || sock == null {
        taken := 0;
        return;
      }
      ghost var c := model;
      var wr;
      wr, taken := Ship(sock, c.pending);
      FlushShape(c, taken);
      model := FlushNext(c, taken);
      if wr < 0 {
        sock := null;
        return;
      }
      sent := sent + wr;
    }

    method PushBuffered(key: seq<Byte>, keyLen: nat, tickTime: nat, value: seq<Byte>, ghost pending: seq<Sample>)
      requires keyLen <= |key| && keyLen < 256 && tickTime < UINT32 && |value| == 8
      requires buf.Length == PICKLE_BUFFER_SIZE && AllSamples(pending) && Buffered(pending)
      requires pos + 26 + keyLen <= PICKLE_BUFFER_SIZE && pt + 3 < 0x1_0000
      modifies this`pos, this`pt, buf
      ensures AllSamples(pending + [Sample(key[..keyLen], tickTime, value)])
      ensures Buffered(pending + [Sample(key[..keyLen], tickTime, value)])
    {
      ghost var x := Sample(key[..keyLen], tickTime, value);
      ghost var body, code := buf[..pos], EncodeSample(x, pt);
      assert body[4..] == LEAD + EncodeSamples(pending);
      EncodeSamplesPush(pending, x);
      PosPush(pending, x);
      Push(key, keyLen, tickTime, value);
      BodyPush(body, EncodeSamples(pending), code);
      assert buf[4..pos] == buf[..pos][4..];
    }

    /** The tail of pickle1_each: a connected backend with room takes the sample. */
    method Append(key: seq<Byte>, keyLen: nat, tickTime: nat, value: seq<Byte>)
      requires Valid() && sock != null && keyLen <= |key| && keyLen < 256 && tickTime < UINT32 && |value| == 8
      requires pos + 32 + keyLen < PICKLE_BUFFER_SIZE || model.pending == []
      modifies this, buf
      ensures var x := Sample(key[..keyLen], tickTime, value); var c := old(model);
              Valid() && model == c.(pending := c.pending + [x], pushed := c.pushed + [x]) && sock == old(sock)
    {
      ghost var x := Sample(key[..keyLen], tickTime, value);
      CountBound(model.pending);
      PushFits(model.pending, x);
      PushBuffered(key, keyLen, tickTime, value, model.pending);
      model := model.(pending := model.pending + [x], pushed := model.pushed + [x]);
    }

    /** pickle1_each; `key` is the text before the terminating NUL, `tickTime` the backend's tick_time. */
    method Each(key: seq<Byte>, tickTime: nat, value: seq<Byte>) returns (ghost taken: nat)
      requires Valid() && tickTime < UINT32 && |value| == 8
      modifies this, buf, sock
      ensures Valid() && model == EachNext(old(model), key, tickTime, value, taken)
      ensures sock == old(sock) || sock == null
    {
      var keyLen := |key| % 256;
      taken := 0;
      if pos + (32 + keyLen) >= PICKLE_BUFFER_SIZE {
        taken := Flush();
      }
      if sock == null {
        return;
      }
      Append(key, keyLen, tickTime, value);
    }

    /** What the backend has done so far is this run of `CarbonStream`. */
    ghost predicate Follows(events: seq<Event>)
      reads this, buf, sock
    {
      Valid() && AllEvents(events) && model == After(events)
    }

    method ConnectNow(ok: bool, ghost events: seq<Event>) returns (rc: int)
      requires Follows(events)
      modifies this
      ensures Follows(events + [Event.Connect(ok)])
      ensures rc == 0 <==> After(events + [Event.Connect(ok)]).connected
      ensures rc != 0 ==> model.pending == []
      ensures sock == old(sock) || fresh(sock)
    {
      AfterPush(events, Event.Connect(ok));
      rc := Connect(ok);
    }

    method EachNow(sample: (seq<Byte>, seq<Byte>), tickTime: nat, ghost events: seq<Event>) returns (ghost e: Event)
      requires Follows(events) && tickTime < UINT32 && |sample.1| == 8
      modifies this, buf, sock
      ensures IsEach(e, sample, tickTime) && Follows(events + [e])
      ensures sock == old(sock) || sock == null
    {
      ghost var taken := Each(sample.0, tickTime, sample.1);
      e := Event.Each(sample.0, tickTime, sample.1, taken);
      AfterPush(events, e);
    }

    method FlushNow(ghost events: seq<Event>) returns (ghost e: Event)
      requires Follows(events)
      modifies this, buf, sock
      ensures e.Flush? && Follows(events + [e]) && model.pending == []
      ensures sock == old(sock) || sock == null
    {
      ghost var taken := Flush();
      e := Event.Flush(taken);
      AfterPush(events, e);
      FlushEmpties(events, taken);
    }

    /** The samples of one traversal, in order. */
    method EachOf(samples: seq<(seq<Byte>, seq<Byte>)>, tickTime: nat, ghost events: seq<Event>)
      returns (ghost done: seq<Event>)
      requires Follows(events) && tickTime < UINT32 && forall i :: 0 <= i < |samples| ==> |samples[i].1| == 8
      modifies this, buf, sock
      ensures Follows(events + done) && AreEach(done, samples, tickTime)
      ensures sock == old(sock) || sock == null
    {
      done := [];
      assert events + done == events;
      for i := 0 to |samples|
        invariant Follows(events + done) && AreEach(done, samples[..i], tickTime)
        invariant sock == old(sock) || sock == null
      {
        ghost var e := EachNow(samples[i], tickTime, events + done);
        AreEachPush(done, samples, i, e, tickTime);
        Regrouped(events, done, e);
        done := done + [e];
      }
      assert samples[..|samples|] == samples;
    }

    /**
      One round of backend__thread: connect, hand over every sampled value, flush. It extends
      the backend's run, and leaves nothing pending.
     */
    method Cycle(round: Round, ghost events: seq<Event>) returns (ghost part: seq<Event>)
      requires Follows(events) && IsRound(round)
      modifies this, buf, sock
      ensures Follows(events + part) && IsPart(events, round, part) && model.pending == []
      ensures sock == old(sock) || sock == null || fresh(sock)
    {
      ghost var connect := Event.Connect(round.ok);
      ghost var start, more := events + [connect], [];
      var rc := ConnectNow(round.ok, events);
      if rc == 0 {
        ghost var done := EachOf(round.samples, round.tickTime, start);
        ghost var e := FlushNow(start + done);
        Regrouped(start, done, e);
        more := done + [e];
      }
      part := [connect] + more;
      PartFrom(events, round, connect, more);
      PartAfter(events, connect, more);
    }
  }

  // ----- the life of a backend -----

  /** What one round finds: whether a connect would succeed, the time, and what the walk samples. */
  datatype Round = Round(ok: bool, tickTime: nat, samples: seq<(seq<Byte>, seq<Byte>)>)

  predicate IsRound(r: Round) {
    r.tickTime < UINT32 && forall i :: 0 <= i < |r.samples| ==> |r.samples[i].1| == 8
  }

  /** The events of a round after its connect: one per sample and a flush, or none without a connection. */
  ghost predicate IsRest(start: seq<Event>, r: Round, more: seq<Event>) {
    && AllEvents(start)
    && if After(start).connected then
         && |more| == |r.samples| + 1 && more[|r.samples|].Flush?
         && AreEach(more[..|r.samples|], r.samples, r.tickTime)
       else more == []
  }

  /** The events of a round that comes after the events `before`. */
  ghost predicate IsPart(before: seq<Event>, r: Round, part: seq<Event>) {
    part != [] && part[0] == Event.Connect(r.ok) && IsRest(before + [part[0]], r, part[1..])
  }

  lemma {:induction false} PartFrom(before: seq<Event>, r: Round, connect: Event, more: seq<Event>)
    requires connect == Event.Connect(r.ok) && IsRest(before + [connect], r, more)
    ensures IsPart(before, r, [connect] + more)
  {
    assert ([connect] + more)[1..] == more;
  }

  lemma {:induction false} PartAfter(before: seq<Event>, connect: Event, more: seq<Event>)
    ensures before + ([connect] + more) == before + [connect] + more
    ensures more == [] ==> before + ([connect] + more) == before + [connect]
  {
  }

  ghost function AllOf(parts: seq<seq<Event>>): seq<Event> {
    if parts == [] then [] else AllOf(parts[..|parts| - 1]) + parts[|parts| - 1]
  }

  /** One part for each round, in order. */
  ghost predicate IsLife(rounds: seq<Round>, parts: seq<seq<Event>>) {
    if rounds == [] || parts == [] then rounds == [] && parts == []
    else
      var n, k := |rounds| - 1, |parts| - 1;
      IsLife(rounds[..n], parts[..k]) && IsPart(AllOf(parts[..k]), rounds[n], parts[k])
  }

  lemma {:induction false} LifePush(rounds: seq<Round>, i: nat, parts: seq<seq<Event>>, part: seq<Event>)
    requires i < |rounds| && IsLife(rounds[..i], parts) && IsPart(AllOf(parts), rounds[i], part)
    ensures IsLife(rounds[..i + 1], parts + [part]) && AllOf(parts + [part]) == AllOf(parts) + part
  {
    assert rounds[..i + 1][..i] == rounds[..i] && (parts + [part])[..|parts|] == parts;
  }

  /** One more round of a backend of one's own. */
  method OneMore(b: Backend, rounds: seq<Round>, i: nat, ghost parts: seq<seq<Event>>) returns (ghost part: seq<Event>)
    requires i < |rounds| && IsRound(rounds[i]) && b.Follows(AllOf(parts)) && IsLife(rounds[..i], parts)
    modifies b, b.buf, b.sock
    ensures b.Follows(AllOf(parts + [part])) && IsLife(rounds[..i + 1], parts + [part]) && b.model.pending == []
    ensures b.sock == old(b.sock) || b.sock == null || fresh(b.sock)
  {
    part := b.Cycle(rounds[i], AllOf(parts));
    LifePush(rounds, i, parts, part);
  }

  /**
    backend__thread from its start, over any sequence of rounds: all that the backend does is
    one run of `CarbonStream`, made of these rounds, with nothing pending between them.
   */
  method Live(rounds: seq<Round>) returns (b: Backend, ghost parts: seq<seq<Event>>)
    requires forall i :: 0 <= i < |rounds| ==> IsRound(rounds[i])
    ensures fresh(b) && b.Follows(AllOf(parts)) && IsLife(rounds, parts) && b.model.pending == []
  {
    b := new Backend();
    parts := [];
    for i := 0 to |rounds|
      invariant fresh(b) && fresh(b.buf) && (b.sock != null ==> fresh(b.sock))
      invariant b.Follows(AllOf(parts)) && b.model.pending == [] && IsLife(rounds[..i], parts)
    {
      ghost var part := OneMore(b, rounds, i, parts);
      parts := parts + [part];
    }
    assert rounds[..|rounds|] == rounds;
  }

  /** So whatever a life's rounds handed over was delivered, lost with a connection, or dropped on arrival. */
  lemma {:induction false} LifeAccounts(events: seq<Event>)
    requires AllEvents(events) && After(events).pending == []
    ensures var conns := After(events).conns;
            multiset(AllHanded(events)) == multiset(Gone(conns)) + multiset(Handed(events, false))
  {
    NothingElseIsLost(events);
    assert Gone(After(events).conns) + [] == Gone(After(events).conns);
  }

  /** The parts of an encoded sample, one after the other. */
  lemma {:induction false} SampleBytes(start: seq<Byte>, x: Sample, pt: nat)
    requires IsSample(x)
    ensures start + EncodeKey(x.key, pt) + EncodePoint(x.timestamp, x.value, pt + 1) + [TUPLE, BINPUT, (pt + 2) % 256]
         == start + EncodeSample(x, pt)
  {
    Reassociate(start, EncodeKey(x.key, pt), EncodePoint(x.timestamp, x.value, pt + 1),
                [TUPLE, BINPUT, (pt + 2) % 256]);
  }

  lemma {:induction false} Reassociate(a: seq<Byte>, b: seq<Byte>, c: seq<Byte>, d: seq<Byte>)
    ensures a + b + c + d == a + (b + c + d)
  {
  }

  lemma {:induction false} BodyPush(body: seq<Byte>, encoded: seq<Byte>, code: seq<Byte>)
    requires |body| >= 4 && body[4..] == LEAD + encoded
    ensures (body + code)[4..] == LEAD + (encoded + code)
  {
    assert (body + code)[4..] == body[4..] + code;
  }

  /** One event per sample, in order. */
  ghost predicate AreEach(events: seq<Event>, samples: seq<(seq<Byte>, seq<Byte>)>, tickTime: nat) {
    |events| == |samples| && forall i :: 0 <= i < |samples| ==> IsEach(events[i], samples[i], tickTime)
  }

  lemma {:induction false} AreEachPush(events: seq<Event>, samples: seq<(seq<Byte>, seq<Byte>)>, i: nat, e: Event,
                                       tickTime: nat)
    requires i < |samples| && AreEach(events, samples[..i], tickTime) && IsEach(e, samples[i], tickTime)
    ensures AreEach(events + [e], samples[..i + 1], tickTime)
  {
  }

  lemma {:induction false} Regrouped(a: seq<Event>, b: seq<Event>, e: Event)
    ensures a + b + [e] == a + (b + [e]) && (b + [e])[..|b|] == b
  {
  }

  predicate IsEach(e: Event, sample: (seq<Byte>, seq<Byte>), tickTime: nat) {
    e.Each? && e.key == sample.0 && e.value == sample.1 && e.timestamp == tickTime
  }

  /** What a flush that has something to send changes. */
  lemma {:induction false} FlushShape(c: Carbon, taken: nat)
    requires Fits(c.pending) && c.pending != [] && c.connected && c.conns != [] && taken <= |Packet(c.pending)|
    ensures var c' := FlushNext(c, taken); var frame := Packet(c.pending);
            && c'.pending == [] && |c'.conns| == |c.conns|
            && c'.connected == (taken == |frame|)
            && c'.conns[|c'.conns| - 1].stream == c.conns[|c.conns| - 1].stream + frame[..taken]
            && c'.sent == c.sent + if taken == |frame| then |frame| else 0
  {
    assert Packet(c.pending)[..|Packet(c.pending)|] == Packet(c.pending);
  }
}
