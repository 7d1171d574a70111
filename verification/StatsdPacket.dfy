/** brubeck_statsd_packet_parse: one packet, split at its newlines and parsed in place. */
module StatsdPacket {
  import Arith
  import opened StatsdGrammar
  import opened StatsdSampler
  import opened Wrappers
  import opened Words

  /** memchr for a newline, or the length. */
  function LineEnd(s: string): (n: nat)
    ensures n <= |s| && (n < |s| ==> s[n] == '\n') && forall i :: 0 <= i < n ==> s[i] != '\n'
  {
    if s == [] || s[0] == '\n' then 0 else 1 + LineEnd(s[1..])
  }

  /** The newline-separated segments; a final newline ends the last one. */
  function Segments(s: string): seq<string> {
    if s == [] then []
    else
      var n := LineEnd(s);
      [s[..n]] + if n < |s| then Segments(s[n + 1..]) else []
  }

  function Join(segs: seq<string>): string {
    if segs == [] then [] else if |segs| == 1 then segs[0] else segs[0] + ['\n'] + Join(segs[1..])
  }

  predicate EndsInNewline(s: string) { s != [] && s[|s| - 1] == '\n' }

  lemma {:induction false} JoinPush(line: string, segs: seq<string>, rest: string)
    requires segs != [] && rest != []
    requires rest == Join(segs) + if EndsInNewline(rest) then ['\n'] else []
    ensures var s := line + ['\n'] + rest;
            && s == Join([line] + segs) + (if EndsInNewline(rest) then ['\n'] else [])
            && EndsInNewline(s) == EndsInNewline(rest)
  {
    assert ([line] + segs)[1..] == segs;
    var s := line + ['\n'] + rest;
    assert s[|s| - 1] == rest[|rest| - 1];
    if EndsInNewline(rest) {
      assert line + ['\n'] + (Join(segs) + ['\n']) == line + ['\n'] + Join(segs) + ['\n'];
    } else {
      assert Join(segs) + [] == Join(segs);
    }
  }

  /**
    The segments are the packet: joined by newlines, and with one more if the packet ends in
    one, they give it back; none holds a newline, and only an empty packet has none.
   */
  lemma {:induction false} SegmentsJoin(s: string)
    ensures var segs := Segments(s);
            && s == Join(segs) + (if EndsInNewline(s) then ['\n'] else [])
            && (segs == [] <==> s == [])
            && (forall i :: 0 <= i < |segs| ==> '\n' !in segs[i])
    decreases |s|
  {
    if s == [] {
    } else {
      var n := LineEnd(s);
      if n == |s| {
        assert s[..n] == s;
        assert Join([s]) + [] == s;
      } else {
        var line, rest := s[..n], s[n + 1..];
        assert s == line + ['\n'] + rest;
        SegmentsJoin(rest);
        if rest == [] {
          assert s == Join([line]) + ['\n'];
        } else {
          JoinPush(line, Segments(rest), rest);
        }
      }
    }
  }

  type LineParser = (char, string) -> Option<Message>

  /** The parser of single lines, given the byte in front of each. */
  function Lines(numbers: Numbers): LineParser { (before, s) => Parse(numbers, before, s) }

  /** What each segment parses to. Only the first can see the byte in front of the packet. */
  function Outcomes(parse: LineParser, before: char, segs: seq<string>): (r: seq<Option<Message>>)
    ensures |r| == |segs|
    ensures forall i :: 0 <= i < |segs| ==> r[i] == parse(if i == 0 then before else '\0', CStr(segs[i]))
  {
    if segs == [] then [] else [parse(before, CStr(segs[0]))] + Outcomes(parse, '\0', segs[1..])
  }

  function Accepted(outcomes: seq<Option<Message>>): seq<Message> {
    if outcomes == [] then []
    else (if outcomes[0].Some? then [outcomes[0].value] else []) + Accepted(outcomes[1..])
  }

  function Rejected(outcomes: seq<Option<Message>>): nat {
    if outcomes == [] then 0 else (if outcomes[0].None? then 1 else 0) + Rejected(outcomes[1..])
  }

  lemma {:induction false} AcceptedOrRejected(outcomes: seq<Option<Message>>)
    ensures |Accepted(outcomes)| + Rejected(outcomes) == |outcomes|
  {
    if outcomes == [] {
    } else {
      AcceptedOrRejected(outcomes[1..]);
    }
  }

  /** The counters of brubeck_server, and the messages handed to brubeck_metric_find so far. */
  class Server {
    var metrics: Word
    var errors: Word
    var handled: seq<Message>

    constructor ()
      ensures metrics == 0 && errors == 0 && handled == []
    {
      metrics, errors, handled := 0, 0, [];
    }

    /**
      One segment's outcome, counted and passed on. The precondition is the assertion at
      the head of brubeck_metric_find: the key is NUL-terminated where its length says.
     */
    method Take(msg: Option<Message>, buf: array<char>, at: nat)
      requires msg.Some? ==> KeyAt(buf, at, msg.value.key)
      modifies this
      ensures msg.Some? ==> metrics == (old(metrics) + 1) % UINT32 && errors == old(errors)
                            && handled == old(handled) + [msg.value]
      ensures msg.None? ==> errors == (old(errors) + 1) % UINT32 && metrics == old(metrics) && handled == old(handled)
    {
      if msg.None? {
        errors := (errors + 1) % UINT32;
      } else {
        metrics := (metrics + 1) % UINT32;
        handled := handled + [msg.value];
      }
    }
  }

  lemma {:induction false} MarkedFrame(s: string, start: nat, end: nat)
    requires start <= end < |s|
    ensures Marked(s, start, end)[end] == '\0'
    ensures Marked(s, start, end)[end + 1..] == s[end + 1..]
  {
  }

  /** memchr over the rest of the packet. */
  method FindNewline(buf: array<char>, at: nat, end: nat) returns (n: nat)
    requires at <= end <= buf.Length
    ensures n == LineEnd(buf[at..end])
  {
    var p := at;
    while p < end && buf[p] != '\n'
      invariant at <= p <= end
      invariant forall i :: at <= i < p ==> buf[i] != '\n'
    {
      p := p + 1;
    }
    n := p - at;
    LineEndUnique(buf[at..end], n);
  }

  lemma {:induction false} LineEndUnique(s: string, n: nat)
    requires n <= |s| && (n < |s| ==> s[n] == '\n') && forall i :: 0 <= i < n ==> s[i] != '\n'
    ensures LineEnd(s) == n
  {
  }

  /** Counters and messages after the outcomes so far. */
  ghost predicate Tally(server: Server, metrics: nat, errors: nat, handled: seq<Message>,
                        outcomes: seq<Option<Message>>)
    reads server
  {
    && server.metrics == (metrics + |Accepted(outcomes)|) % UINT32
    && server.errors == (errors + Rejected(outcomes)) % UINT32
    && server.handled == handled + Accepted(outcomes)
  }

  lemma {:induction false} PushedTail(outcomes: seq<Option<Message>>, out: Option<Message>)
    ensures outcomes != [] ==> (outcomes + [out])[0] == outcomes[0] && (outcomes + [out])[1..] == outcomes[1..] + [out]
    ensures outcomes == [] ==> (outcomes + [out])[0] == out && (outcomes + [out])[1..] == []
  {
  }

  lemma {:induction false} AcceptedPush(outcomes: seq<Option<Message>>, out: Option<Message>)
    ensures Accepted(outcomes + [out]) == Accepted(outcomes) + if out.Some? then [out.value] else []
  {
    PushedTail(outcomes, out);
    if outcomes == [] {
    } else {
      AcceptedPush(outcomes[1..], out);
    }
  }

  lemma {:induction false} RejectedPush(outcomes: seq<Option<Message>>, out: Option<Message>)
    ensures Rejected(outcomes + [out]) == Rejected(outcomes) + if out.None? then 1 else 0
  {
    PushedTail(outcomes, out);
    if outcomes == [] {
    } else {
      RejectedPush(outcomes[1..], out);
    }
  }

  lemma {:induction false} TallyPush(outcomes: seq<Option<Message>>, out: Option<Message>)
    ensures Accepted(outcomes + [out]) == Accepted(outcomes) + if out.Some? then [out.value] else []
    ensures Rejected(outcomes + [out]) == Rejected(outcomes) + if out.None? then 1 else 0
  {
    AcceptedPush(outcomes, out);
    RejectedPush(outcomes, out);
  }

  /** `parse` is what ParseMessage does; stated so that only ParseMessage's own result calls it up. */
  ghost predicate Agrees(parse: LineParser, strtod: string -> real, length: string -> nat) {
    forall before, s {:trigger Parse(PlainNumbers(strtod, length), before, s)} ::
      parse(before, s) == Parse(PlainNumbers(strtod, length), before, s)
  }

  /** An accepted segment's key has a length that fits 16 bits: what brubeck_metric_find's assertion demands. */
  predicate ShortKey(outcome: Option<Message>, seg: string) {
    outcome.Some? && KeyEnd(CStr(seg)).Some? ==> KeyEnd(CStr(seg)).value < 0x1_0000
  }

  predicate ShortKeys(parse: LineParser, before: char, segs: seq<string>) {
    forall i :: 0 <= i < |segs| ==> ShortKey(parse(if i == 0 then before else '\0', CStr(segs[i])), segs[i])
  }

  /** So it is in every packet of at most 65536 bytes; the samplers receive at most 8191. */
  lemma {:induction false} ShortPacket(parse: LineParser, before: char, s: string)
    requires |s| <= 0x1_0000
    ensures ShortKeys(parse, before, Segments(s))
    decreases |s|
  {
    if s == [] {
    } else {
      FirstSegment(s);
      ShortPacket(parse, '\0', AfterLine(s));
      ShortPush(parse, before, s[..LineEnd(s)], Segments(AfterLine(s)));
    }
  }

  /** One segment: parsed in place, leaving the bytes after it alone and a NUL at its end. */
  method ParseSegment(buf: array<char>, start: nat, end: nat, outside: char, strtod: string -> real,
                      length: string -> nat,
                      ghost parse: LineParser, ghost line: string, ghost seen: char, ghost after: string)
    returns (msg: Option<Message>)
    requires start <= end < buf.Length && Agrees(parse, strtod, length)
    requires buf[start..end] == line && buf[end + 1..] == after && ShortKey(parse(seen, CStr(line)), line)
    requires ByteBefore(outside, buf[..], start) == seen
    modifies buf
    ensures msg == parse(seen, CStr(line))
    ensures buf[end] == '\0' && buf[end + 1..] == after
    ensures msg.Some? ==> KeyAt(buf, start, msg.value.key)
  {
    ghost var was := buf[..];
    assert was[start..end] == line && was[end + 1..] == after;
    msg := ParseMessage(buf, start, end, outside, strtod, length);
    MarkedFrame(was, start, end);
    assert buf[end] == buf[..][end] && buf[end + 1..] == buf[..][end + 1..];
  }

  /** Where the packet loop stands: `cur` is past `done`, and the rest of the text is untouched. */
  ghost predicate Underway(parse: LineParser, before: char, text: string, rest: string, done: seq<Option<Message>>,
                           seen: char)
  {
    && Outcomes(parse, before, Segments(text)) == done + Outcomes(parse, seen, Segments(rest))
    && (done == [] ==> rest == text && seen == before)
  }

  /** What is left of the text after its first segment. */
  function AfterLine(rest: string): string {
    var n := LineEnd(rest);
    if n < |rest| then rest[n + 1..] else []
  }

  lemma {:induction false} FirstSegment(rest: string)
    requires rest != []
    ensures Segments(rest) == [rest[..LineEnd(rest)]] + Segments(AfterLine(rest))
  {
  }

  lemma {:induction false} OutcomesPush(parse: LineParser, before: char, line: string, segs: seq<string>)
    ensures Outcomes(parse, before, [line] + segs) == [parse(before, CStr(line))] + Outcomes(parse, '\0', segs)
  {
    assert ([line] + segs)[1..] == segs;
  }

  lemma {:induction false} MoreDone(all: seq<Option<Message>>, done: seq<Option<Message>>, out: Option<Message>,
                                    rest: seq<Option<Message>>)
    requires all == done + ([out] + rest)
    ensures all == done + [out] + rest
  {
  }

  /** One round of the loop, on the text. */
  lemma {:induction false} UnderwayNext(parse: LineParser, before: char, text: string, rest: string,
                                        done: seq<Option<Message>>, seen: char)
    requires Underway(parse, before, text, rest, done, seen) && rest != []
    ensures Underway(parse, before, text, AfterLine(rest), done + [parse(seen, CStr(rest[..LineEnd(rest)]))], '\0')
  {
    var line := rest[..LineEnd(rest)];
    FirstSegment(rest);
    OutcomesPush(parse, seen, line, Segments(AfterLine(rest)));
    MoreDone(Outcomes(parse, before, Segments(text)), done, parse(seen, CStr(line)),
             Outcomes(parse, '\0', Segments(AfterLine(rest))));
  }

  lemma {:induction false} TallyNext(metrics: nat, errors: nat, done: seq<Option<Message>>, msg: Option<Message>)
    ensures var more := done + [msg];
            && (metrics + |Accepted(more)|) % UINT32 ==
               (if msg.Some? then ((metrics + |Accepted(done)|) % UINT32 + 1) % UINT32
                else (metrics + |Accepted(done)|) % UINT32)
            && (errors + Rejected(more)) % UINT32 ==
               (if msg.None? then ((errors + Rejected(done)) % UINT32 + 1) % UINT32
                else (errors + Rejected(done)) % UINT32)
  {
    TallyPush(done, msg);
    Arith.WrappedSuccessor(metrics + |Accepted(done)|, UINT32);
    Arith.WrappedSuccessor(errors + Rejected(done), UINT32);
  }

  method Count(server: Server, msg: Option<Message>, buf: array<char>, at: nat,
               ghost metrics: nat, ghost errors: nat, ghost handled: seq<Message>, ghost done: seq<Option<Message>>)
    requires Tally(server, metrics, errors, handled, done) && (msg.Some? ==> KeyAt(buf, at, msg.value.key))
    modifies server
    ensures Tally(server, metrics, errors, handled, done + [msg])
  {
    TallyNext(metrics, errors, done, msg);
    TallyPush(done, msg);
    server.Take(msg, buf, at);
  }

  /** The untouched part of the packet, and the byte the next segment sees in front of it. */
  ghost predicate Ahead(outside: char, buf: array<char>, cur: nat, end: nat, rest: string, seen: char)
    reads buf
  {
    && cur <= end + 1 <= buf.Length
    && (if cur <= end then buf[cur..end] == rest else rest == [])
    && ByteBefore(outside, buf[..], cur) == seen
  }

  lemma {:induction false} AheadNext(outside: char, buf: array<char>, next: nat, end: nat, rest: string, after: string)
    requires 0 < next <= end + 1 <= buf.Length && buf[next - 1] == '\0' && buf[next..] == after
    requires if next <= end then after[..end - next] == rest else rest == []
    ensures Ahead(outside, buf, next, end, rest, '\0')
  {
  }

  /** The first line of the rest, in the buffer, and what comes after it. */
  lemma {:induction false} RestAfter(buf: array<char>, cur: nat, end: nat, rest: string)
    requires cur < end < buf.Length && buf[cur..end] == rest
    ensures var n := LineEnd(rest); var next := cur + n + 1;
            && next <= end + 1 && buf[cur..cur + n] == rest[..n]
            && if next <= end then buf[next..][..end - next] == AfterLine(rest) else AfterLine(rest) == []
  {
  }

  /** A segment and the NUL at its end; what is ahead of the loop afterwards. */
  method SegmentThen(buf: array<char>, start: nat, stop: nat, end: nat, outside: char,
                     strtod: string -> real, length: string -> nat, ghost parse: LineParser,
                     ghost line: string, ghost seen: char, ghost after: string, ghost rest: string)
    returns (msg: Option<Message>)
    requires start <= stop <= end < buf.Length && Agrees(parse, strtod, length)
    requires buf[start..stop] == line && buf[stop + 1..] == after && ShortKey(parse(seen, CStr(line)), line)
    requires ByteBefore(outside, buf[..], start) == seen
    requires if stop < end then after[..end - stop - 1] == rest else rest == []
    modifies buf
    ensures msg == parse(seen, CStr(line)) && Ahead(outside, buf, stop + 1, end, rest, '\0')
    ensures msg.Some? ==> KeyAt(buf, start, msg.value.key)
  {
    msg := ParseSegment(buf, start, stop, outside, strtod, length, parse, line, seen, after);
    AheadNext(outside, buf, stop + 1, end, rest, after);
  }

  /** One round of the loop, in the buffer, for a line of n bytes. */
  method Round(buf: array<char>, cur: nat, n: nat, end: nat, outside: char,
               strtod: string -> real, length: string -> nat,
               ghost parse: LineParser, ghost rest: string, ghost seen: char)
    returns (msg: Option<Message>)
    requires cur < end < buf.Length && Agrees(parse, strtod, length)
    requires Ahead(outside, buf, cur, end, rest, seen) && n == LineEnd(rest)
    requires ShortKey(parse(seen, CStr(rest[..n])), rest[..n])
    modifies buf
    ensures cur + n + 1 <= end + 1 && Ahead(outside, buf, cur + n + 1, end, AfterLine(rest), '\0')
    ensures msg == parse(seen, CStr(rest[..n]))
    ensures msg.Some? ==> KeyAt(buf, cur, msg.value.key)
  {
    RestAfter(buf, cur, end, rest);
    msg := SegmentThen(buf, cur, cur + n, end, outside, strtod, length, parse,
                       rest[..n], seen, buf[cur + n + 1..], AfterLine(rest));
  }

  method LineLength(buf: array<char>, cur: nat, end: nat, ghost outside: char, ghost rest: string, ghost seen: char)
    returns (n: nat)
    requires cur < end < buf.Length && Ahead(outside, buf, cur, end, rest, seen)
    ensures n == LineEnd(rest)
  {
    n := FindNewline(buf, cur, end);
  }

  /** One round of the loop, with its outcome counted. */
  method CountedRound(server: Server, buf: array<char>, cur: nat, end: nat, outside: char,
                      strtod: string -> real, length: string -> nat,
                      ghost parse: LineParser, ghost rest: string, ghost seen: char,
                      ghost metrics: nat, ghost errors: nat, ghost handled: seq<Message>,
                      ghost done: seq<Option<Message>>)
    returns (next: nat)
    requires cur < end < buf.Length && Agrees(parse, strtod, length)
    requires Ahead(outside, buf, cur, end, rest, seen)
    requires var line := rest[..LineEnd(rest)]; ShortKey(parse(seen, CStr(line)), line)
    requires Tally(server, metrics, errors, handled, done)
    modifies server, buf
    ensures cur < next && Ahead(outside, buf, next, end, AfterLine(rest), '\0')
    ensures Tally(server, metrics, errors, handled, done + [parse(seen, CStr(rest[..LineEnd(rest)]))])
  {
    var n := LineLength(buf, cur, end, outside, rest, seen);
    var msg := Round(buf, cur, n, end, outside, strtod, length, parse, rest, seen);
    next := cur + n + 1;
    Count(server, msg, buf, cur, metrics, errors, handled, done);
  }

  lemma {:induction false} ShortPush(parse: LineParser, before: char, line: string, segs: seq<string>)
    ensures ShortKeys(parse, before, [line] + segs) <==>
            ShortKey(parse(before, CStr(line)), line) && ShortKeys(parse, '\0', segs)
  {
    var all := [line] + segs;
    assert all[0] == line && forall i :: 0 <= i < |segs| ==> all[i + 1] == segs[i];
  }

  lemma {:induction false} ShortNext(parse: LineParser, seen: char, rest: string)
    requires rest != [] && ShortKeys(parse, seen, Segments(rest))
    ensures var line := rest[..LineEnd(rest)]; ShortKey(parse(seen, CStr(line)), line)
    ensures ShortKeys(parse, '\0', Segments(AfterLine(rest)))
  {
    FirstSegment(rest);
    ShortPush(parse, seen, rest[..LineEnd(rest)], Segments(AfterLine(rest)));
  }

  /**
    brubeck_statsd_packet_parse. The outcome is a function of the packet's bytes as they
    arrived: every newline-separated segment is parsed once, in order, although each parse
    writes NULs into the buffer that the next one works on.
   */
  method ParseLines(server: Server, buf: array<char>, start: nat, end: nat, outside: char,
                    strtod: string -> real, length: string -> nat, ghost parse: LineParser)
    requires start <= end < buf.Length && Agrees(parse, strtod, length)
    requires ShortKeys(parse, ByteBefore(outside, buf[..], start), Segments(buf[start..end]))
    modifies server, buf
    ensures Tally(server, old(server.metrics), old(server.errors), old(server.handled),
                  Outcomes(parse, old(ByteBefore(outside, buf[..], start)), Segments(old(buf[start..end]))))
  {
    ghost var metrics, errors, handled := server.metrics, server.errors, server.handled;
    ghost var text, before := buf[start..end], ByteBefore(outside, buf[..], start);
    ghost var rest, done, seen: char := text, [], before;
    TallyNone(server);
    assert done + Outcomes(parse, seen, Segments(rest)) == Outcomes(parse, seen, Segments(rest));
    var cur := start;
    while cur < end
      invariant start <= cur && Ahead(outside, buf, cur, end, rest, seen)
      invariant Underway(parse, before, text, rest, done, seen) && ShortKeys(parse, seen, Segments(rest))
      invariant Tally(server, metrics, errors, handled, done)
    {
      ShortNext(parse, seen, rest);
      cur := CountedRound(server, buf, cur, end, outside, strtod, length, parse, rest, seen,
                          metrics, errors, handled, done);
      UnderwayNext(parse, before, text, rest, done, seen);
      done, seen := done + [parse(seen, CStr(rest[..LineEnd(rest)]))], '\0';
      rest := AfterLine(rest);
    }
    assert Outcomes(parse, seen, Segments(rest)) == [];
    assert done + [] == done;
  }

  lemma {:induction false} TallyNone(server: Server)
    ensures Tally(server, server.metrics, server.errors, server.handled, [])
  {
    Arith.ModSmall(server.metrics, UINT32);
    Arith.ModSmall(server.errors, UINT32);
  }

  /** Metrics plus errors rise by the number of segments, modulo the width of the counters. */
  lemma {:induction false} EverySegmentCounted(server: Server, metrics: nat, errors: nat, handled: seq<Message>,
                                               parse: LineParser, before: char, segs: seq<string>)
    requires Tally(server, metrics, errors, handled, Outcomes(parse, before, segs))
    ensures (server.metrics + server.errors) % UINT32 == (metrics + errors + |segs|) % UINT32
    ensures server.handled[..|handled|] == handled && |server.handled| <= |handled| + |segs|
  {
    var outcomes := Outcomes(parse, before, segs);
    AcceptedOrRejected(outcomes);
    Arith.AddMods(metrics + |Accepted(outcomes)|, errors + Rejected(outcomes), UINT32);
  }

  lemma {:induction false} LinesAgree(strtod: string -> real, length: string -> nat)
    ensures Agrees(Lines(PlainNumbers(strtod, length)), strtod, length)
  {
  }

  /** The same, with the line parser of the grammar. */
  method ParsePacket(server: Server, buf: array<char>, start: nat, end: nat, outside: char,
                     strtod: string -> real, length: string -> nat)
    requires start <= end < buf.Length
    requires ShortKeys(Lines(PlainNumbers(strtod, length)), ByteBefore(outside, buf[..], start),
                       Segments(buf[start..end]))
    modifies server, buf
    ensures Tally(server, old(server.metrics), old(server.errors), old(server.handled),
                  Outcomes(Lines(PlainNumbers(strtod, length)), old(ByteBefore(outside, buf[..], start)),
                           Segments(old(buf[start..end]))))
  {
    LinesAgree(strtod, length);
    ParseLines(server, buf, start, end, outside, strtod, length, Lines(PlainNumbers(strtod, length)));
  }
}
