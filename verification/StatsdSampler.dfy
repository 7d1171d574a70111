/**
  The statsd parser as src/samplers/statsd.c runs it: cursors over a byte buffer with a NUL
  sentinel, and NULs written in place.
 */
module StatsdSampler {
  import opened Decimal
  import opened StatsdGrammar
  import opened Wrappers

  /** The C string at the front of some bytes. */
  function CStr(s: string): (r: string)
    ensures r <= s && (forall i :: 0 <= i < |r| ==> r[i] != '\0') && (|r| < |s| ==> s[|r|] == '\0')
  {
    if s == [] || s[0] == '\0' then [] else [s[0]] + CStr(s[1..])
  }

  /** `buf[at..nul]` is a C string, ended by the NUL at `nul`. */
  predicate Terminated(buf: array<char>, at: nat, nul: nat)
    reads buf
  {
    at <= nul < buf.Length && buf[nul] == '\0' && forall i :: at <= i < nul ==> buf[i] != '\0'
  }

  lemma {:induction false} CStrUnique(s: string, n: nat)
    requires n < |s| && s[n] == '\0' && forall i :: 0 <= i < n ==> s[i] != '\0'
    ensures CStr(s) == s[..n]
  {
    if n == 0 {
    } else {
      CStrUnique(s[1..], n - 1);
      assert s[..n] == [s[0]] + s[1..][..n - 1];
    }
  }

  function PlainNumbers(strtod: string -> real, length: string -> nat): Numbers {
    Numbers(PlainValue, strtod, length)
  }

  // ----- parse_float -----

  lemma {:induction false} DigitsUnique(s: string, n: nat)
    requires n <= |s| && AllDigits(s[..n]) && (n < |s| ==> !IsDigit(s[n]))
    ensures Digits(s) == n
  {
    DigitsThen(s[..n], s[n..]);
    assert s == s[..n] + s[n..];
  }

  /** A digit loop of parse_float. */
  method ReadDigits(buf: array<char>, at: nat, ghost nul: nat) returns (p: nat, v: real)
    requires Terminated(buf, at, nul)
    ensures at <= p <= nul && p - at == Digits(buf[at..nul])
    ensures buf[at..nul][..p - at] == buf[at..p] && AllDigits(buf[at..p]) && v == Value(buf[at..p]) as real
  {
    p, v := at, 0.0;
    while '0' <= buf[p] <= '9'
      invariant at <= p <= nul && AllDigits(buf[at..p]) && v == Value(buf[at..p]) as real
      decreases nul - p
    {
      ghost var s := buf[at..p];
      v := v * 10.0 + DigitValue(buf[p]) as real;
      p := p + 1;
      assert buf[at..p] == s + [buf[p - 1]];
      assert buf[at..p][..|s|] == s;
    }
    assert buf[at..nul][..p - at] == buf[at..p];
    DigitsUnique(buf[at..nul], p - at);
  }

  /** The dot and the digits after it, if any: `f / pow(10, n)`. */
  method ReadFrac(buf: array<char>, at: nat, ghost nul: nat) returns (p: nat, f: real, ghost frac: Option<string>)
    requires Terminated(buf, at, nul)
    ensures frac == ScanFrac(buf[at..nul]) && f == FracValue(frac)
    ensures at <= p <= nul && p - at == |FracText(frac)|
  {
    p, f, frac := at, 0.0, None;
    if buf[p] == '.' {
      ghost var s, s1 := buf[at..nul], buf[at + 1..nul];
      p, f := ReadDigits(buf, at + 1, nul);
      assert s[1..] == s1;
      frac := Some(s1[..Digits(s1)]);
      ScaledIsQuotient(f, p - (at + 1));
      f := f / Pow10(p - (at + 1)) as real;
    }
  }

  method ReadSign(buf: array<char>, at: nat, ghost nul: nat)
    returns (p: nat, negative: bool, relative: bool, ghost sign: Sign)
    requires Terminated(buf, at, nul)
    ensures sign == ScanSign(buf[at..nul]) && at <= p <= nul && p - at == |SignText(sign)|
    ensures (negative <==> sign.Minus?) && (relative <==> !sign.NoSign?)
    ensures buf[at..nul][|SignText(sign)|..] == buf[p..nul]
  {
    p, negative, relative, sign := at, false, false, NoSign;
    if buf[p] == '-' {
      p := p + 1;
      negative := true;
      relative := true;
      sign := Minus;
    } else if buf[p] == '+' {
      p := p + 1;
      relative := true;
      sign := Plus;
    }
  }

  /** The part of a number after its sign. */
  method ReadMagnitude(buf: array<char>, at: nat, ghost nul: nat)
    returns (p: nat, v: real, ghost whole: string, ghost tail: string, ghost frac: Option<string>)
    requires Terminated(buf, at, nul)
    ensures var s1 := buf[at..nul]; whole == s1[..Digits(s1)] && tail == s1[Digits(s1)..] && frac == ScanFrac(tail)
    ensures AllDigits(whole) && (frac.Some? ==> AllDigits(frac.value)) && v == Magnitude(whole, frac)
    ensures at <= p <= nul && p - at == |whole| + |FracText(frac)|
  {
    var q, w := ReadDigits(buf, at, nul);
    whole, tail := buf[at..q], buf[q..nul];
    assert buf[at..nul][q - at..] == tail;
    var f;
    p, f, frac := ReadFrac(buf, q, nul);
    v := w + f;
  }

  /** parse_float up to the exponent test. */
  method ReadPlain(buf: array<char>, at: nat, ghost nul: nat)
    returns (value: real, relative: bool, p: nat, ghost n: Num)
    requires Terminated(buf, at, nul)
    ensures n == Scan(buf[at..nul]) && at <= p <= nul && p - at == |NumText(n)|
    ensures IsNum(n) && value == NumValue(n) && (relative <==> !n.sign.NoSign?)
  {
    var negative;
    ghost var sign, whole, tail, frac;
    p, negative, relative, sign := ReadSign(buf, at, nul);
    ghost var s1 := buf[p..nul];
    p, value, whole, tail, frac := ReadMagnitude(buf, p, nul);
    ScanFrom(buf[at..nul], sign, s1, whole, tail, frac);
    n := Num(sign, whole, frac);
    if negative {
      value := -value;
    }
  }

  /** The library call: strtod reads the C string at `at`. */
  method LibraryFloat(buf: array<char>, at: nat, ghost nul: nat, strtod: string -> real, length: string -> nat)
    returns (value: real, p: nat)
    requires Terminated(buf, at, nul)
    ensures at <= p <= nul && value == strtod(buf[at..nul])
    ensures p == at + Min(length(buf[at..nul]), |buf[at..nul]|)
  {
    var text := CStr(buf[at..]);
    CStrUnique(buf[at..], nul - at);
    assert text == buf[at..nul];
    value := strtod(text);
    p := at + Min(length(text), |text|);
  }

  /** The exponent test at the end of parse_float, for the number `n` just read. */
  method FinishFloat(buf: array<char>, at: nat, ghost nul: nat, strtod: string -> real, length: string -> nat,
                     plain: real, end: nat, ghost n: Num, ghost numbers: Numbers)
    returns (value: real, p: nat)
    requires Terminated(buf, at, nul) && at <= end <= nul && end - at == |NumText(n)|
    requires numbers.strtod == strtod && numbers.length == length && numbers.plain(n) == plain
    ensures at <= p <= nul
    ensures Evaluate(numbers, buf[at..nul], n) == Float(value, !n.sign.NoSign?, p - at)
  {
    value, p := plain, end;
    ghost var s := buf[at..nul];
    assert s[|NumText(n)|..] == buf[end..nul];
    assert StartsExponent(s[|NumText(n)|..]) <==> buf[end] == 'e' || buf[end] == 'E';
    if buf[p] == 'e' || buf[p] == 'E' {
      value, p := LibraryFloat(buf, at, nul, strtod, length);
    }
  }

  /** parse_float; an exponent hands the text over to the library's strtod. */
  method ReadFloat(buf: array<char>, at: nat, ghost nul: nat, strtod: string -> real, length: string -> nat)
    returns (value: real, relative: bool, p: nat)
    requires Terminated(buf, at, nul)
    ensures at <= p <= nul
    ensures ParseFloat(PlainNumbers(strtod, length), buf[at..nul]) == Float(value, relative, p - at)
  {
    ghost var n;
    value, relative, p, n := ReadPlain(buf, at, nul);
    value, p := FinishFloat(buf, at, nul, strtod, length, value, p, n, PlainNumbers(strtod, length));
  }

  // ----- brubeck_statsd_msg_parse -----

  /** The test for the end of a line. */
  method ReadEnd(buf: array<char>, at: nat, ghost nul: nat) returns (ok: bool)
    requires Terminated(buf, at, nul)
    ensures ok <==> AtEnd(buf[at..nul])
  {
    ok := buf[at] == '\0' || (buf[at] == '\n' && buf[at + 1] == '\0');
  }

  lemma {:induction false} RateFrom(rate: Float, s: string, rest: string)
    requires rate.used <= |s| && rest == s[rate.used..]
    ensures AcceptRate(rate, s) ==
            if rate.value <= 0.0 || rate.value > 1.0 || !AtEnd(rest) then None else Some(1.0 / rate.value)
  {
  }

  /** The rate after "|@", and the end of the line. */
  method ReadRate(buf: array<char>, at: nat, ghost nul: nat, strtod: string -> real, length: string -> nat)
    returns (freq: Option<real>)
    requires Terminated(buf, at, nul)
    ensures freq == AcceptRate(ParseFloat(PlainNumbers(strtod, length), buf[at..nul]), buf[at..nul])
  {
    var rate, relative, p := ReadFloat(buf, at, nul, strtod, length);
    RateFrom(Float(rate, relative, p - at), buf[at..nul], buf[p..nul]);
    if rate <= 0.0 || rate > 1.0 {
      return None;
    }
    var ok := ReadEnd(buf, p, nul);
    freq := if ok then Some(1.0 / rate) else None;
  }

  /** Sample rate and end of line. */
  method ReadTail(buf: array<char>, at: nat, ghost nul: nat, strtod: string -> real, length: string -> nat)
    returns (freq: Option<real>)
    requires Terminated(buf, at, nul)
    ensures freq == ParseTail(PlainNumbers(strtod, length), buf[at..nul])
  {
    if buf[at] == '|' && buf[at + 1] == '@' {
      assert buf[at..nul][2..] == buf[at + 2..nul];
      freq := ReadRate(buf, at + 2, nul, strtod, length);
    } else {
      var ok := ReadEnd(buf, at, nul);
      freq := if ok then Some(1.0) else None;
    }
  }

  /** The switch on the type letters. */
  method ReadKind(buf: array<char>, at: nat, ghost nul: nat) returns (kind: Option<Kind>, p: nat)
    requires Terminated(buf, at, nul)
    ensures kind == ScanKind(buf[at..nul])
    ensures kind.Some? ==> at <= p <= nul && p - at == |KindText(kind.value)|
  {
    p := at;
    match buf[p] {
      case 'g' => kind := Some(Gauge);
      case 'c' => kind := Some(Meter);
      case 'C' => kind := Some(Counter);
      case 'h' => kind := Some(Histogram);
      case 'm' =>
        p := p + 1;
        if buf[p] == 's' {
          kind := Some(Timer);
        } else {
          return None, p;
        }
      case _ => return None, p;
    }
    p := p + 1;
  }

  /** ParseType, put together from its parts. */
  lemma {:induction false} TypeFrom(numbers: Numbers, key: string, num: Float, s: string, kind: Kind, tail: string,
                                    freq: Option<real>)
    requires s != [] && s[0] == '|' && ScanKind(s[1..]) == Some(kind)
    requires s[1..][|KindText(kind)|..] == tail && ParseTail(numbers, tail) == freq
    ensures ParseType(numbers, key, num, s) ==
            if freq.Some? then Some(Message(key, num.value, num.relative, kind, freq.value)) else None
  {
  }

  /** The '|' after the value, the type and the tail. */
  method ReadType(buf: array<char>, at: nat, ghost nul: nat, strtod: string -> real, length: string -> nat,
                  key: string, value: real, relative: bool, ghost used: nat)
    returns (msg: Option<Message>)
    requires Terminated(buf, at, nul)
    ensures msg == ParseType(PlainNumbers(strtod, length), key, Float(value, relative, used), buf[at..nul])
  {
    if buf[at] != '|' {
      return None;
    }
    ghost var s, s1 := buf[at..nul], buf[at + 1..nul];
    assert s[1..] == s1;
    var kind, p := ReadKind(buf, at + 1, nul);
    if kind.None? {
      return None;
    }
    assert s1[|KindText(kind.value)|..] == buf[p..nul];
    var freq := ReadTail(buf, p, nul, strtod, length);
    TypeFrom(PlainNumbers(strtod, length), key, Float(value, relative, used), s, kind.value, buf[p..nul], freq);
    msg := if freq.Some? then Some(Message(key, value, relative, kind.value, freq.value)) else None;
  }

  lemma {:induction false} RestAfter(buf: array<char>, at: nat, p: nat, nul: nat)
    requires at <= p <= nul <= buf.Length
    ensures buf[at..nul][p - at..] == buf[p..nul]
  {
  }

  /** ParseRest, put together from its parts. */
  lemma {:induction false} RestFrom(numbers: Numbers, key: string, s: string, num: Float, rest: string)
    requires ParseFloat(numbers, s) == num && num.used <= |s| && s[num.used..] == rest
    ensures Body(numbers)(key, s) == ParseType(numbers, key, num, rest)
  {
  }

  /** Everything after the key. */
  method ReadBody(buf: array<char>, at: nat, ghost nul: nat, strtod: string -> real, length: string -> nat, key: string)
    returns (msg: Option<Message>)
    requires Terminated(buf, at, nul)
    ensures msg == Body(PlainNumbers(strtod, length))(key, buf[at..nul])
    ensures msg.Some? ==> msg.value.key == key
  {
    var value, relative, p := ReadFloat(buf, at, nul, strtod, length);
    RestAfter(buf, at, p, nul);
    RestFrom(PlainNumbers(strtod, length), key, buf[at..nul], Float(value, relative, p - at), buf[p..nul]);
    msg := ReadType(buf, p, nul, strtod, length, key, value, relative, p - at);
  }

  lemma {:induction false} NoKey(s: string, n: nat)
    requires n <= |s| && (forall i :: 0 <= i < n ==> s[i] != ':') && (n < |s| ==> s[n] == ' ')
    ensures KeyEnd(s) == None
    decreases n
  {
    if n == 0 || s[0] == ' ' {
    } else {
      NoKey(s[1..], n - 1);
    }
  }

  /** The loop that looks for the key's colon. */
  method FindColon(buf: array<char>, at: nat, ghost nul: nat) returns (k: Option<nat>)
    requires Terminated(buf, at, nul)
    ensures k == KeyEnd(buf[at..nul])
  {
    var p := at;
    while buf[p] != ':' && buf[p] != '\0'
      invariant at <= p <= nul
      invariant forall i :: at <= i < p ==> buf[i] != ':' && buf[i] != ' '
      decreases nul - p
    {
      if buf[p] == ' ' {
        NoKey(buf[at..nul], p - at);
        return None;
      }
      p := p + 1;
    }
    if buf[p] == '\0' {
      NoKey(buf[at..nul], p - at);
      return None;
    }
    KeyEndText(buf[at..p], buf[p + 1..nul]);
    assert buf[at..nul] == buf[at..p] + [':'] + buf[p + 1..nul];
    return Some(p - at);
  }

  /** What a parse leaves behind: NUL at `end`, and at the key's colon if there is one. */
  function Marked(s: string, start: nat, end: nat): (r: string)
    requires start <= end < |s|
    ensures |r| == |s|
  {
    var k := KeyEnd(CStr(s[start..end]));
    if k.Some? then s[end := '\0'][start + k.value := '\0'] else s[end := '\0']
  }

  /** Byte i is the colon that ends the key: the first one, with no space and no NUL before it. */
  predicate IsKeyColon(s: string, start: nat, end: nat, i: nat)
    requires start <= end < |s|
  {
    start <= i < end && s[i] == ':' && forall j :: start <= j < i ==> s[j] != ':' && s[j] != ' ' && s[j] != '\0'
  }

  lemma {:induction false} KeyColonFound(s: string, start: nat, end: nat, k: nat)
    requires start <= end < |s| && KeyEnd(CStr(s[start..end])) == Some(k)
    ensures IsKeyColon(s, start, end, start + k)
  {
    var text := CStr(s[start..end]);
    assert forall j :: 0 <= j < |text| ==> text[j] == s[start..end][j] == s[start + j];
    forall j | start <= j < start + k ensures s[j] != ':' && s[j] != ' ' && s[j] != '\0' {
      assert text[j - start] == s[j];
    }
  }

  lemma {:induction false} ColonInText(s: string, start: nat, end: nat, i: nat)
    requires start <= end < |s| && IsKeyColon(s, start, end, i)
    ensures i - start < |CStr(s[start..end])|
  {
    var text := CStr(s[start..end]);
    assert |text| < end - start ==> s[start..end][|text|] == s[start + |text|];
  }

  lemma {:induction false} KeyColonIs(s: string, start: nat, end: nat, i: nat)
    requires start <= end < |s| && IsKeyColon(s, start, end, i)
    ensures KeyEnd(CStr(s[start..end])) == Some(i - start)
  {
    var text, k := CStr(s[start..end]), i - start;
    ColonInText(s, start, end, i);
    InText(s, start, end, text, k);
    KeyEndText(text[..k], text[k + 1..]);
  }

  lemma {:induction false} InText(s: string, start: nat, end: nat, text: string, k: nat)
    requires start <= end < |s| && text <= s[start..end] && k < |text| && IsKeyColon(s, start, end, start + k)
    ensures text == text[..k] + [':'] + text[k + 1..]
    ensures forall j :: 0 <= j < k ==> text[..k][j] != ':' && text[..k][j] != ' '
  {
    assert forall j :: 0 <= j < |text| ==> text[j] == s[start..end][j] == s[start + j];
  }

  /** All that a parse writes: a NUL at the end, and a NUL over the key's colon. */
  lemma {:induction false} OnlyTwoNuls(s: string, start: nat, end: nat, i: nat)
    requires start <= end < |s| && i < |s|
    ensures Marked(s, start, end)[i] == if i == end || IsKeyColon(s, start, end, i) then '\0' else s[i]
  {
    var k := KeyEnd(CStr(s[start..end]));
    if k.Some? { KeyColonFound(s, start, end, k.value); }
    if IsKeyColon(s, start, end, i) { KeyColonIs(s, start, end, i); }
  }

  lemma {:induction false} TextOf(s: string, end: nat, start: nat, text: string)
    requires start <= end < |s| && text == CStr(s[start..end])
    ensures var s' := s[end := '\0']; var nul := start + |text|;
            nul <= end && s'[start..nul] == text && s'[nul] == '\0' && forall i :: start <= i < nul ==> s'[i] != '\0'
  {
    assert forall i :: start <= i < start + |text| ==> s[i] == s[start..end][i - start];
  }

  /** A key of length `k`, NUL in place of its colon, and the rest of the line after it. */
  ghost predicate KeyTaken(buf: array<char>, start: nat, nul: nat, text: string, k: nat)
    reads buf
  {
    && KeyEnd(text) == Some(k) && nul == start + |text|
    && Terminated(buf, start + k + 1, nul) && buf[start + k + 1..nul] == text[k + 1..]
    && KeyAt(buf, start, text[..k])
  }

  /** `key` stands at `start`, NUL-terminated. */
  ghost predicate KeyAt(buf: array<char>, start: nat, key: string)
    reads buf
  {
    start + |key| < buf.Length && buf[start..start + |key|] == key && buf[start + |key|] == '\0'
  }

  /** The sentinel, the key and the NUL written over its colon. */
  method TakeKey(buf: array<char>, start: nat, end: nat) returns (k: Option<nat>, ghost text: string, ghost nul: nat)
    requires start <= end < buf.Length
    modifies buf
    ensures text == CStr(old(buf[start..end])) && k == KeyEnd(text)
    ensures buf[..] == Marked(old(buf[..]), start, end)
    ensures k.Some? ==> KeyTaken(buf, start, nul, text, k.value)
  {
    ghost var was := buf[..];
    assert was[start..end] == buf[start..end];
    text := CStr(was[start..end]);
    nul := start + |text|;
    TextOf(was, end, start, text);
    buf[end] := '\0';
    assert buf[..] == was[end := '\0'];
    assert buf[start..nul] == buf[..][start..nul];
    k := FindColon(buf, start, nul);
    if k.Some? {
      MarkKey(buf, start, k.value, nul, text);
    }
  }

  /** The NUL over the colon. */
  method MarkKey(buf: array<char>, start: nat, k: nat, ghost nul: nat, ghost text: string)
    requires Terminated(buf, start, nul) && buf[start..nul] == text && KeyEnd(text) == Some(k)
    modifies buf
    ensures buf[..] == old(buf[..])[start + k := '\0'] && KeyTaken(buf, start, nul, text, k)
  {
    buf[start + k] := '\0';
    assert buf[start..start + k] == text[..k];
    assert buf[start + k + 1..nul] == text[k + 1..];
  }

  /** The byte before the line; at the very start of the buffer, whatever memory holds there. */
  function ByteBefore(outside: char, s: string, start: nat): char
    requires start <= |s|
  {
    if start == 0 then outside else s[start - 1]
  }

  /** The line's text, as the parser sees it. */
  function LineAt(s: string, start: nat, end: nat): string
    requires start <= end <= |s|
  {
    CStr(s[start..end])
  }

  /**
    brubeck_statsd_msg_parse: the result is that of the grammar's parser on the C string in
    `buf[start..end]`; the only bytes written are the two NULs. An accepted key stands at
    `start`, and a NUL follows where its length says exactly when that length fits 16 bits.
    `outside` is the byte in front of the buffer, which an empty key at its start makes the
    parser look at.
   */
  method ParseMessage(buf: array<char>, start: nat, end: nat, outside: char, strtod: string -> real,
                      length: string -> nat)
    returns (msg: Option<Message>)
    requires start <= end < buf.Length
    modifies buf
    ensures msg == Parse(PlainNumbers(strtod, length), old(ByteBefore(outside, buf[..], start)),
                         LineAt(old(buf[..]), start, end))
    ensures buf[..] == Marked(old(buf[..]), start, end)
    ensures msg.Some? ==> KeyPlaced(buf, start, LineAt(old(buf[..]), start, end), msg.value.key)
  {
    ghost var was := buf[..];
    var k;
    ghost var text, nul;
    assert buf[start..end] == was[start..end];
    k, text, nul := TakeKey(buf, start, end);
    if k.None? {
      return None;
    }
    FrontByte(was, start, end, outside);
    msg := KeyedMessage(buf, start, k.value, nul, outside, strtod, length, text, ByteBefore(outside, was, start));
  }

  /** The key's place in the buffer, and when it is NUL-terminated there. */
  ghost predicate KeyPlaced(buf: array<char>, start: nat, text: string, key: string)
    reads buf
  {
    && KeyEnd(text).Some? && key == CutKey(text[..KeyEnd(text).value])
    && start + |key| < buf.Length && buf[start..start + |key|] == key
    && (KeyAt(buf, start, key) <==> KeyEnd(text).value < 0x1_0000)
  }

  /** The byte in front is not one that a parse writes. */
  lemma {:induction false} FrontByte(s: string, start: nat, end: nat, outside: char)
    requires start <= end < |s|
    ensures ByteBefore(outside, Marked(s, start, end), start) == ByteBefore(outside, s, start)
  {
  }

  /** Only whole keys end at a NUL: a cut one goes on. */
  lemma {:induction false} PlacedKey(buf: array<char>, start: nat, nul: nat, text: string, k: nat)
    requires KeyTaken(buf, start, nul, text, k) && forall i :: 0 <= i < |text| ==> text[i] != '\0'
    ensures KeyPlaced(buf, start, text, CutKey(text[..k]))
  {
    var key := CutKey(text[..k]);
    assert buf[start..start + |key|] == text[..k][..|key|];
    if k < 0x1_0000 {
      KeyExact(text[..k]);
    } else {
      assert buf[start..start + k][|key|] == text[..k][|key|];
    }
  }

  /** The rest of the line, once its key has been found. */
  method KeyedMessage(buf: array<char>, start: nat, k: nat, ghost nul: nat, outside: char,
                      strtod: string -> real, length: string -> nat, ghost text: string, ghost before: char)
    returns (msg: Option<Message>)
    requires KeyTaken(buf, start, nul, text, k) && ByteBefore(outside, buf[..], start) == before
    requires forall i :: 0 <= i < |text| ==> text[i] != '\0'
    ensures msg == Parse(PlainNumbers(strtod, length), before, text)
    ensures msg.Some? ==> KeyPlaced(buf, start, text, msg.value.key)
  {
    ghost var key := CutKey(text[..k]);
    PlacedKey(buf, start, nul, text, k);
    var keyLen := k % 0x1_0000;
    var last := if start + keyLen == 0 then outside else buf[start + keyLen - 1];
    LastByte(buf, start, key, outside, last);
    msg := FinishMessage(buf, start, keyLen, start + k + 1, nul, last, strtod, length, key, text[k + 1..]);
    ParseKeyAt(Body(PlainNumbers(strtod, length)), before, text, k);
  }

  /** `msg->key[msg->key_len - 1]` */
  lemma {:induction false} LastByte(buf: array<char>, start: nat, key: string, outside: char, last: char)
    requires start + |key| <= buf.Length && buf[start..start + |key|] == key
    requires last == if start + |key| == 0 then outside else buf[start + |key| - 1]
    ensures last == LastOfKey(ByteBefore(outside, buf[..], start), key)
  {
  }

  /** From the check of the key's last byte on. */
  method FinishMessage(buf: array<char>, start: nat, keyLen: nat, at: nat, ghost nul: nat, last: char,
                       strtod: string -> real, length: string -> nat, ghost key: string, ghost body: string)
    returns (msg: Option<Message>)
    requires keyLen == |key| && start + keyLen <= buf.Length && buf[start..start + keyLen] == key
    requires Terminated(buf, at, nul) && body == buf[at..nul]
    ensures msg == if last == '.' then None else Body(PlainNumbers(strtod, length))(key, body)
    ensures msg.Some? ==> msg.value.key == key
  {
    if last == '.' {
      return None;
    }
    msg := ReadBody(buf, at, nul, strtod, length, buf[start..start + keyLen]);
  }

  lemma {:induction false} ParseKeyAt(rest: BodyParser, before: char, s: string, k: nat)
    requires KeyEnd(s) == Some(k)
    ensures ParseKey(rest, before, s) ==
            if LastOfKey(before, CutKey(s[..k])) == '.' then None else rest(CutKey(s[..k]), s[k + 1..])
  {
  }
}
