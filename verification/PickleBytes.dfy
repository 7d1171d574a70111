/** The bytes themselves: what src/backends/carbon.c puts on the wire, in the numbers of the format. */
module PickleBytes {
  import opened Pickle
  import opened CarbonStream
  import opened Words

  /** The four bytes of a word, least significant first. */
  lemma {:induction false} WordBytes(n: nat, b: seq<Byte>)
    requires n < UINT32 && b == Bytes32(n)
    ensures b == [n % 256, n / 0x100 % 256, n / 0x1_0000 % 256, n / 0x100_0000]
  {
  }

  /** The bytes of the key, as in the source: '(' 'U' length key 'q' memo. */
  lemma {:induction false} KeyBytes(key: seq<Byte>, pt: nat)
    requires |key| < 256
    ensures EncodeKey(key, pt) == [40, 85, |key|] + key + [113, pt % 256]
  {
  }

  /** The bytes of the point: '(' 'J' timestamp 'G' double 't' 'q' memo. */
  lemma {:induction false} PointBytes(timestamp: nat, v: seq<Byte>, pt: nat)
    requires timestamp < UINT32 && |v| == 8
    ensures EncodePoint(timestamp, v, pt) ==
            [40, 74] + Bytes32(timestamp) + [71, v[7], v[6], v[5], v[4], v[3], v[2], v[1], v[0]] + [116, 113, pt % 256]
  {
  }

  /** A sample: key, point, and 't' 'q' memo around both. */
  lemma {:induction false} WholeSampleBytes(x: Sample, pt: nat)
    requires IsSample(x)
    ensures EncodeSample(x, pt) ==
            EncodeKey(x.key, pt) + EncodePoint(x.timestamp, x.value, pt + 1) + [116, 113, (pt + 2) % 256]
  {
  }

  /** A payload: ']' 'q' 0 '(' in front and 'e' '.' at the end; nothing but samples in between. */
  lemma {:induction false} PayloadBytes(xs: seq<Sample>)
    requires AllSamples(xs)
    ensures Payload(xs) == [93, 113, 0, 40] + EncodeSamples(xs) + [101, 46]
  {
  }

  /** A frame: the payload's length, most significant byte first, and the payload. */
  lemma {:induction false} FrameBytes(xs: seq<Sample>)
    requires Fits(xs)
    ensures |Payload(xs)| < 0x1_0000
    ensures Packet(xs) == [0, 0, |Payload(xs)| / 256, |Payload(xs)| % 256] + Payload(xs)
  {
    EncodedLength(xs);
    var n := |Payload(xs)|;
    WordBytes(n, Bytes32(n));
  }

  lemma {:induction false} OneEncoded(x: Sample)
    requires IsSample(x)
    ensures AllSamples([x]) && EncodeSamples([x]) == EncodeSample(x, 1)
  {
    EncodeSamplesPush([], x);
    assert [] + [x] == [x] && EncodeSamples([]) + EncodeSample(x, 1) == EncodeSample(x, 1);
  }

  lemma {:induction false} KeyOnTheWire(key: seq<Byte>)
    requires key == [97]
    ensures EncodeKey(key, 1) == [40, 85, 1, 97, 113, 1]
  {
    KeyBytes(key, 1);
  }

  lemma {:induction false} PointOnTheWire(timestamp: nat, v: seq<Byte>)
    requires timestamp == 0x0102_0304 && v == [1, 2, 3, 4, 5, 6, 7, 8]
    ensures EncodePoint(timestamp, v, 2) == [40, 74, 4, 3, 2, 1, 71, 8, 7, 6, 5, 4, 3, 2, 1, 116, 113, 2]
  {
    WordBytes(timestamp, Bytes32(timestamp));
    PointBytes(timestamp, v, 2);
  }

  lemma {:induction false} EncodedOnTheWire(x: Sample)
    requires x == Sample([97], 0x0102_0304, [1, 2, 3, 4, 5, 6, 7, 8])
    ensures EncodeSample(x, 1) == [40, 85, 1, 97, 113, 1, 40, 74, 4, 3, 2, 1,
                                   71, 8, 7, 6, 5, 4, 3, 2, 1, 116, 113, 2, 116, 113, 3]
  {
    KeyOnTheWire(x.key);
    PointOnTheWire(x.timestamp, x.value);
    WholeSampleBytes(x, 1);
  }

  lemma {:induction false} OneFits(x: Sample)
    requires IsSample(x) && |x.key| == 1
    ensures Fits([x]) && |Payload([x])| == 33
  {
    assert [x][..0] == [];
    assert Pos([x]) == 35;
    EncodedLength([x]);
  }

  lemma {:induction false} Enclosed(lead: seq<Byte>, code: seq<Byte>, trail: seq<Byte>)
    requires lead == [0, 0, 0, 33] + [93, 113, 0, 40] && trail == [101, 46]
    requires code == [40, 85, 1, 97, 113, 1, 40, 74, 4, 3, 2, 1,
                      71, 8, 7, 6, 5, 4, 3, 2, 1, 116, 113, 2, 116, 113, 3]
    ensures lead + code + trail == [0, 0, 0, 33, 93, 113, 0, 40, 40, 85, 1, 97, 113, 1, 40, 74, 4, 3, 2, 1,
                                    71, 8, 7, 6, 5, 4, 3, 2, 1, 116, 113, 2, 116, 113, 3, 101, 46]
  {
  }

  lemma {:induction false} FrameParts(x: Sample, code: seq<Byte>)
    requires IsSample(x) && |x.key| == 1 && code == EncodeSample(x, 1)
    ensures Fits([x]) && Packet([x]) == [0, 0, 0, 33] + [93, 113, 0, 40] + code + [101, 46]
  {
    OneFits(x);
    OneEncoded(x);
    PayloadBytes([x]);
    FrameBytes([x]);
    Regroup([0, 0, 0, 33], [93, 113, 0, 40], code, [101, 46]);
  }

  lemma {:induction false} Regroup(a: seq<Byte>, b: seq<Byte>, c: seq<Byte>, d: seq<Byte>)
    ensures a + (b + c + d) == a + b + c + d
  {
  }

  /** The sample ("a", (0x01020304, the double with bytes 1 to 8)), whole, as it goes over the wire. */
  lemma {:induction false} OneSampleOnTheWire(x: Sample)
    requires x == Sample([97], 0x0102_0304, [1, 2, 3, 4, 5, 6, 7, 8])
    ensures Fits([x])
    ensures Packet([x]) == [0, 0, 0, 33, 93, 113, 0, 40, 40, 85, 1, 97, 113, 1, 40, 74, 4, 3, 2, 1,
                            71, 8, 7, 6, 5, 4, 3, 2, 1, 116, 113, 2, 116, 113, 3, 101, 46]
  {
    var code := EncodeSample(x, 1);
    EncodedOnTheWire(x);
    FrameParts(x, code);
    Enclosed([0, 0, 0, 33] + [93, 113, 0, 40], code, [101, 46]);
  }

  /** BININT reads a word as the signed number congruent to it. */
  lemma {:induction false} SignedCongruent(n: nat)
    requires n < UINT32
    ensures -0x8000_0000 <= Signed32(n) < 0x8000_0000 && (Signed32(n) == n || Signed32(n) == n - UINT32)
  {
  }
}
