/** verify_token of src/samplers/statsd-secure.c over the real filters, refining `ReplayWindow`. */
module StatsdSecure {
  import opened Bloom
  import opened ReplayWindow

  function HasherOf(bits: nat, hashes: nat): Hasher
    requires bits >= 1
  {
    (token: Token) => Positions(bits, hashes, token.ha, token.hb)
  }

  class Sampler {
    var now: nat
    const drift: nat
    const replays: Multibloom

    ghost predicate Valid() {
      drift >= 1 && replays.Valid() && |replays.filters| == drift
    }

    ghost function Pos(): Hasher
      requires Valid()
    {
      HasherOf(replays.bits, replays.hashes)
    }

    /** What the sampler remembers, as sets of positions. */
    ghost function Model(): (w: Window)
      requires Valid()
      reads this, replays.filters
      ensures IsWindow(w)
    {
      Window(now, drift, seq(drift, s requires 0 <= s < |replays.filters| reads replays.filters => replays.Slot(s)))
    }

    constructor (drift: nat, bits: nat, hashes: nat)
      requires drift >= 1 && bits >= 1
      ensures Valid() && Model() == Start(drift)
      ensures fresh(replays.filters)
    {
      this.now := 0;
      this.drift := drift;
      this.replays := new Multibloom(drift, bits, hashes);
      new;
      assert Model().slots == Start(drift).slots;
    }

    /** `clock` is the reading of CLOCK_REALTIME; the rest is read from the packet. */
    method VerifyToken(clock: nat, ha: nat, hb: nat, timestamp: nat) returns (verdict: Verdict)
      requires Valid()
      modifies this, replays.filters
      ensures (Model(), verdict) == Verify(Pos(), old(Model()), clock, Token(ha, hb, timestamp))
    {
      ghost var w := Model();
      ghost var token := Token(ha, hb, timestamp);
      if clock != now {
        now := clock;
        replays.Reset(now % drift);
      }
      ghost var w1 := Model();
      assert w1.slots == Tick(w, clock).slots;
      if now < timestamp {
        return FromFuture;
      }
      if now - timestamp > drift {
        return Delayed;
      }
      var s := timestamp % drift;
      var seen := replays.Check(s, ha, hb);
      assert Pos()(token) == Positions(replays.bits, replays.hashes, ha, hb);
      assert Model().slots == w1.slots[s := w1.slots[s] + Pos()(token)];
      verdict := if seen then Replayed else Accepted;
    }
  }
}
