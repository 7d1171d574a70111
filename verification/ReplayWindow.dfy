/**
  The rolling replay filter of src/samplers/statsd-secure.c: one slot of remembered tokens
  per second of drift, the slot of the new second cleared whenever the clock reading
  changes. What it accepts, over every run of calls.
 */
module ReplayWindow {
  import Arith

  /** What verify_token reads from an authenticated packet. */
  datatype Token = Token(ha: nat, hb: nat, timestamp: nat)

  datatype Verdict = Accepted | FromFuture | Delayed | Replayed

  datatype Window = Window(now: nat, drift: nat, slots: seq<set<nat>>)

  /** The filter positions of a token; any deterministic function. */
  type Hasher = Token -> set<nat>

  predicate IsWindow(w: Window) { w.drift >= 1 && |w.slots| == w.drift }

  /** A new clock reading clears the slot of that second. */
  function Tick(w: Window, clock: nat): (w': Window)
    requires IsWindow(w)
    ensures IsWindow(w') && w'.now == clock && w'.drift == w.drift
  {
    if clock != w.now then w.(now := clock, slots := w.slots[clock % w.drift := {}]) else w
  }

  predicate InTime(drift: nat, clock: nat, token: Token) {
    token.timestamp <= clock <= token.timestamp + drift
  }

  /** verify_token */
  function Verify(pos: Hasher, w: Window, clock: nat, token: Token): (r: (Window, Verdict))
    requires IsWindow(w)
    ensures IsWindow(r.0) && r.0.now == clock && r.0.drift == w.drift
  {
    var w1 := Tick(w, clock);
    if w1.now < token.timestamp then (w1, FromFuture)
    else if w1.now - token.timestamp > w1.drift then (w1, Delayed)
    else
      var s := token.timestamp % w1.drift;
      (w1.(slots := w1.slots[s := w1.slots[s] + pos(token)]),
       if pos(token) <= w1.slots[s] then Replayed else Accepted)
  }

  // ----- runs -----

  datatype Call = Call(clock: nat, token: Token)

  /** The sampler before its first call. */
  function Start(drift: nat): Window
    requires drift >= 1
  {
    Window(0, drift, seq(drift, _ => {}))
  }

  function WindowAt(pos: Hasher, drift: nat, calls: seq<Call>, j: nat): (w: Window)
    requires drift >= 1 && j <= |calls|
    ensures IsWindow(w) && w.drift == drift
    ensures w.now == if j == 0 then 0 else calls[j - 1].clock
  {
    if j == 0 then Start(drift)
    else Verify(pos, WindowAt(pos, drift, calls, j - 1), calls[j - 1].clock, calls[j - 1].token).0
  }

  function VerdictAt(pos: Hasher, drift: nat, calls: seq<Call>, j: nat): Verdict
    requires drift >= 1 && j < |calls|
  {
    Verify(pos, WindowAt(pos, drift, calls, j), calls[j].clock, calls[j].token).1
  }

  /** Call k finds a new clock reading, and so clears slot s. */
  predicate Clears(drift: nat, calls: seq<Call>, k: nat, s: nat)
    requires drift >= 1 && k < |calls|
  {
    calls[k].clock != (if k == 0 then 0 else calls[k - 1].clock) && calls[k].clock % drift == s
  }

  /** Call k gets as far as consulting slot s. */
  predicate Consults(drift: nat, calls: seq<Call>, k: nat, s: nat)
    requires drift >= 1 && k < |calls|
  {
    InTime(drift, calls[k].clock, calls[k].token) && calls[k].token.timestamp % drift == s
  }

  /** Call k consulted slot s and nothing in calls k+1 .. j-1 cleared it. */
  predicate Remembered(drift: nat, calls: seq<Call>, k: nat, j: nat, s: nat)
    requires drift >= 1 && k < j <= |calls|
  {
    Consults(drift, calls, k, s) && forall m :: k < m < j ==> !Clears(drift, calls, m, s)
  }

  lemma StepSlot(pos: Hasher, drift: nat, calls: seq<Call>, j: nat, s: nat)
    requires drift >= 1 && 0 < j <= |calls| && s < drift
    ensures WindowAt(pos, drift, calls, j).slots[s] ==
            (if Clears(drift, calls, j - 1, s) then {} else WindowAt(pos, drift, calls, j - 1).slots[s])
            + (if Consults(drift, calls, j - 1, s) then pos(calls[j - 1].token) else {})
  {
  }

  /** A slot holds exactly the positions of the tokens checked against it since it was last cleared. */
  lemma {:induction false} SlotContents(pos: Hasher, drift: nat, calls: seq<Call>, j: nat, s: nat, x: nat)
    requires drift >= 1 && j <= |calls| && s < drift
    ensures x in WindowAt(pos, drift, calls, j).slots[s] <==>
            exists k :: 0 <= k < j && Remembered(drift, calls, k, j, s) && x in pos(calls[k].token)
  {
    if j == 0 {
    } else {
      StepSlot(pos, drift, calls, j, s);
      SlotContents(pos, drift, calls, j - 1, s, x);
      if x in WindowAt(pos, drift, calls, j).slots[s] {
        if Consults(drift, calls, j - 1, s) && x in pos(calls[j - 1].token) {
          assert Remembered(drift, calls, j - 1, j, s);
        } else {
          var k :| 0 <= k < j - 1 && Remembered(drift, calls, k, j - 1, s) && x in pos(calls[k].token);
          assert Remembered(drift, calls, k, j, s);
        }
      } else {
        forall k | 0 <= k < j && Remembered(drift, calls, k, j, s) ensures x !in pos(calls[k].token) {
          if k < j - 1 {
            assert Remembered(drift, calls, k, j - 1, s);
          }
        }
      }
    }
  }

  /** Call k consulted call j's slot, and no call after k, up to and including j, cleared it. */
  predicate Blocks(drift: nat, calls: seq<Call>, k: nat, j: nat)
    requires drift >= 1 && k < j < |calls|
  {
    var s := calls[j].token.timestamp % drift;
    Consults(drift, calls, k, s) && forall m :: k < m <= j ==> !Clears(drift, calls, m, s)
  }

  lemma TickSlot(w: Window, clock: nat, s: nat)
    requires IsWindow(w) && s < w.drift
    ensures Tick(w, clock).slots[s] == if clock != w.now && clock % w.drift == s then {} else w.slots[s]
  {
  }

  /** Once call j has ticked, what blocks its token is what its slot remembers. */
  lemma BlocksIsRemembered(drift: nat, calls: seq<Call>, k: nat, j: nat, s: nat)
    requires drift >= 1 && k < j < |calls| && s == calls[j].token.timestamp % drift
    ensures Blocks(drift, calls, k, j) <==> Remembered(drift, calls, k, j, s) && !Clears(drift, calls, j, s)
  {
  }

  lemma SlotAtCheck(pos: Hasher, drift: nat, calls: seq<Call>, j: nat, x: nat)
    requires drift >= 1 && j < |calls|
    ensures x in Tick(WindowAt(pos, drift, calls, j), calls[j].clock).slots[calls[j].token.timestamp % drift] <==>
            exists k :: 0 <= k < j && Blocks(drift, calls, k, j) && x in pos(calls[k].token)
  {
    var s := calls[j].token.timestamp % drift;
    var w := WindowAt(pos, drift, calls, j);
    TickSlot(w, calls[j].clock, s);
    forall k | 0 <= k < j
      ensures Blocks(drift, calls, k, j) <==> Remembered(drift, calls, k, j, s) && !Clears(drift, calls, j, s)
    {
      BlocksIsRemembered(drift, calls, k, j, s);
    }
    if !Clears(drift, calls, j, s) {
      SlotContents(pos, drift, calls, j, s, x);
      if x in w.slots[s] {
        var k :| 0 <= k < j && Remembered(drift, calls, k, j, s) && x in pos(calls[k].token);
        assert Blocks(drift, calls, k, j);
      }
    }
  }

  /** Position x of call j's token belongs to no token that still counts against its slot. */
  predicate Unclaimed(pos: Hasher, drift: nat, calls: seq<Call>, j: nat, x: nat)
    requires drift >= 1 && j < |calls|
  {
    forall k :: 0 <= k < j && Blocks(drift, calls, k, j) ==> x !in pos(calls[k].token)
  }

  /**
    Exactly when a token is accepted: its timestamp is within the drift, and one of its
    positions belongs to no token that still counts against its slot.
   */
  lemma AcceptedExactlyWhen(pos: Hasher, drift: nat, calls: seq<Call>, j: nat)
    requires drift >= 1 && j < |calls|
    ensures VerdictAt(pos, drift, calls, j) == Accepted <==>
            && InTime(drift, calls[j].clock, calls[j].token)
            && exists x :: x in pos(calls[j].token) && Unclaimed(pos, drift, calls, j, x)
  {
    var slot := Tick(WindowAt(pos, drift, calls, j), calls[j].clock).slots[calls[j].token.timestamp % drift];
    forall x: nat ensures x !in slot <==> Unclaimed(pos, drift, calls, j, x) {
      SlotAtCheck(pos, drift, calls, j, x);
    }
  }

  /** Position x of call j's token belongs to a token that still counts against its slot. */
  predicate Claimed(pos: Hasher, drift: nat, calls: seq<Call>, j: nat, x: nat)
    requires drift >= 1 && j < |calls|
  {
    exists k :: 0 <= k < j && Blocks(drift, calls, k, j) && x in pos(calls[k].token)
  }

  /**
    The other verdicts: a token is from the future, or delayed, by its timestamp alone; and it
    is a replay if it is neither and all its positions belong to tokens that still count.
   */
  lemma {:induction false} RejectedExactlyWhen(pos: Hasher, drift: nat, calls: seq<Call>, j: nat)
    requires drift >= 1 && j < |calls|
    ensures var Call(clock, token) := calls[j]; var verdict := VerdictAt(pos, drift, calls, j);
            && (verdict == FromFuture <==> clock < token.timestamp)
            && (verdict == Delayed <==> token.timestamp + drift < clock)
            && (verdict == Replayed <==>
                  && token.timestamp <= clock <= token.timestamp + drift
                  && forall x :: x in pos(token) ==> Claimed(pos, drift, calls, j, x))
  {
    var slot := Tick(WindowAt(pos, drift, calls, j), calls[j].clock).slots[calls[j].token.timestamp % drift];
    forall x: nat ensures x in slot <==> Claimed(pos, drift, calls, j, x) {
      SlotAtCheck(pos, drift, calls, j, x);
    }
  }

  /** Whatever the clock does: a token is accepted twice only if its slot was cleared in between. */
  lemma TwiceNeedsClearing(pos: Hasher, drift: nat, calls: seq<Call>, i: nat, j: nat)
    requires drift >= 1 && i < j < |calls| && calls[i].token == calls[j].token
    requires VerdictAt(pos, drift, calls, i) == Accepted && VerdictAt(pos, drift, calls, j) == Accepted
    ensures exists k :: i < k <= j && Clears(drift, calls, k, calls[j].token.timestamp % drift)
  {
    AcceptedExactlyWhen(pos, drift, calls, j);
    var x :| x in pos(calls[j].token) && Unclaimed(pos, drift, calls, j, x);
    assert !Blocks(drift, calls, i, j);
  }

  ghost predicate Monotone(calls: seq<Call>) {
    forall i, j :: 0 <= i <= j < |calls| ==> calls[i].clock <= calls[j].clock
  }

  /** Only one multiple of the drift lies in the half-open second after a timestamp's window. */
  lemma SameSlot(drift: nat, t: nat, c: nat)
    requires drift >= 1 && t < c <= t + drift && c % drift == t % drift
    ensures c == t + drift
  {
    var q := c / drift;
    Arith.DivMod(c, drift);
    Arith.DivMod(t, drift);
    assert (q - 1) * drift == q * drift - drift;
    Arith.DivModUnique(t + drift, t / drift + 1, t % drift, drift) by {
      assert (t / drift + 1) * drift == (t / drift) * drift + drift;
    }
    if q <= t / drift {
      Arith.MulMonotone(q, t / drift, drift);
    } else {
      Arith.MulMonotone(t / drift + 1, q, drift);
    }
  }

  /**
    The rejection window, for a clock that never steps back: once a token with timestamp t
    has been accepted, it is accepted again only at reading t + drift exactly, and only if
    the first time was earlier. So it is rejected at the same reading and below t + drift.
   */
  lemma AcceptedAgainOnlyAtTheEnd(pos: Hasher, drift: nat, calls: seq<Call>, i: nat, j: nat)
    requires drift >= 1 && Monotone(calls) && i < j < |calls| && calls[i].token == calls[j].token
    requires VerdictAt(pos, drift, calls, i) == Accepted && VerdictAt(pos, drift, calls, j) == Accepted
    ensures calls[i].clock < calls[j].clock == calls[j].token.timestamp + drift
    ensures exists k :: i < k <= j && Clears(drift, calls, k, calls[j].token.timestamp % drift)
              && calls[k].clock == calls[j].clock
  {
    var t := calls[j].token.timestamp;
    TwiceNeedsClearing(pos, drift, calls, i, j);
    var k :| i < k <= j && Clears(drift, calls, k, t % drift);
    assert calls[i].clock <= calls[k - 1].clock <= calls[k].clock <= calls[j].clock;
    assert InTime(drift, calls[i].clock, calls[i].token) && InTime(drift, calls[j].clock, calls[j].token);
    SameSlot(drift, t, calls[k].clock);
  }

  /** No token is accepted three times. */
  lemma AtMostTwice(pos: Hasher, drift: nat, calls: seq<Call>, i: nat, j: nat, l: nat)
    requires drift >= 1 && Monotone(calls) && i < j < l < |calls|
    requires calls[i].token == calls[j].token == calls[l].token
    requires VerdictAt(pos, drift, calls, i) == Accepted && VerdictAt(pos, drift, calls, j) == Accepted
    ensures VerdictAt(pos, drift, calls, l) != Accepted
  {
    if VerdictAt(pos, drift, calls, l) == Accepted {
      AcceptedAgainOnlyAtTheEnd(pos, drift, calls, i, j);
      AcceptedAgainOnlyAtTheEnd(pos, drift, calls, j, l);
    }
  }

  /** And twice does happen, for every filter and every token: at its timestamp, and again at the end of its drift. */
  lemma TwiceHappens(pos: Hasher, drift: nat, token: Token)
    requires drift >= 1 && pos(token) != {}
    ensures var t := token.timestamp;
            var calls := [Call(t, token), Call(t + drift, token)];
            && Monotone(calls)
            && VerdictAt(pos, drift, calls, 0) == Accepted && VerdictAt(pos, drift, calls, 1) == Accepted
  {
    var t := token.timestamp;
    var calls := [Call(t, token), Call(t + drift, token)];
    var x :| x in pos(token);
    WrapOnce(t, drift);
    AcceptedExactlyWhen(pos, drift, calls, 0);
    assert Unclaimed(pos, drift, calls, 0, x);
    assert Clears(drift, calls, 1, t % drift);
    AcceptedExactlyWhen(pos, drift, calls, 1);
    assert !Blocks(drift, calls, 0, 1);
    assert Unclaimed(pos, drift, calls, 1, x);
  }

  lemma WrapOnce(t: nat, drift: nat)
    requires drift >= 1
    ensures (t + drift) % drift == t % drift
  {
    Arith.DivMod(t, drift);
    assert (t / drift + 1) * drift == (t / drift) * drift + drift;
    Arith.DivModUnique(t + drift, t / drift + 1, t % drift, drift);
  }

  /** The clock assumption is needed: if it steps back, a token is accepted twice at the same reading. */
  lemma SteppingBackReplays()
    ensures var pos: Hasher := (token: Token) => {token.ha};
            var token := Token(7, 0, 10);
            var calls := [Call(10, token), Call(11, Token(8, 0, 11)), Call(10, token)];
            VerdictAt(pos, 4, calls, 0) == Accepted && VerdictAt(pos, 4, calls, 2) == Accepted
  {
    var pos: Hasher := (token: Token) => {token.ha};
    var token := Token(7, 0, 10);
    var calls := [Call(10, token), Call(11, Token(8, 0, 11)), Call(10, token)];
    AcceptedExactlyWhen(pos, 4, calls, 0);
    assert 7 in pos(token);
    assert Clears(4, calls, 2, 2);
    AcceptedExactlyWhen(pos, 4, calls, 2);
    assert !Blocks(4, calls, 0, 2) && !Blocks(4, calls, 1, 2);
  }
}
