/** Theorems about the wall-clock pacing of the streaming loop (internal/raop/sender.go:634-681, 705-744). */
module Pacing {
  import opened Words
  import opened NtpClock
  import opened Protocol
  import opened StreamMachine

  /** time.Duration(delivered) * time.Second / time.Duration(rate), all in int64. */
  function PacingOffset(delivered: u64, rate: int): int
    requires rate > 0
  {
    TruncDiv(S64(S64(delivered) * NANOS), rate)
  }

  /** pacingTarget: the instant at which the frames counted so far should have been delivered. */
  function PacingTarget(c: Core): int
    requires c.rate > 0
  {
    c.anchorWall + PacingOffset(W64(c.framesSent - c.anchorFrames), c.rate)
  }

  /** Every wait of the run is a wait for the loop's own pacing target. */
  ghost predicate Paced(c0: Core, t: Trace)
    requires c0.rate > 0 && Legal(c0, t)
  {
    t == [] || (Paced(c0, Front(t)) && (Last(t).Waited? ==> Last(t).target == PacingTarget(Run(c0, Front(t)))))
  }

  /** The last frame count for which nanoseconds still fit the 63 bits of time.Duration: 2^63 / 10^9. */
  const MAX_PACED := 9_223_372_036

  /** pacingTarget is the exact slot time as long as the product fits, and never beyond that. */
  lemma OffsetExact(delivered: u64, rate: int)
    requires 0 < rate < 0x8000_0000_0000_0000
    ensures PacingOffset(delivered, rate) == delivered * NANOS / rate <==> delivered <= MAX_PACED
  {
    if delivered <= MAX_PACED {
      OffsetSmall(delivered, rate);
    } else {
      var a := Unwrap(delivered);
      var b := Unwrap(S64(delivered) * NANOS);
      assert delivered * NANOS - S64(S64(delivered) * NANOS) == 0x1_0000_0000_0000_0000 * (a * NANOS + b);
      Apart(delivered * NANOS, S64(S64(delivered) * NANOS), rate);
    }
  }

  lemma Unwrap(x: int) returns (k: int)
    ensures x == S64(x) + 0x1_0000_0000_0000_0000 * k
    ensures -0x8000_0000_0000_0000 <= S64(x) < 0x8000_0000_0000_0000
  {
    k := x / 0x1_0000_0000_0000_0000 + (if W64(x) < 0x8000_0000_0000_0000 then 0 else 1);
  }

  lemma Apart(exact: int, wrapped: int, rate: int)
    requires 0 < rate < 0x8000_0000_0000_0000
    requires exact >= 0x8000_0000_0000_0000 && exact - wrapped >= 0x1_0000_0000_0000_0000
    ensures TruncDiv(wrapped, rate) < exact / rate
  {
    QuotientBelow(exact, rate);
    if wrapped >= 0 {
      QuotientBelow(wrapped, rate);
      ProductOrder(wrapped / rate, exact / rate, rate);
    } else {
      QuotientBelow(-wrapped, rate);
      ProductOrder(0, exact / rate, rate);
    }
  }

  lemma ProductOrder(a: int, b: int, r: int)
    requires r > 0 && a * r < b * r
    ensures a < b
  {}

  /**
   The target lies before the anchor, so that the loop sends without waiting at all, exactly when the wrapped product
   is negative by a nanosecond's worth of frames; up to 2^64 / 10^9 frames that is for every count past the bound.
   */
  lemma OverflowDropsPacing(delivered: u64, rate: int)
    requires 0 < rate < 0x8000_0000_0000_0000
    ensures PacingOffset(delivered, rate) < 0
       <==> 0x8000_0000_0000_0000 <= W64(delivered * NANOS) <= 0x1_0000_0000_0000_0000 - rate
    ensures delivered <= 2 * MAX_PACED + 1 && rate <= 709_551_616
       ==> (PacingOffset(delivered, rate) < 0 <==> delivered > MAX_PACED)
  {
    var a := Unwrap(delivered);
    var b := Unwrap(S64(delivered) * NANOS);
    var c := Unwrap(delivered * NANOS);
    var wrapped := S64(S64(delivered) * NANOS);
    assert S64(delivered * NANOS) - wrapped == 0x1_0000_0000_0000_0000 * (a * NANOS + b - c);
    NegativeQuotient(wrapped, rate);
  }

  lemma NegativeQuotient(x: int, rate: int)
    requires rate > 0
    ensures TruncDiv(x, rate) < 0 <==> x <= -rate
  {
    if x < 0 {
      QuotientBelow(-x, rate);
      PositiveQuotient(-x, (-x) / rate, rate);
    } else {
      QuotientBelow(x, rate);
    }
  }

  lemma PositiveQuotient(x: nat, q: nat, rate: int)
    requires rate > 0 && q * rate <= x < q * rate + rate
    ensures q > 0 <==> x >= rate
  {
    if q > 0 {
      assert (q - 1) * rate >= 0;
    }
  }

  // ---- The pacing account of a run ----

  /** Packets built since pacing was last re-based. */
  function PacketsSince(t: Trace): nat {
    if t == [] || Last(t).Rebased? || Last(t).DrainStarted? then 0
    else PacketsSince(Front(t)) + (if Last(t).Built? then 1 else 0)
  }

  /** Pacing is re-based before any anchor has seen more than n packets. */
  predicate AtMost(t: Trace, n: int) {
    t == [] || (AtMost(Front(t), n) && PacketsSince(t) <= n)
  }

  /** The packets one pacing anchor can carry: the frames of all but the last of them still fit. */
  const MAX_PACKETS := 26_202_762

  /** One packet, plus the nanosecond lost by the division, for every rebase. */
  function Allowance(rate: int): int { FRAMES_PER_PACKET * NANOS + rate }

  /**
   The pacing account: `before` packets were counted before the current anchor, `since` after it; t0 is the first
   anchor and r the number of anchors set so far. All in frame-nanoseconds, so that no rounding is hidden.
   */
  predicate Account(c0: Core, c: Core, t0: int, r: nat, before: nat, since: nat) {
    && (c.phase == Idle ==> r == 0 && before == since == 0)
    && (c.phase != Idle ==>
          && r >= 1 && c.now >= c.anchorWall
          && FRAMES_PER_PACKET * NANOS * before <= (c.anchorWall - t0) * c.rate + (r - 1) * Allowance(c.rate)
          && FRAMES_PER_PACKET * NANOS * since <= (c.now - c.anchorWall) * c.rate + c.rate
                                                  + (if c.phase == Owing || since >= MAX_PACKETS
                                                     then FRAMES_PER_PACKET * NANOS else 0)
          && c.framesSent == W64(c0.framesSent + FRAMES_PER_PACKET * (before + since))
          && c.anchorFrames == W64(c0.framesSent + FRAMES_PER_PACKET * before))
  }

  lemma RebaseAccount(c0: Core, c: Core, e: Event, t0: int, r: nat, before: nat, since: nat)
    requires c.rate > 0 && Account(c0, c, t0, r, before, since) && Enabled(c, e) && (e.Rebased? || e.DrainStarted?)
    requires c.phase == Idle ==> e.at == t0 && c.framesSent == c0.framesSent
    ensures Account(c0, Step(c, e), t0, r + 1, before + since, 0)
  {
    if c.phase != Idle {
      RebaseBudget(c.rate, c.now - c.anchorWall, c.anchorWall - t0, e.at - c.now, r, before, since);
    }
  }

  lemma RebaseBudget(rate: int, spent: int, earlier: int, idle: nat, r: nat, before: nat, since: nat)
    requires rate > 0 && r >= 1
    requires FRAMES_PER_PACKET * NANOS * before <= earlier * rate + (r - 1) * Allowance(rate)
    requires FRAMES_PER_PACKET * NANOS * since <= spent * rate + Allowance(rate)
    ensures FRAMES_PER_PACKET * NANOS * (before + since) <= (earlier + spent + idle) * rate + r * Allowance(rate)
  {
    assert (earlier + spent + idle) * rate == earlier * rate + spent * rate + idle * rate;
    Scaled(idle, rate);
    assert r * Allowance(rate) == (r - 1) * Allowance(rate) + Allowance(rate);
  }

  lemma Scaled(a: nat, b: nat)
    ensures a * b >= 0
  {}

  lemma WaitAccount(anchorWall: int, framesSent: u64, anchorFrames: u64, rate: int, at: int, sent: int, since: nat)
    requires rate > 0 && FRAMES_PER_PACKET * since <= MAX_PACED
    requires framesSent == W64(sent + FRAMES_PER_PACKET * since) && anchorFrames == W64(sent)
    requires at >= anchorWall + PacingOffset(W64(framesSent - anchorFrames), rate)
    ensures FRAMES_PER_PACKET * NANOS * since <= (at - anchorWall) * rate + rate
  {
    var d := FRAMES_PER_PACKET * since;
    WordDistance(sent, d);
    OffsetSmall(d, rate);
    SlotElapsed(d * NANOS, at - anchorWall, rate);
  }

  lemma OffsetSmall(delivered: u64, rate: int)
    requires rate > 0 && delivered <= MAX_PACED
    ensures PacingOffset(delivered, rate) == delivered * NANOS / rate
  {
    assert S64(delivered) == delivered && S64(delivered * NANOS) == delivered * NANOS;
  }

  lemma WordDistance(a: int, d: u64)
    ensures W64(W64(a + d) - W64(a)) == d
  {
    var w: int := W64(a);
    WrapSum64(a + d, -w);
    WrapSum64(a, d - w);
  }

  lemma SlotElapsed(x: nat, waited: int, rate: int)
    requires rate > 0 && waited >= x / rate
    ensures x <= waited * rate + rate
  {
    QuotientBelow(x, rate);
    assert waited * rate >= x / rate * rate;
  }

  lemma StepAccount(c0: Core, c: Core, e: Event, t0: int, r: nat, before: nat, since: nat)
    requires c.rate > 0 && Account(c0, c, t0, r, before, since) && Enabled(c, e)
    requires !e.Rebased? && !e.DrainStarted?
    requires since + (if e.Advanced? then 1 else 0) <= MAX_PACKETS
    requires e.Waited? ==> e.target == PacingTarget(c)
    ensures Account(c0, Step(c, e), t0, r, before, since + (if e.Advanced? then 1 else 0))
  {
    if e.Waited? {
      WaitedAccount(c0, c, e, t0, r, before, since);
    } else if e.Advanced? {
      AdvanceAccount(c0, c, t0, r, before, since);
    } else {
      PassiveAccount(c0, c, e, t0, r, before, since);
    }
  }

  /** Behind the last packet that fits, the wait may be none at all; the account has a packet left for that one. */
  lemma WaitedAccount(c0: Core, c: Core, e: Event, t0: int, r: nat, before: nat, since: nat)
    requires c.rate > 0 && Account(c0, c, t0, r, before, since) && Enabled(c, e)
    requires e.Waited? && e.target == PacingTarget(c) && since <= MAX_PACKETS
    ensures Account(c0, Step(c, e), t0, r, before, since)
  {
    if since < MAX_PACKETS {
      WaitAccount(c.anchorWall, c.framesSent, c.anchorFrames, c.rate, e.at,
                  c0.framesSent + FRAMES_PER_PACKET * before, since);
    } else {
      LaterAffordsMore(c.now - c.anchorWall, e.at - c.now, c.rate);
    }
  }

  lemma LaterAffordsMore(spent: int, more: nat, rate: nat)
    ensures spent * rate <= (spent + more) * rate
  {
    assert (spent + more) * rate == spent * rate + more * rate;
  }

  lemma PassiveAccount(c0: Core, c: Core, e: Event, t0: int, r: nat, before: nat, since: nat)
    requires c.rate > 0 && Account(c0, c, t0, r, before, since) && Enabled(c, e)
    requires e.Reanchored? || e.Built? || e.Remembered? || e.Synced?
    ensures Account(c0, Step(c, e), t0, r, before, since)
  {}

  lemma AdvanceAccount(c0: Core, c: Core, t0: int, r: nat, before: nat, since: nat)
    requires c.rate > 0 && Account(c0, c, t0, r, before, since) && Enabled(c, Advanced) && since < MAX_PACKETS
    ensures Account(c0, Step(c, Advanced), t0, r, before, since + 1)
  {
    WrapSum64(c0.framesSent + FRAMES_PER_PACKET * (before + since), FRAMES_PER_PACKET);
  }

  /** The clock reading of the first pacing anchor (0 while there is none). */
  function FirstAnchor(t: Trace): int {
    if t == [] then 0
    else if Rebases(Front(t)) == 0 && (Last(t).Rebased? || Last(t).DrainStarted?) then Last(t).at
    else FirstAnchor(Front(t))
  }

  /** The account of a run that has reached state c. */
  predicate Balanced(c0: Core, c: Core, t: Trace) {
    && SinceRebase(t) <= Advances(t)
    && PacketsSince(t) == SinceRebase(t) + (if c.phase == Sent || c.phase == Kept then 1 else 0)
    && (c.phase == Idle ==> c.framesSent == c0.framesSent)
    && Account(c0, c, FirstAnchor(t), Rebases(t), Advances(t) - SinceRebase(t), SinceRebase(t))
  }

  lemma BalancedStep(c0: Core, c: Core, t: Trace, e: Event)
    requires c.rate > 0 && t != [] && Last(t) == e && Balanced(c0, c, Front(t)) && Enabled(c, e)
    requires PacketsSince(t) <= MAX_PACKETS
    requires e.Waited? ==> e.target == PacingTarget(c)
    ensures Balanced(c0, Step(c, e), t)
  {
    var f := Front(t);
    if e.Rebased? || e.DrainStarted? {
      RebaseAccount(c0, c, e, FirstAnchor(t), Rebases(f), Advances(f) - SinceRebase(f), SinceRebase(f));
    } else {
      StepAccount(c0, c, e, FirstAnchor(t), Rebases(f), Advances(f) - SinceRebase(f), SinceRebase(f));
    }
  }

  lemma {:induction false} Accounts(c0: Core, t: Trace)
    requires Fresh(c0) && Legal(c0, t) && Paced(c0, t) && AtMost(t, MAX_PACKETS)
    ensures Balanced(c0, Run(c0, t), t)
  {
    if t == [] {
    } else {
      Accounts(c0, Front(t));
      BalancedStep(c0, Run(c0, Front(t)), t, Last(t));
    }
  }

  /**
   The frames sent do not exceed elapsed time * rate by more than one packet (and the nanosecond of rounding) per
   pacing rebase. `now` is the clock reading that allowed the latest packet.
   */
  predicate KeepsPace(c: Core, t: Trace) {
    if c.phase == Idle then c.wire == []
    else FRAMES_PER_PACKET * |c.wire| * NANOS <= (c.now - FirstAnchor(t)) * c.rate + Rebases(t) * Allowance(c.rate)
  }

  /**
   Pacing: every run keeps pace, with any stalls, pauses, flushes, re-anchors and the final drain, as long as pacing is
   re-based every 26,202,762 packets; so a pause is never followed by a catch-up burst. PaceLimit shows that this is
   the exact condition.
   */
  lemma NeverAhead(c0: Core, t: Trace)
    requires Fresh(c0) && Legal(c0, t) && Paced(c0, t) && AtMost(t, MAX_PACKETS)
    ensures KeepsPace(Run(c0, t), t)
  {
    Accounts(c0, t);
    Counters(c0, t);
    var c := Run(c0, t);
    if c.phase != Idle {
      assert PacketsSince(t) <= MAX_PACKETS;
      assert Rebases(t) * Allowance(c.rate) == (Rebases(t) - 1) * Allowance(c.rate) + Allowance(c.rate);
      assert (c.now - FirstAnchor(t)) * c.rate
          == (c.now - c.anchorWall) * c.rate + (c.anchorWall - FirstAnchor(t)) * c.rate;
    }
  }

  // ---- The run behind an object ----

  /** Asks for what is known about the run that started at c0. */
  ghost predicate Recall(c0: Core) { true }

  /**
   `c` is where the legal, paced run `t` leads from the fresh state c0. The facts sit behind the trigger Recall, so
   that code which only passes them on does not unfold the run.
   */
  ghost predicate Reached(c0: Core, t: Trace, c: Core) {
    forall x: Core {:trigger Recall(x)} :: Recall(x) && x == c0 ==>
      Fresh(c0) && Legal(c0, t) && Run(c0, t) == c && Paced(c0, t)
  }

  lemma RunBehind(c0: Core, t: Trace, c: Core)
    requires Reached(c0, t, c)
    ensures Fresh(c0) && Legal(c0, t) && Run(c0, t) == c && Paced(c0, t)
  {
    assert Recall(c0);
  }

  lemma StartReached(c0: Core)
    requires Fresh(c0)
    ensures Reached(c0, [], c0)
  {}

  lemma ExtendReached(c0: Core, t: Trace, c: Core, e: Event)
    requires Reached(c0, t, c) && Enabled(c, e)
    requires e.Waited? ==> c.rate > 0 && e.target == PacingTarget(c)
    ensures Reached(c0, t + [e], Step(c, e))
  {
    RunBehind(c0, t, c);
    Extend(c0, t, e);
    assert Front(t + [e]) == t;
  }
}
