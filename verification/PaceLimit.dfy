/**
 How long the pacing of Pacing.NeverAhead lasts: its condition is exact, counted in packets and measured by the clock.
 Past it the int64 product of pacingTarget wraps, and the loop sends without waiting
 (internal/raop/sender.go:634-681).
 */
module PaceLimit {
  import opened Words
  import opened NtpClock
  import opened Protocol
  import opened StreamMachine
  import opened Pacing

  /** At every point of the run at most `span` nanoseconds have passed since the pacing anchor. */
  ghost predicate ClockWithin(c0: Core, t: Trace, span: int)
    requires Legal(c0, t)
  {
    t == [] || (ClockWithin(c0, Front(t), span) &&
                (Run(c0, t).phase != Idle ==> Run(c0, t).now - Run(c0, t).anchorWall <= span))
  }

  /** How long after its anchor the last packet that fits is due: 58 hours at 44100. */
  function Span(rate: int): int
    requires rate > 0
  {
    FRAMES_PER_PACKET * (MAX_PACKETS - 1) * NANOS / rate
  }

  // ---- Within the clock's bound ----

  /** No anchor has been left with more than the packets that fit, and the loop is not past the wait for the last. */
  predicate Short(c: Core, t: Trace) {
    AtMost(t, MAX_PACKETS) && SinceRebase(t) + (if c.phase == Owing then 0 else 1) < MAX_PACKETS
  }

  lemma {:induction false} StaysShort(c0: Core, t: Trace, span: int)
    requires Fresh(c0) && Legal(c0, t) && Paced(c0, t) && ClockWithin(c0, t, span) && span < Span(c0.rate)
    ensures Short(Run(c0, t), t)
  {
    if t == [] {
    } else {
      StaysShort(c0, Front(t), span);
      Accounts(c0, Front(t));
      ShortStep(c0, Run(c0, Front(t)), t, Last(t), span);
    }
  }

  lemma ShortStep(c0: Core, c: Core, t: Trace, e: Event, span: int)
    requires c.rate > 0 && t != [] && Last(t) == e && Enabled(c, e) && Balanced(c0, c, Front(t)) && Short(c, Front(t))
    requires e.Waited? ==> e.target == PacingTarget(c)
    requires Step(c, e).phase != Idle ==> Step(c, e).now - Step(c, e).anchorWall <= span
    requires span < Span(c.rate)
    ensures Short(Step(c, e), t)
  {
    var f := Front(t);
    if e.Waited? && SinceRebase(f) == MAX_PACKETS - 1 {
      LastSlot(c, c0.framesSent + FRAMES_PER_PACKET * (Advances(f) - SinceRebase(f)));
    }
  }

  /** The wait behind the last packet that fits ends no earlier than that packet's slot. */
  lemma LastSlot(c: Core, sent: int)
    requires c.rate > 0 && c.anchorFrames == W64(sent)
    requires c.framesSent == W64(sent + FRAMES_PER_PACKET * (MAX_PACKETS - 1))
    ensures PacingTarget(c) == c.anchorWall + Span(c.rate)
  {
    WordDistance(sent, FRAMES_PER_PACKET * (MAX_PACKETS - 1));
    OffsetSmall(FRAMES_PER_PACKET * (MAX_PACKETS - 1), c.rate);
  }

  // ---- Runs without a rebase after the first ----

  /** Where the target of the k-th packet after an anchor lies. */
  function Offset(k: nat, rate: int): int
    requires rate > 0
  {
    PacingOffset(W64(FRAMES_PER_PACKET * k), rate)
  }

  /** A legal, paced run of n packets on one pacing anchor and one RTP anchor. */
  ghost predicate Steady(c0: Core, t: Trace, n: nat, span: int) {
    && Fresh(c0) && Legal(c0, t) && Paced(c0, t) && ClockWithin(c0, t, span)
    && Rebases(t) == 1 && Advances(t) == n
    && AtMost(t, n + 1) && PacketsSince(t) == n + (if Run(c0, t).phase == Sent || Run(c0, t).phase == Kept then 1 else 0)
    && OneAnchor(c0, Run(c0, t), t)
  }

  ghost predicate OneAnchor(c0: Core, c: Core, t: Trace) {
    && (forall e <- t :: !e.Reanchored?)
    && c.anchorWall == FirstAnchor(t) && c.anchorFrames == c0.framesSent && c.phase != Idle && !c.draining
  }

  lemma Begin(c0: Core, span: nat) returns (t: Trace)
    requires Fresh(c0)
    ensures Steady(c0, t, 0, span) && Run(c0, t).phase == Ready && Syncs(t) == 0
  {
    t := [] + [Rebased(c0.now)];
    Extend(c0, [], Rebased(c0.now));
    assert Front(t) == [];
  }

  lemma Go(c0: Core, t: Trace, e: Event, n: nat, m: nat, span: int)
    requires Steady(c0, t, n, span) && Enabled(Run(c0, t), e)
    requires e.Built? || e.Remembered? || e.Advanced? || e.Synced? || e.Waited?
    requires m == n + if e.Advanced? then 1 else 0
    requires e.Waited? ==> e.target == PacingTarget(Run(c0, t)) && e.at - Run(c0, t).anchorWall <= span
    ensures Steady(c0, t + [e], m, span) && Run(c0, t + [e]) == Step(Run(c0, t), e)
    ensures Syncs(t + [e]) == Syncs(t) + if e.Synced? then 1 else 0
  {
    Extend(c0, t, e);
    assert Front(t + [e]) == t;
    AtMostGrows(t, n + 1, m + 1);
  }

  lemma {:induction false} AtMostGrows(t: Trace, n: int, m: int)
    requires AtMost(t, n) && n <= m
    ensures AtMost(t, m)
  {
    if t == [] {
    } else {
      AtMostGrows(Front(t), n, m);
    }
  }

  lemma {:induction false} ClockGrows(c0: Core, t: Trace, span: int, more: int)
    requires Legal(c0, t) && ClockWithin(c0, t, span) && span <= more
    ensures ClockWithin(c0, t, more)
  {
    if t == [] {
    } else {
      ClockGrows(c0, Front(t), span, more);
    }
  }

  /** One packet, sent and remembered. */
  lemma OneSent(c0: Core, t: Trace, n: nat, span: int) returns (u: Trace)
    requires Steady(c0, t, n, span) && Run(c0, t).phase == Ready
    ensures Steady(c0, u, n, span) && t <= u && Run(c0, u).phase == Kept && Syncs(u) == Syncs(t)
  {
    Go(c0, t, Built([], false), n, n, span);
    u := t + [Built([], false)];
    Go(c0, u, Remembered, n, n, span);
    u := u + [Remembered];
  }

  /** One packet, up to the moment its counters have moved. */
  lemma OnePacket(c0: Core, t: Trace, n: nat, span: int) returns (u: Trace)
    requires Steady(c0, t, n, span) && Run(c0, t).phase == Ready
    ensures Steady(c0, u, n + 1, span) && t <= u && Run(c0, u).phase == Owing && Syncs(u) == Syncs(t)
  {
    u := OneSent(c0, t, n, span);
    Go(c0, u, Advanced, n, n + 1, span);
    u := u + [Advanced];
  }

  /** A wait that ends as soon as it may. */
  lemma OneWait(c0: Core, t: Trace, n: nat, span: int) returns (u: Trace)
    requires Steady(c0, t, n, span) && Run(c0, t).phase == Owing && Offset(n, c0.rate) <= span
    ensures Steady(c0, u, n, span) && t <= u && Run(c0, u).phase == Ready && Syncs(u) == Syncs(t)
  {
    var c := Run(c0, t);
    TargetOf(c0, t, n, span);
    var target := PacingTarget(c);
    var at := if c.now < target then target else c.now;
    Go(c0, t, Waited(at, target), n, n, span);
    u := t + [Waited(at, target)];
  }

  lemma TargetOf(c0: Core, t: Trace, n: nat, span: int)
    requires Steady(c0, t, n, span)
    ensures PacingTarget(Run(c0, t)) == Run(c0, t).anchorWall + Offset(n, c0.rate)
  {
    Counters(c0, t);
    FramesSince(c0.framesSent, FRAMES_PER_PACKET * n);
  }

  lemma FramesSince(a: u64, d: nat)
    ensures W64(W64(a + d) - a) == W64(d)
  {
    var start: int := a;
    WrapSum64(a + d, -start);
  }

  /** n packets, each waited for; every target must lie within the span. */
  lemma {:induction false} ManyPackets(c0: Core, t: Trace, m: nat, n: nat, span: int) returns (u: Trace)
    requires Steady(c0, t, m, span) && Run(c0, t).phase == Ready && m <= n
    requires forall k :: m < k <= n ==> Offset(k, c0.rate) <= span
    ensures Steady(c0, u, n, span) && t <= u && Run(c0, u).phase == Ready && Syncs(u) == Syncs(t)
    decreases n - m
  {
    if m == n {
      u := t;
    } else {
      var v := OnePacket(c0, t, m, span);
      var w := OneWait(c0, v, m + 1, span);
      u := ManyPackets(c0, w, m + 1, n, span);
    }
  }

  // ---- The limit is exact ----

  /** Up to the last packet that fits the targets are those of the packets; the next one lies before the anchor. */
  lemma Targets(k: nat, rate: int)
    requires rate > 0 && k <= MAX_PACKETS
    ensures Offset(k, rate) <= Span(rate)
  {
    if k < MAX_PACKETS {
      EarlyTarget(k, FRAMES_PER_PACKET * k, rate);
    } else {
      BeforeAnchor(rate);
    }
  }

  lemma EarlyTarget(k: nat, frames: nat, rate: int)
    requires rate > 0 && k < MAX_PACKETS && frames == FRAMES_PER_PACKET * k
    ensures Offset(k, rate) == frames * NANOS / rate <= Span(rate)
  {
    assert W64(frames) == frames;
    OffsetSmall(frames, rate);
    QuotientOrder(frames * NANOS, FRAMES_PER_PACKET * (MAX_PACKETS - 1) * NANOS, rate);
  }

  lemma QuotientOrder(a: nat, b: nat, rate: int)
    requires rate > 0 && a <= b
    ensures 0 <= a / rate <= b / rate
  {
    QuotientBelow(a, rate);
    QuotientBelow(b, rate);
    QuotientsInOrder(a / rate, b / rate, rate);
  }

  lemma QuotientsInOrder(p: int, q: int, rate: int)
    requires rate > 0 && p * rate < q * rate + rate
    ensures p <= q
  {
    ProductOrder(p, q + 1, rate);
  }

  lemma BeforeAnchor(rate: int)
    requires rate > 0
    ensures Offset(MAX_PACKETS, rate) <= 0 <= Span(rate)
  {
    QuotientBelow(-S64(FRAMES_PER_PACKET * MAX_PACKETS * NANOS), rate);
    QuotientBelow(FRAMES_PER_PACKET * (MAX_PACKETS - 1) * NANOS, rate);
  }

  /**
   From any fresh state: a legal, paced run with one packet more than the limit, whose clock never reads later than the
   last packet that fits is due, and which is ahead.
   */
  lemma RunsAhead(c0: Core) returns (t: Trace)
    requires Fresh(c0) && c0.rate < FRAMES_PER_PACKET * NANOS
    ensures Legal(c0, t) && Paced(c0, t) && AtMost(t, MAX_PACKETS + 1) && ClockWithin(c0, t, Span(c0.rate))
    ensures !KeepsPace(Run(c0, t), t)
  {
    var span := Span(c0.rate);
    BeforeAnchor(c0.rate);
    var a := Begin(c0, span);
    forall k | 0 < k <= MAX_PACKETS
      ensures Offset(k, c0.rate) <= span
    {
      Targets(k, c0.rate);
    }
    var b := ManyPackets(c0, a, 0, MAX_PACKETS, span);
    Go(c0, b, Built([], false), MAX_PACKETS, MAX_PACKETS, span);
    t := b + [Built([], false)];
    IsAhead(c0, t);
  }

  lemma IsAhead(c0: Core, t: Trace)
    requires 0 < c0.rate < FRAMES_PER_PACKET * NANOS
    requires Steady(c0, t, MAX_PACKETS, Span(c0.rate)) && Run(c0, t).phase == Sent
    ensures !KeepsPace(Run(c0, t), t)
  {
    Counters(c0, t);
    QuotientBelow(FRAMES_PER_PACKET * (MAX_PACKETS - 1) * NANOS, c0.rate);
    NoMore(Run(c0, t).now - FirstAnchor(t), Span(c0.rate), c0.rate);
  }

  lemma NoMore(a: int, b: int, rate: int)
    requires rate > 0 && a <= b
    ensures a * rate <= b * rate
  {
    assert (b - a) * rate >= 0;
  }

  /** Every paced run that re-bases its pacing at least every n packets keeps pace, exactly up to 26,202,762 packets. */
  lemma PaceKeptIffFewPackets(c0: Core, n: int)
    requires Fresh(c0) && c0.rate < FRAMES_PER_PACKET * NANOS
    ensures (forall t :: Legal(c0, t) && Paced(c0, t) && AtMost(t, n) ==> KeepsPace(Run(c0, t), t))
            <==> n <= MAX_PACKETS
  {
    if n <= MAX_PACKETS {
      forall t | Legal(c0, t) && Paced(c0, t) && AtMost(t, n)
        ensures KeepsPace(Run(c0, t), t)
      {
        AtMostGrows(t, n, MAX_PACKETS);
        NeverAhead(c0, t);
      }
    } else {
      var t := RunsAhead(c0);
      AtMostGrows(t, MAX_PACKETS + 1, n);
    }
  }

  /**
   Measured by the clock: every paced run that re-bases its pacing within the span keeps pace, exactly when the span
   ends before the last packet that fits is due.
   */
  lemma PaceKeptIffRebasedInTime(c0: Core, span: int)
    requires Fresh(c0) && c0.rate < FRAMES_PER_PACKET * NANOS
    ensures (forall t :: Legal(c0, t) && Paced(c0, t) && ClockWithin(c0, t, span) ==> KeepsPace(Run(c0, t), t))
            <==> span < Span(c0.rate)
  {
    if span < Span(c0.rate) {
      forall t | Legal(c0, t) && Paced(c0, t) && ClockWithin(c0, t, span)
        ensures KeepsPace(Run(c0, t), t)
      {
        StaysShort(c0, t, span);
        NeverAhead(c0, t);
      }
    } else {
      var t := RunsAhead(c0);
      ClockGrows(c0, t, Span(c0.rate), span);
    }
  }
}
