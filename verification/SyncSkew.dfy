/**
 What a receiver sees in consecutive sync packets (internal/raop/sender.go:692-703, cmd/mockreceiver/main.go:733-757).
 */
module SyncSkew {
  import opened Words
  import opened NtpClock
  import opened Protocol
  import opened StreamMachine

  /** sendSync's datagram for a point of the timeline. */
  function SyncDatagram(point: SyncPoint, rate: int): (packet: Bytes)
    requires rate > 0
    ensures |packet| == 20
  {
    var parts := NTPParts(RTPToNTP(point.head, rate));
    SyncBytes(true, W32(point.rtp - LATENCY_FRAMES), parts.0, parts.1, point.rtp)
  }

  predicate NoReanchor(t: Trace, i: nat, j: nat)
    requires i <= j <= |t|
  {
    forall k :: i <= k < j ==> !t[k].Reanchored?
  }

  lemma {:induction false} SyncCount(c0: Core, t: Trace)
    requires Fresh(c0) && Legal(c0, t)
    ensures |Run(c0, t).syncs| == Syncs(t)
  {
    if t == [] {
    } else {
      SyncCount(c0, Front(t));
    }
  }

  lemma SyncAt(c0: Core, t: Trace, i: nat)
    requires Fresh(c0) && Legal(c0, t) && i < |t| && t[i].Synced?
    ensures Legal(c0, t[..i])
    ensures Syncs(t[..i]) < |Run(c0, t).syncs|
    ensures Run(c0, t).syncs[Syncs(t[..i])] == SyncPoint(Run(c0, t[..i]).headTS, RtpTime(Run(c0, t[..i])))
  {
    EventAt(c0, t, i);
    SyncCount(c0, t[..i]);
    WireGrows(c0, t, i + 1);
    assert Syncs(t[..i]) < |Run(c0, t[..i + 1]).syncs|;
  }

  lemma StepHead(c: Core, e: Event, h: int, k: nat)
    requires Enabled(c, e) && !e.Reanchored? && c.headTS == W32(h + FRAMES_PER_PACKET * k)
    ensures Step(c, e).startTS == c.startTS
    ensures Step(c, e).headTS == W32(h + FRAMES_PER_PACKET * (if e.Advanced? then k + 1 else k))
  {
    if e.Advanced? {
      WrapSum32(h + FRAMES_PER_PACKET * k, FRAMES_PER_PACKET);
    }
  }

  /** Between re-anchors the head of the timeline moves by exactly the frames counted. */
  lemma {:induction false} HeadMoves(c: Core, u: Trace)
    requires Legal(c, u) && NoReanchor(u, 0, |u|)
    ensures Run(c, u).startTS == c.startTS
    ensures Run(c, u).headTS == W32(c.headTS + FRAMES_PER_PACKET * Advances(u))
  {
    if u == [] {
    } else {
      HeadMoves(c, Front(u));
      QuietFront(u);
      StepHead(Run(c, Front(u)), Last(u), c.headTS, Advances(Front(u)));
    }
  }

  lemma QuietFront(u: Trace)
    requires u != [] && NoReanchor(u, 0, |u|)
    ensures NoReanchor(Front(u), 0, |Front(u)|) && !Last(u).Reanchored?
  {}

  lemma SyncFields(point: SyncPoint, rate: int)
    requires rate > 0
    ensures var s := ReadSync(SyncDatagram(point, rate));
            && s.now == point.rtp && s.nowWithoutLatency == W32(point.rtp - LATENCY_FRAMES)
            && NTPToRTP(FromParts(s.sec, s.frac), rate) == SyncRTP(point.head, rate)
  {
    var parts := NTPParts(RTPToNTP(point.head, rate));
    SyncRoundTrip(true, W32(point.rtp - LATENCY_FRAMES), parts.0, parts.1, point.rtp);
  }

  /** Every sync packet keeps now - now_without_latency at the latency, modulo 2^32. */
  lemma LatencyHeld(rtp: u32, sec: u32, frac: u32)
    ensures var s := ReadSync(SyncBytes(true, W32(rtp - LATENCY_FRAMES), sec, frac, rtp));
            s.now == rtp && W32(s.now as int - s.nowWithoutLatency) == 66_150
  {
    SyncRoundTrip(true, W32(rtp - LATENCY_FRAMES), sec, frac, rtp);
    WordDifference(rtp, LATENCY_FRAMES);
  }

  lemma WordDifference(a: u32, d: u32)
    ensures W32(a as int - W32(a as int - d)) == d
  {
    var q := Reduce32(a as int - d);
  }

  /** The receiver's latency reading, as a signed difference, is off by 2^32 exactly when `now` has just wrapped. */
  lemma LatencyReading(rtp: u32)
    ensures rtp as int - W32(rtp as int - LATENCY_FRAMES)
         == LATENCY_FRAMES - (if rtp >= LATENCY_FRAMES then 0 else 0x1_0000_0000)
  {
    var q := Reduce32(rtp as int - LATENCY_FRAMES);
  }

  /** skew_frames as the receiver computes it from two consecutive sync packets. */
  function Skew(a: Sync, b: Sync, rate: int): int
    requires rate > 0
  {
    S32(b.now - a.now) - S32(NTPToRTP(FromParts(b.sec, b.frac), rate) - NTPToRTP(FromParts(a.sec, a.frac), rate))
  }

  lemma SkewOf(a: Sync, b: Sync, x: u32, y: u32, rate: int)
    requires rate > 0
    requires NTPToRTP(FromParts(a.sec, a.frac), rate) == x && NTPToRTP(FromParts(b.sec, b.frac), rate) == y
    ensures Skew(a, b, rate) == S32(b.now - a.now) - S32(y - x)
  {}

  /** The two distances the receiver compares are those of the sender's clocks. */
  lemma SkewIs(p: SyncPoint, q: SyncPoint, rate: int)
    requires rate > 0
    ensures var a, b := ReadSync(SyncDatagram(p, rate)), ReadSync(SyncDatagram(q, rate));
            && S32(b.now - a.now) == S32(q.rtp - p.rtp)
            && Skew(a, b, rate) == S32(q.rtp - p.rtp) - S32(SyncRTP(q.head, rate) - SyncRTP(p.head, rate))
  {
    SyncFields(p, rate);
    SyncFields(q, rate);
    SkewOf(ReadSync(SyncDatagram(p, rate)), ReadSync(SyncDatagram(q, rate)), SyncRTP(p.head, rate), SyncRTP(q.head, rate),
           rate);
  }

  /** The head positions a rate cannot carry exactly through the NTP form. */
  predicate Inexact(head: u32, rate: int)
    requires rate > 0
  {
    head * 0x1_0000 % rate != 0
  }

  lemma Reduce32(x: int) returns (q: int)
    ensures x == W32(x) + 0x1_0000_0000 * q
  {
    q := x / 0x1_0000_0000;
  }

  lemma SameSigned(a: int, b: int, q: int)
    requires a == b + 0x1_0000_0000 * q
    ensures S32(a) == S32(b)
  {}

  lemma Boundary(a: u32, b: u32, a': u32, b': u32)
    requires a - 1 <= a' <= a && b - 1 <= b' <= b
    requires S32(b - a) != 0x7FFF_FFFF
    ensures -1 <= S32(b' - a') - S32(b - a) <= 1 <==> !(S32(b - a) == -0x8000_0000 && b' == b - 1 && a' == a)
  {
    if !(S32(b - a) == -0x8000_0000 && b' == b - 1 && a' == a) {
      SignedShift(b - a, (b' - b) - (a' - a));
    }
  }

  /** Frame counts are multiples of 32, so a distance of whole packets is never 2^31 - 1. */
  lemma PacketDistance(k: nat)
    ensures S32(FRAMES_PER_PACKET * k) != 0x7FFF_FFFF
  {
    assert FRAMES_PER_PACKET * k == 32 * (11 * k);
    assert W32(32 * (11 * k)) % 32 == 0;
  }

  /** What the receiver reads from the datagrams of two points k packets apart. */
  predicate InStep(p: SyncPoint, q: SyncPoint, k: int, rate: int)
    requires rate > 0
  {
    var a, b := ReadSync(SyncDatagram(p, rate)), ReadSync(SyncDatagram(q, rate));
    && S32(b.now - a.now) == S32(FRAMES_PER_PACKET * k)
    && (-1 <= Skew(a, b, rate) <= 1
        <==> !(W32(FRAMES_PER_PACKET * k) == 0x8000_0000 && Inexact(q.head, rate) && !Inexact(p.head, rate)))
  }

  /**
   Two sync packets of any run with no re-anchor between them, k packets apart, at any rate up to 65536: the
   receiver's delta_now is 352 * k and its delta_ntp differs from it by at most one frame, also across the 32-bit
   wrap. The one exception is a distance of 2^31 frames modulo 2^32 from a head the rate carries exactly to one it
   does not.
   */
  lemma ConsecutiveSyncs(c0: Core, t: Trace, i: nat, j: nat)
    requires Fresh(c0) && Legal(c0, t) && i < j < |t|
    requires t[i].Synced? && t[j].Synced? && NoReanchor(t, i, j)
    requires c0.rate <= 0x1_0000
    ensures Syncs(t[..i]) < |Run(c0, t).syncs| && Syncs(t[..j]) < |Run(c0, t).syncs|
    ensures InStep(Run(c0, t).syncs[Syncs(t[..i])], Run(c0, t).syncs[Syncs(t[..j])], Advances(t[i..j]), c0.rate)
  {
    SyncAt(c0, t, i);
    SyncAt(c0, t, j);
    var p, q := Run(c0, t).syncs[Syncs(t[..i])], Run(c0, t).syncs[Syncs(t[..j])];
    Between(c0, t, i, j);
    PointsInStep(p, q, Advances(t[i..j]), c0.rate);
  }

  /** Two points k packets apart on one timeline. */
  predicate Apart(p: SyncPoint, q: SyncPoint, k: nat) {
    S32(q.rtp - p.rtp) == S32(q.head - p.head) == S32(FRAMES_PER_PACKET * k)
  }

  lemma Between(c0: Core, t: Trace, i: nat, j: nat)
    requires Legal(c0, t) && i <= j <= |t| && NoReanchor(t, i, j)
    ensures Legal(c0, t[..i]) && Legal(c0, t[..j])
    ensures var c, c' := Run(c0, t[..i]), Run(c0, t[..j]);
            Apart(SyncPoint(c.headTS, RtpTime(c)), SyncPoint(c'.headTS, RtpTime(c')), Advances(t[i..j]))
  {
    LegalPrefix(c0, t, j);
    assert t[..j] == t[..i] + t[i..j];
    Split(c0, t[..i], t[i..j]);
    StatesApart(Run(c0, t[..i]), t[i..j]);
  }

  lemma StatesApart(c: Core, u: Trace)
    requires Legal(c, u) && NoReanchor(u, 0, |u|)
    ensures Apart(SyncPoint(c.headTS, RtpTime(c)), SyncPoint(Run(c, u).headTS, RtpTime(Run(c, u))), Advances(u))
  {
    HeadMoves(c, u);
    TimesApart(c.headTS, Run(c, u).headTS, c.startTS, Advances(u));
  }

  /** The distance of two relative timestamps is the distance of the heads they were taken from. */
  lemma TimesApart(h: u32, h': u32, start: u32, k: nat)
    requires h' == W32(h + FRAMES_PER_PACKET * k)
    ensures S32(W32(h' - start + LATENCY_FRAMES) as int - W32(h - start + LATENCY_FRAMES)) == S32(h' as int - h)
    ensures S32(h' as int - h) == S32(FRAMES_PER_PACKET * k)
  {
    var a := Reduce32(h as int - start + LATENCY_FRAMES);
    var b := Reduce32(h' as int - start + LATENCY_FRAMES);
    var w := Reduce32(h + FRAMES_PER_PACKET * k);
    SameSigned(W32(h' - start + LATENCY_FRAMES) as int - W32(h - start + LATENCY_FRAMES), h' as int - h, a - b);
    SameSigned(h' as int - h, FRAMES_PER_PACKET * k, -w);
  }

  lemma PointsInStep(p: SyncPoint, q: SyncPoint, k: nat, rate: int)
    requires 0 < rate <= 0x1_0000 && Apart(p, q, k)
    ensures InStep(p, q, k, rate)
  {
    SkewIs(p, q, rate);
    HeadsInStep(p.head, q.head, k, rate);
  }

  lemma HeadsInStep(h: u32, h': u32, k: nat, rate: int)
    requires 0 < rate <= 0x1_0000 && S32(h' - h) == S32(FRAMES_PER_PACKET * k)
    ensures -1 <= S32(FRAMES_PER_PACKET * k) - S32(SyncRTP(h', rate) - SyncRTP(h, rate)) <= 1
            <==> !(W32(FRAMES_PER_PACKET * k) == 0x8000_0000 && Inexact(h', rate) && !Inexact(h, rate))
  {
    PacketDistance(k);
    SyncLoss(h, rate);
    SyncLoss(h', rate);
    Boundary(h, h', SyncRTP(h, rate), SyncRTP(h', rate));
  }

  /** At higher rates the bound is the round-trip loss, away from the ends of the 32-bit range. */
  lemma SkewAtAnyRate(p: SyncPoint, q: SyncPoint, k: nat, rate: int)
    requires rate > 0 && Apart(p, q, k)
    requires -0x8000_0000 + MaxLoss(rate) <= S32(FRAMES_PER_PACKET * k) < 0x8000_0000 - MaxLoss(rate)
    ensures -MaxLoss(rate) <= Skew(ReadSync(SyncDatagram(p, rate)), ReadSync(SyncDatagram(q, rate)), rate) <= MaxLoss(rate)
  {
    SkewIs(p, q, rate);
    SkewBound(p.head, q.head, rate);
  }
}
