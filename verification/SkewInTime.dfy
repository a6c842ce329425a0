/**
 When the skew bound of SyncSkew holds outright, and a run in which it does not: the exception needs an odd multiple
 of 2^26 packets between two sync packets. The clock keeps that out of reach for 148 hours at 44100, but only while
 pacing is re-based in time (PaceLimit): 58 hours after its anchor the loop stops waiting
 (internal/raop/sender.go:621-624, 692-703, cmd/mockreceiver/main.go:749-753).
 */
module SkewInTime {
  import opened Words
  import opened NtpClock
  import opened Protocol
  import opened StreamMachine
  import opened SyncSkew
  import opened Pacing
  import opened PaceLimit

  const HALF_RANGE := 0x8000_0000

  /** 2^26 packets: 352 * 2^26 frames are eleven half circles of the 32-bit timestamp. */
  const FAR := 0x400_0000

  function SkewBetween(c: Core, a: nat, b: nat): int
    requires c.rate > 0 && a < |c.syncs| && b < |c.syncs|
  {
    Skew(ReadSync(SyncDatagram(c.syncs[a], c.rate)), ReadSync(SyncDatagram(c.syncs[b], c.rate)), c.rate)
  }

  lemma {:induction false} AdvancesBetween(t: Trace, i: nat, j: nat)
    requires i <= j <= |t|
    ensures Advances(t[..i]) + Advances(t[i..j]) == Advances(t[..j])
  {
    if i == j {
      assert t[i..j] == [];
    } else {
      AdvancesBetween(t, i, j - 1);
      assert Front(t[i..j]) == t[i..j - 1] && Front(t[..j]) == t[..j - 1];
    }
  }

  lemma {:induction false} AdvancesGrow(t: Trace, j: nat)
    requires j <= |t|
    ensures Advances(t[..j]) <= Advances(t)
  {
    AdvancesBetween(t, j, |t|);
    assert t[..|t|] == t;
  }

  /** A whole number of packets is half a circle away exactly for the odd multiples of 2^26. */
  lemma HalfCircle(k: nat)
    ensures W32(FRAMES_PER_PACKET * k) == HALF_RANGE <==> k % (2 * FAR) == FAR
  {
    var r := k % (2 * FAR);
    var q := k / (2 * FAR);
    var m := 11 * r / (2 * FAR);
    var rest := 11 * r % (2 * FAR);
    assert FRAMES_PER_PACKET * k == 0x1_0000_0000 * (11 * q + m) + 32 * rest;
    if rest == FAR {
      OddMultiple(r, m);
    }
  }

  /** INVERSE is the inverse of 11 modulo 2^27. */
  const INVERSE := 36604835

  lemma OddMultiple(r: nat, m: int)
    requires r < 2 * FAR && 11 * r == 2 * FAR * m + FAR
    ensures r == FAR
  {
    assert 11 * INVERSE == 1 + 2 * FAR * 3;
    assert r - FAR == 2 * FAR * (INVERSE * m + INVERSE / 2 - 3 * r);
  }

  /** Two sync packets of a run with no re-anchor between. */
  ghost predicate SyncPair(t: Trace, i: nat, j: nat) {
    i < j < |t| && t[i].Synced? && t[j].Synced? && NoReanchor(t, i, j)
  }

  /** The receiver finds them within one frame of each other. */
  ghost predicate Agree(c0: Core, t: Trace, i: nat, j: nat)
    requires c0.rate > 0 && Legal(c0, t) && SyncPair(t, i, j)
  {
    && Syncs(t[..i]) < |Run(c0, t).syncs| && Syncs(t[..j]) < |Run(c0, t).syncs|
    && -1 <= SkewBetween(Run(c0, t), Syncs(t[..i]), Syncs(t[..j])) <= 1
  }

  /** Two sync packets with no re-anchor between, fewer than 2^26 packets apart: always within one frame. */
  lemma NearSyncsAgree(c0: Core, t: Trace, i: nat, j: nat)
    requires Fresh(c0) && Legal(c0, t) && SyncPair(t, i, j)
    requires c0.rate <= 0x1_0000 && Advances(t[i..j]) < FAR
    ensures Agree(c0, t, i, j)
  {
    ConsecutiveSyncs(c0, t, i, j);
    ShortOfHalf(Advances(t[i..j]));
  }

  lemma ShortOfHalf(k: nat)
    requires k < FAR
    ensures W32(FRAMES_PER_PACKET * k) != HALF_RANGE
  {
    HalfCircle(k);
  }

  /**
   A paced run whose elapsed time * rate, with the allowance for every pacing rebase, stays below 352 * 2^26 frames
   (148 hours at 44100), and whose pacing is re-based within the span.
   */
  ghost predicate InTime(c0: Core, t: Trace, span: int) {
    && c0.rate > 0 && Legal(c0, t) && Paced(c0, t) && ClockWithin(c0, t, span) && Run(c0, t).phase != Idle
    && (Run(c0, t).now - FirstAnchor(t)) * c0.rate + Rebases(t) * Allowance(c0.rate) < FRAMES_PER_PACKET * FAR * NANOS
  }

  /** In such a run every two sync packets with no re-anchor between agree. */
  lemma SkewHoldsForDays(c0: Core, t: Trace, span: int, i: nat, j: nat)
    requires Fresh(c0) && c0.rate <= 0x1_0000 && InTime(c0, t, span) && span < Span(c0.rate) && SyncPair(t, i, j)
    ensures Agree(c0, t, i, j)
  {
    StaysShort(c0, t, span);
    NeverAhead(c0, t);
    Counters(c0, t);
    AdvancesBetween(t, i, j);
    AdvancesGrow(t, j);
    FewerPackets(Advances(t[i..j]), |Run(c0, t).wire|);
    NearSyncsAgree(c0, t, i, j);
  }

  lemma FewerPackets(k: nat, n: nat)
    requires k <= n && FRAMES_PER_PACKET * n * NANOS < FRAMES_PER_PACKET * FAR * NANOS
    ensures k < FAR
  {}

  // ---- A run that reaches the exception ----

  /** From any fresh state: the run with a sync packet after the first packet and the next one n packets later. */
  lemma TwoSyncs(c0: Core, n: nat, span: nat) returns (t: Trace, i: nat, j: nat)
    requires Fresh(c0) && n > 0
    requires forall k :: 0 < k <= n ==> Offset(k, c0.rate) <= span
    ensures Steady(c0, t, n + 1, span) && SyncPair(t, i, j)
    ensures Advances(t[..i]) == 1 && Advances(t[..j]) == 1 + n
    ensures Syncs(t[..i]) == 0 && Syncs(t[..j]) == 1
  {
    var a := FirstSync(c0, span);
    i := |a| - 1;
    var b := OneWait(c0, a, 1, span);
    var c := ManyPackets(c0, b, 1, n, span);
    var d := OnePacket(c0, c, n, span);
    j := |d|;
    Go(c0, d, Synced, n + 1, n + 1, span);
    t := d + [Synced];
    assert t[..j] == d && t[..i] == a[..i] && t[i] == a[i];
  }

  lemma FirstSync(c0: Core, span: nat) returns (t: Trace)
    requires Fresh(c0)
    ensures Steady(c0, t, 1, span) && Run(c0, t).phase == Owing && Syncs(t) == 1
    ensures t != [] && Last(t).Synced? && Advances(t[..|t| - 1]) == 1 && Syncs(t[..|t| - 1]) == 0
  {
    var a := Begin(c0, span);
    var b := OnePacket(c0, a, 0, span);
    Go(c0, b, Synced, 1, 1, span);
    t := b + [Synced];
    assert Front(t) == b;
  }

  /** A session at 44100 frames a second whose clock starts one packet before a wrap. */
  const WRAPPING := Core(44100, 0, 0xFFFF_FEA0, 0xFFFF_FEA0, 0, map[], [], 0, 0, 0, [], [], Idle, false)

  /** The wrapped targets stay in reach: behind the last packet that fits they start over from before the anchor. */
  lemma FarTargets(k: nat, frames: nat)
    requires k <= FAR && frames == FRAMES_PER_PACKET * k
    ensures Offset(k, 44100) <= Span(44100)
  {
    if k <= MAX_PACKETS {
      Targets(k, 44100);
    } else {
      assert W64(frames) == frames && frames > MAX_PACED;
      OverflowDropsPacing(frames, 44100);
      if frames > 2 * MAX_PACED + 1 {
        assert S64(S64(frames) * NANOS) == frames * NANOS - 0x1_0000_0000_0000_0000;
      }
    }
  }

  /**
   The exception is reached: a legal, paced run with two consecutive sync packets 2^26 packets apart and no re-anchor
   between, whose skew is more than one frame. Its clock reads less than 148 hours, and never more than the 58 hours
   that the last packet to fit takes.
   */
  lemma SkewExceeded() returns (t: Trace, i: nat, j: nat)
    ensures InTime(WRAPPING, t, Span(44100)) && SyncPair(t, i, j)
    ensures Syncs(t[..i]) == 0 && Syncs(t[..j]) == 1 && !Agree(WRAPPING, t, i, j)
  {
    forall k | 0 < k <= FAR
      ensures Offset(k, 44100) <= Span(44100)
    {
      FarTargets(k, FRAMES_PER_PACKET * k);
    }
    t, i, j := TwoSyncs(WRAPPING, FAR, Span(44100));
    WithinDays(t);
    FarApart(t, i, j);
  }

  lemma FarApart(t: Trace, i: nat, j: nat)
    requires Legal(WRAPPING, t) && NoReanchor(t, 0, |t|) && SyncPair(t, i, j)
    requires Advances(t[..i]) == 1 && Advances(t[..j]) == 1 + FAR
    ensures !Agree(WRAPPING, t, i, j)
  {
    var a, b := FarSyncs(t, i, j);
    FarPoints(Run(WRAPPING, t).syncs[a], Run(WRAPPING, t).syncs[b]);
  }

  lemma FarSyncs(t: Trace, i: nat, j: nat) returns (a: nat, b: nat)
    requires Legal(WRAPPING, t) && NoReanchor(t, 0, |t|) && SyncPair(t, i, j)
    requires Advances(t[..i]) == 1 && Advances(t[..j]) == 1 + FAR
    ensures a == Syncs(t[..i]) < |Run(WRAPPING, t).syncs| && b == Syncs(t[..j]) < |Run(WRAPPING, t).syncs|
    ensures var p, q := Run(WRAPPING, t).syncs[a], Run(WRAPPING, t).syncs[b];
            && InStep(p, q, FAR, 44100) && p.head == W32(WRAPPING.headTS + FRAMES_PER_PACKET * 1)
            && q.head == W32(WRAPPING.headTS + FRAMES_PER_PACKET * (1 + FAR))
  {
    a, b := Syncs(t[..i]), Syncs(t[..j]);
    AdvancesBetween(t, i, j);
    ConsecutiveSyncs(WRAPPING, t, i, j);
    HeadAfter(t, i, 1);
    HeadAfter(t, j, 1 + FAR);
  }

  lemma FarPoints(p: SyncPoint, q: SyncPoint)
    requires p.head == W32(WRAPPING.headTS + FRAMES_PER_PACKET * 1)
    requires q.head == W32(WRAPPING.headTS + FRAMES_PER_PACKET * (1 + FAR))
    requires InStep(p, q, FAR, 44100)
    ensures !(-1 <= Skew(ReadSync(SyncDatagram(p, 44100)), ReadSync(SyncDatagram(q, 44100)), 44100) <= 1)
  {
    FarHeads();
  }

  lemma WithinDays(t: Trace)
    requires Steady(WRAPPING, t, FAR + 1, Span(44100)) && t != []
    ensures InTime(WRAPPING, t, Span(44100))
  {
    assert ClockWithin(WRAPPING, t, Span(44100));
  }

  lemma HeadAfter(t: Trace, i: nat, n: nat)
    requires Legal(WRAPPING, t) && NoReanchor(t, 0, |t|) && i < |t| && t[i].Synced? && Advances(t[..i]) == n
    ensures Syncs(t[..i]) < |Run(WRAPPING, t).syncs|
    ensures Run(WRAPPING, t).syncs[Syncs(t[..i])].head == W32(WRAPPING.headTS + FRAMES_PER_PACKET * n)
  {
    SyncAt(WRAPPING, t, i);
    HeadMoves(WRAPPING, t[..i]);
  }

  lemma FarHeads()
    ensures W32(FRAMES_PER_PACKET * FAR) == HALF_RANGE
    ensures W32(WRAPPING.headTS + FRAMES_PER_PACKET * 1) == 0
    ensures W32(WRAPPING.headTS + FRAMES_PER_PACKET * (1 + FAR)) == HALF_RANGE
    ensures !Inexact(0, 44100) && Inexact(HALF_RANGE, 44100)
  {}

  /** Every two sync packets of such runs agree exactly when pacing is re-based before its last packet is due. */
  lemma SkewHeldIffRebasedInTime(span: int)
    ensures (forall t, i: nat, j: nat :: InTime(WRAPPING, t, span) && SyncPair(t, i, j) ==> Agree(WRAPPING, t, i, j))
            <==> span < Span(44100)
  {
    if span < Span(44100) {
      forall t, i: nat, j: nat | InTime(WRAPPING, t, span) && SyncPair(t, i, j)
        ensures Agree(WRAPPING, t, i, j)
      {
        SkewHoldsForDays(WRAPPING, t, span, i, j);
      }
    } else {
      var t, i, j := SkewExceeded();
      ClockGrows(WRAPPING, t, Span(44100), span);
    }
  }
}
