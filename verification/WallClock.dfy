/**
 What a sender's timeline has to do with the wall clock (internal/raop/sender.go:161-178, 481-488, 692-703;
 internal/raop/protocol.go:124-143): a sync packet tells the receiver the time at which the timeline started, plus the
 frames counted since.
 */
module WallClock {
  import opened Words
  import opened NtpClock
  import opened Protocol
  import opened StreamMachine
  import opened SyncSkew
  import opened Sender
  import Pacing

  /** m counts the ticks from the NTP epoch to a reading of the wall clock, less than 1 + rate / 2^16 too few. */
  predicate Ticks(m: int, unixSeconds: int, unixNanos: nat, rate: int) {
    && m * NANOS <= ExactNanos(unixSeconds, unixNanos) * rate
    && ExactNanos(unixSeconds, unixNanos) * rate * 0x1_0000 < (m * 0x1_0000 + 0x1_0000 + rate) * NANOS
  }

  /** What a sync packet says: the RTP clock of its NTP half, and the relative time it belongs to. */
  function HeardClock(datagram: Bytes, rate: int): u32
    requires |datagram| >= 20 && rate > 0
  {
    NTPToRTP(FromParts(ReadSync(datagram).sec, ReadSync(datagram).frac), rate)
  }

  /** The RTP clock heard is that of m + 352 * k ticks, late by no more than `most`. */
  ghost predicate Late(heard: u32, m: int, k: nat, most: int) {
    exists loss: nat {:trigger W32(m + FRAMES_PER_PACKET * k - loss)} ::
      loss <= most && heard == W32(m + FRAMES_PER_PACKET * k - loss)
  }

  /** The datagram tells the time of m + 352 * k ticks, late by no more than the round-trip loss. */
  ghost predicate Tells(datagram: Bytes, m: int, k: nat, rate: int) {
    |datagram| >= 20 && rate > 0 && Late(HeardClock(datagram, rate), m, k, MaxLoss(rate))
  }

  lemma IsLate(heard: u32, head: u32, m: int, k: nat, most: int)
    requires head == W32(m + FRAMES_PER_PACKET * k) && head - most <= heard <= head
    ensures Late(heard, m, k, most)
  {
    var loss: nat := head - heard;
    var q := Reduce32(m + FRAMES_PER_PACKET * k);
    assert heard == W32(m + FRAMES_PER_PACKET * k - loss);
  }

  lemma HeardIsHead(point: SyncPoint, rate: int)
    requires rate > 0
    ensures point.head - MaxLoss(rate) <= HeardClock(SyncDatagram(point, rate), rate) <= point.head
  {
    SyncFields(point, rate);
    SyncLoss(point.head, rate);
  }

  lemma PointTells(point: SyncPoint, m: int, k: nat, rate: int)
    requires rate > 0 && point.head == W32(m + FRAMES_PER_PACKET * k)
    ensures Tells(SyncDatagram(point, rate), m, k, rate)
  {
    HeardIsHead(point, rate);
    IsLate(HeardClock(SyncDatagram(point, rate), rate), point.head, m, k, MaxLoss(rate));
  }

  /** The tick count behind a stamp. */
  lemma StampTicks(stamp: u32, unixSeconds: int, unixNanos: nat, rate: int) returns (m: int)
    requires rate > 0 && IsStamp(stamp, unixSeconds, unixNanos, rate)
    ensures stamp == W32(m) && Ticks(m, unixSeconds, unixNanos, rate)
  {
    StampIs(stamp, unixSeconds, unixNanos, rate);
    m := ClockAccuracy(unixSeconds, unixNanos, rate);
  }

  /** A stamp, moved on by k packets, from the tick count behind it. */
  lemma StampMoves(stamp: u32, m: int, k: nat)
    requires stamp == W32(m)
    ensures W32(stamp + FRAMES_PER_PACKET * k) == W32(m + FRAMES_PER_PACKET * k)
  {
    WrapSum32(m, FRAMES_PER_PACKET * k);
  }

  /** The head and the relative time at a sync packet k packets after the i-th event, with no re-anchor between. */
  lemma HeadSince(c0: Core, t: Trace, i: nat, j: nat)
    requires Fresh(c0) && Legal(c0, t) && i <= j < |t| && t[j].Synced? && NoReanchor(t, i, j)
    ensures Legal(c0, t[..i]) && Syncs(t[..j]) < |Run(c0, t).syncs|
    ensures Run(c0, t).syncs[Syncs(t[..j])].head
         == W32(Run(c0, t[..i]).headTS + FRAMES_PER_PACKET * Advances(t[i..j]))
  {
    SyncAt(c0, t, j);
    HeadAt(c0, t, i, j);
  }

  lemma HeadAt(c0: Core, t: Trace, i: nat, j: nat)
    requires Legal(c0, t) && i <= j <= |t| && NoReanchor(t, i, j)
    ensures Legal(c0, t[..i]) && Legal(c0, t[..j])
    ensures Run(c0, t[..j]).headTS == W32(Run(c0, t[..i]).headTS + FRAMES_PER_PACKET * Advances(t[i..j]))
  {
    Between(c0, t, i, j);
    SignedTells(Run(c0, t[..i]).headTS, Run(c0, t[..j]).headTS, FRAMES_PER_PACKET * Advances(t[i..j]));
  }

  /** A signed 32-bit distance determines where it leads. */
  lemma SignedTells(h: u32, h': u32, x: int)
    requires S32(h' - h) == S32(x)
    ensures h' == W32(h + x)
  {
    var p := Reduce32(h' - h);
    var q := Reduce32(x);
    var r := Reduce32(h + x);
  }

  /**
   A sync packet after a re-anchor, k packets later with no other one between: its NTP half decodes to the instant of
   the re-anchor on the sender's wall clock, plus 352 * k frames, up to the losses of the two conversions.
   */
  lemma SyncTellsTheTime(c0: Core, t: Trace, i: nat, j: nat) returns (m: int)
    requires Fresh(c0) && Legal(c0, t) && i < j < |t| && t[i].Reanchored? && t[j].Synced? && NoReanchor(t, i + 1, j)
    ensures Ticks(m, t[i].seconds, t[i].nanos, c0.rate) && Syncs(t[..j]) < |Run(c0, t).syncs|
    ensures Tells(SyncDatagram(Run(c0, t).syncs[Syncs(t[..j])], c0.rate), m, Advances(t[i + 1..j]), c0.rate)
  {
    EventAt(c0, t, i);
    m := StampTicks(t[i].ts, t[i].seconds, t[i].nanos, c0.rate);
    HeadSince(c0, t, i + 1, j);
    StampMoves(t[i].ts, m, Advances(t[i + 1..j]));
    PointTells(Run(c0, t).syncs[Syncs(t[..j])], m, Advances(t[i + 1..j]), c0.rate);
  }

  /** The same before any re-anchor, for the instant of dialling. */
  lemma SyncTellsTheStart(c0: Core, t: Trace, j: nat, seconds: int, nanos: nat) returns (m: int)
    requires Fresh(c0) && Legal(c0, t) && j < |t| && t[j].Synced? && NoReanchor(t, 0, j)
    requires nanos < NANOS && c0.headTS == NTPToRTP(NTPNow(seconds, nanos), c0.rate)
    ensures Ticks(m, seconds, nanos, c0.rate) && Syncs(t[..j]) < |Run(c0, t).syncs|
    ensures Tells(SyncDatagram(Run(c0, t).syncs[Syncs(t[..j])], c0.rate), m, Advances(t[..j]), c0.rate)
  {
    m := ClockAccuracy(seconds, nanos, c0.rate);
    assert t[..0] == [] && t[0..j] == t[..j];
    HeadSince(c0, t, 0, j);
    StampMoves(c0.headTS, m, Advances(t[..j]));
    PointTells(Run(c0, t).syncs[Syncs(t[..j])], m, Advances(t[..j]), c0.rate);
  }

  /**
   Dial takes the seconds from one reading of the clock and the nanoseconds from a later one. If a second begins between
   the two, its nanoseconds go with the second before, and the timeline starts a whole second early.
   */
  lemma DialAcrossSecond(seconds: int, nanos: nat, rate: int)
    requires rate > 0 && nanos < NANOS
    ensures NTPToRTP(NTPNow(seconds, nanos), rate) == W32(NTPToRTP(NTPNow(seconds + 1, nanos), rate) as int - rate)
  {
    NextSecond(seconds, nanos);
    SecondIsRateTicks(NTPNow(seconds, nanos), rate);
    OneSecondBack(NTPToRTP(NTPNow(seconds, nanos), rate), NTPToRTP(NTPNow(seconds + 1, nanos), rate), rate);
  }

  lemma OneSecondBack(early: u32, late: u32, rate: int)
    requires late == W32(early + rate)
    ensures early == W32(late as int - rate)
  {
    var q := Reduce32(early + rate);
    var r := Reduce32(late as int - rate);
  }

  lemma NextSecond(seconds: int, nanos: nat)
    requires nanos < NANOS
    ensures NTPNow(seconds + 1, nanos) == W64(NTPNow(seconds, nanos) + 0x1_0000_0000)
  {
    var p, q := W64(seconds + NTP_EPOCH_OFFSET), W64(seconds + 1 + NTP_EPOCH_OFFSET);
    HalvesFit(p, nanos);
    HalvesFit(q, nanos);
    NextUpperHalf(p, q, nanos * 0x1_0000_0000 / NANOS);
  }

  lemma NextUpperHalf(p: u64, q: u64, fraction: int)
    requires q == W64(p + 1) && 0 <= fraction < 0x1_0000_0000
    requires W64(q * 0x1_0000_0000) <= 0xFFFF_FFFF_0000_0000
    ensures W64(q * 0x1_0000_0000) + fraction == W64(W64(p * 0x1_0000_0000) + fraction + 0x1_0000_0000)
  {
    var a, b := p * 0x1_0000_0000 / 0x1_0000_0000_0000_0000, q * 0x1_0000_0000 / 0x1_0000_0000_0000_0000;
    var era := if q == p + 1 then 0 else 0x1_0000_0000;
    IsRemainder64(W64(p * 0x1_0000_0000) + fraction + 0x1_0000_0000, W64(q * 0x1_0000_0000) + fraction, b + era - a);
  }

  lemma IsRemainder64(x: int, r: int, q: int)
    requires x == r + 0x1_0000_0000_0000_0000 * q && 0 <= r < 0x1_0000_0000_0000_0000
    ensures W64(x) == r
  {}

  /** The datagrams on a sender's control socket are those of its run. */
  lemma SyncsSent(s: RaopSender)
    requires s.Valid()
    ensures Fresh(s.origin) && Legal(s.origin, s.trace) && Run(s.origin, s.trace) == s.core
    ensures s.origin.rate == s.core.rate == s.format.sampleRate > 0 && |s.syncOut| == |s.core.syncs|
    ensures forall k :: 0 <= k < |s.syncOut| ==> s.syncOut[k] == SyncDatagram(s.core.syncs[k], s.format.sampleRate)
  {
    assert Open(TheObject) && Open(TheFields) && Open(TheSyncs);
    Pacing.RunBehind(s.origin, s.trace, s.core);
  }

  /** So what a sender has told its receiver is the time at which its clock was last looked at, plus the frames since. */
  lemma SenderTellsTheTime(s: RaopSender, i: nat, j: nat) returns (m: int)
    requires s.Valid() && i < j < |s.trace| && s.trace[i].Reanchored? && s.trace[j].Synced?
    requires NoReanchor(s.trace, i + 1, j)
    ensures Ticks(m, s.trace[i].seconds, s.trace[i].nanos, s.format.sampleRate)
    ensures Syncs(s.trace[..j]) < |s.syncOut|
    ensures Tells(s.syncOut[Syncs(s.trace[..j])], m, Advances(s.trace[i + 1..j]), s.format.sampleRate)
  {
    SyncsSent(s);
    m := SyncTellsTheTime(s.origin, s.trace, i, j);
  }
}
