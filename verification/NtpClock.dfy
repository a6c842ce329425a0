/**
 NTP and RTP fixed-point time (internal/raop/protocol.go). An NTP timestamp is an unsigned 32.32 fixed-point
 number of seconds; an RTP timestamp counts sample frames modulo 2^32.
 */
module NtpClock {
  import opened Words

  const NTP_EPOCH_OFFSET := 0x83AA_7E80
  const NANOS := 1_000_000_000

  /** The clock reading the program takes: whole Unix seconds and the nanoseconds within the second. */
  function NTPNow(unixSeconds: int, unixNanos: nat): u64
    requires unixNanos < NANOS
  {
    var seconds := W64(unixSeconds + NTP_EPOCH_OFFSET);
    var frac := unixNanos * 0x1_0000_0000 / NANOS;
    HalvesFit(seconds, unixNanos);
    W64(seconds * 0x1_0000_0000) + frac
  }

  lemma HalvesFit(seconds: u64, unixNanos: nat)
    requires unixNanos < NANOS
    ensures 0 <= unixNanos * 0x1_0000_0000 / NANOS < 0x1_0000_0000
    ensures W64(seconds * 0x1_0000_0000) <= 0xFFFF_FFFF_0000_0000
  {
    var rest := seconds % 0x1_0000_0000;
    assert seconds * 0x1_0000_0000
        == 0x1_0000_0000_0000_0000 * (seconds / 0x1_0000_0000) + rest * 0x1_0000_0000;
  }

  /** The NTP clock starts at 1900: its second 2,208,988,800 is the Unix epoch. */
  lemma EpochIs1900()
    ensures NTPNow(0, 0) == 2_208_988_800 * 0x1_0000_0000 && NTPNow(-2_208_988_800, 0) == 0
    ensures NTPNow(0, 500_000_000) == NTPNow(0, 0) + 0x8000_0000
  {}

  function NTPParts(ntp: u64): (u32, u32) { (ntp / 0x1_0000_0000, W32(ntp)) }

  function FromParts(sec: u32, frac: u32): u64 { sec * 0x1_0000_0000 + frac }

  /** The 64-bit product wraps: at 192 kHz it exceeds 2^64 for every current-era timestamp. */
  function NTPToRTP(ntp: u64, rate: int): u32
    requires rate > 0
  {
    W32(W64(ntp / 0x1_0000 * rate) / 0x1_0000)
  }

  function RTPToNTP(ts: u32, rate: int): u64
    requires rate > 0
  {
    QuotientBelow(ts * 0x1_0000, rate);
    ts * 0x1_0000 / rate * 0x1_0000
  }

  /** Asks what a time stamp says of the clock it was taken from. */
  ghost predicate Ask(ts: u32) { true }

  /**
   The stamp is the RTP clock at this reading of the wall clock: where dialling and re-anchoring start the timeline.
   (Behind the trigger Ask, so that runs pass it on without unfolding the conversions.)
   */
  ghost predicate IsStamp(stamp: u32, unixSeconds: int, unixNanos: nat, rate: int) {
    forall ts {:trigger Ask(ts)} :: Ask(ts) && ts == stamp ==>
      rate > 0 && unixNanos < NANOS && ts == NTPToRTP(NTPNow(unixSeconds, unixNanos), rate)
  }

  lemma StampOf(unixSeconds: int, unixNanos: nat, rate: int)
    requires rate > 0 && unixNanos < NANOS
    ensures IsStamp(NTPToRTP(NTPNow(unixSeconds, unixNanos), rate), unixSeconds, unixNanos, rate)
  {}

  lemma StampIs(stamp: u32, unixSeconds: int, unixNanos: nat, rate: int)
    requires IsStamp(stamp, unixSeconds, unixNanos, rate)
    ensures rate > 0 && unixNanos < NANOS && stamp == NTPToRTP(NTPNow(unixSeconds, unixNanos), rate)
  {
    assert Ask(stamp);
  }

  /** How many ticks a timestamp can lose on its way through the NTP form. */
  function MaxLoss(rate: int): int
    requires rate > 0
  {
    (rate - 1 + 0xFFFF) / 0x1_0000
  }

  lemma QuotientBelow(x: nat, d: int)
    requires d > 0
    ensures 0 <= x / d <= x
    ensures x / d * d <= x < x / d * d + d
  {
    assert x == x / d * d + x % d;
    Scale(x / d, d);
  }

  lemma Scale(a: nat, d: int)
    requires d > 0
    ensures a <= a * d
  {}

  /** Two words whose sources differ by a multiple of 2^32 are the same word. */
  lemma SameWord(a: int, b: int, k: int)
    requires a == b + 0x1_0000_0000 * k
    ensures W32(a) == W32(b)
  {}

  /** The overflow of the 64-bit product never reaches the 32 bits that are kept. */
  lemma OverflowIsHarmless(ntp: u64, rate: int)
    requires rate > 0
    ensures NTPToRTP(ntp, rate) == W32(ntp / 0x1_0000 * rate / 0x1_0000)
  {
    var p := ntp / 0x1_0000 * rate;
    var q := p / 0x1_0000_0000_0000_0000;
    assert p == q * 0x1_0000_0000_0000_0000 + W64(p);
    assert p / 0x1_0000 == q * 0x1_0000_0000_0000 + W64(p) / 0x1_0000;
    SameWord(p / 0x1_0000, W64(p) / 0x1_0000, q * 0x1_0000);
  }

  /** At 192 kHz the 64-bit product does wrap, so the lemma above is not about products that fit. */
  lemma OverflowHappens()
    ensures exists ntp: u64 :: ntp / 0x1_0000 * 192_000 >= 0x1_0000_0000_0000_0000
  {
    var ntp: u64 := 0xE000_0000_0000_0000;
    assert ntp / 0x1_0000 * 192_000 >= 0x1_0000_0000_0000_0000;
  }

  /** One NTP second is exactly `rate` RTP ticks, also when the NTP era rolls over. */
  lemma SecondIsRateTicks(ntp: u64, rate: int)
    requires rate > 0
    ensures NTPToRTP(W64(ntp + 0x1_0000_0000), rate) == W32(NTPToRTP(ntp, rate) + rate)
  {
    var later := W64(ntp + 0x1_0000_0000);
    var n, m := ntp / 0x1_0000, later / 0x1_0000;
    var era := if later == ntp + 0x1_0000_0000 then 0 else 1;
    assert m == n + 0x1_0000 - era * 0x1_0000_0000_0000;
    assert m * rate == n * rate + 0x1_0000 * rate - era * 0x1_0000_0000_0000 * rate;
    var p := n * rate;
    var back := era * rate;
    assert m * rate == p + 0x1_0000 * (rate - 0x1_0000_0000 * back);
    assert m * rate / 0x1_0000 == p / 0x1_0000 + rate - 0x1_0000_0000 * back;
    OverflowIsHarmless(ntp, rate);
    OverflowIsHarmless(later, rate);
    SameWord(m * rate / 0x1_0000, p / 0x1_0000 + rate, -back);
    WrapSum32(p / 0x1_0000, rate);
  }

  lemma PartsRoundTrip(ntp: u64)
    ensures FromParts(NTPParts(ntp).0, NTPParts(ntp).1) == ntp
  {}

  /**
   RTP to NTP and back is never ahead, loses at most ceil((rate-1)/2^16) ticks, and is exact precisely when the
   rate divides the timestamp scaled by 2^16.
   */
  lemma RoundTrip(ts: u32, rate: int)
    requires rate > 0
    ensures ts - MaxLoss(rate) <= NTPToRTP(RTPToNTP(ts, rate), rate) <= ts
    ensures NTPToRTP(RTPToNTP(ts, rate), rate) == ts <==> ts * 0x1_0000 % rate == 0
  {
    Returned(ts, rate);
    TicksLost(ts, ts * 0x1_0000 % rate, rate);
  }

  lemma Returned(ts: u32, rate: int)
    requires rate > 0
    ensures ts * 0x1_0000 % rate <= ts * 0x1_0000
    ensures NTPToRTP(RTPToNTP(ts, rate), rate) == (ts * 0x1_0000 - ts * 0x1_0000 % rate) / 0x1_0000
  {
    var x := ts * 0x1_0000;
    QuotientBelow(x, rate);
    var n := x / rate;
    var r := x % rate;
    assert n * rate == x - r;
    assert RTPToNTP(ts, rate) / 0x1_0000 == n;
    OverflowIsHarmless(RTPToNTP(ts, rate), rate);
  }

  lemma TicksLost(ts: u32, r: nat, rate: int)
    requires r < rate && r <= ts * 0x1_0000
    ensures ts - MaxLoss(rate) <= (ts * 0x1_0000 - r) / 0x1_0000 <= ts
    ensures (ts * 0x1_0000 - r) / 0x1_0000 == ts <==> r == 0
  {}

  /** A time in whole nanoseconds since the NTP epoch. */
  function ExactNanos(unixSeconds: int, unixNanos: nat): int {
    (unixSeconds + NTP_EPOCH_OFFSET) * NANOS + unixNanos
  }

  /**
   The RTP clock derived from a wall-clock reading is never ahead of exact time * rate and less than
   1 + rate/2^16 ticks behind it: it is the word of a tick count m that brackets the exact value.
   */
  lemma ClockAccuracy(unixSeconds: int, unixNanos: nat, rate: int) returns (m: int)
    requires unixNanos < NANOS && rate > 0
    ensures NTPToRTP(NTPNow(unixSeconds, unixNanos), rate) == W32(m)
    ensures m * NANOS <= ExactNanos(unixSeconds, unixNanos) * rate
    ensures ExactNanos(unixSeconds, unixNanos) * rate * 0x1_0000 < (m * 0x1_0000 + 0x1_0000 + rate) * NANOS
  {
    var s := unixSeconds + NTP_EPOCH_OFFSET;
    var ntp := NTPNow(unixSeconds, unixNanos);
    var frac := unixNanos * 0x1_0000_0000 / NANOS;
    var f := unixNanos * 0x1_0000 / NANOS;
    assert frac / 0x1_0000 == f;
    var era := s / 0x1_0000_0000;
    assert ntp == (s - era * 0x1_0000_0000) * 0x1_0000_0000 + frac by {
      assert W64(W64(s) * 0x1_0000_0000) == (s - era * 0x1_0000_0000) * 0x1_0000_0000;
    }
    var n := s * 0x1_0000 + f;
    assert ntp / 0x1_0000 == n - era * 0x1_0000_0000_0000;
    var p := n * rate;
    m := p / 0x1_0000;
    assert ntp / 0x1_0000 * rate == p - era * 0x1_0000_0000_0000 * rate;
    var back := era * rate;
    assert ntp / 0x1_0000 * rate / 0x1_0000 == m - 0x1_0000_0000 * back;
    OverflowIsHarmless(ntp, rate);
    SameWord(m - 0x1_0000_0000 * back, m, -back);
    Brackets(s * NANOS + unixNanos, n, rate, m);
  }

  /** n = floor(t * 2^16 / 10^9) and m = floor(n * rate / 2^16) bracket t * rate / 10^9. */
  lemma Brackets(t: int, n: int, rate: int, m: int)
    requires rate > 0
    requires n * NANOS <= t * 0x1_0000 < n * NANOS + NANOS
    requires m == n * rate / 0x1_0000
    ensures m * NANOS <= t * rate
    ensures t * rate * 0x1_0000 < (m * 0x1_0000 + 0x1_0000 + rate) * NANOS
  {
    var lo, mid, hi := n * NANOS, t * 0x1_0000, n * NANOS + NANOS;
    assert lo * rate <= mid * rate;
    assert mid * rate < hi * rate;
    assert lo * rate == n * rate * NANOS;
    assert hi * rate == n * rate * NANOS + rate * NANOS;
    assert mid * rate == t * rate * 0x1_0000;
  }

  // ---- Sync packets as the receiver compares them ----

  /** What the receiver derives from the NTP half of a sync packet for the sender's head position. */
  function SyncRTP(head: u32, rate: int): u32
    requires rate > 0
  {
    var parts := NTPParts(RTPToNTP(head, rate));
    NTPToRTP(FromParts(parts.0, parts.1), rate)
  }

  /**
   Two sync packets whose heads are `d` ticks apart: the receiver's delta from the NTP half differs from the delta
   of the RTP half by at most the round-trip loss, whenever the signed distance stays that far from the ends of
   the 32-bit range.
   */
  lemma SkewBound(head0: u32, head1: u32, rate: int)
    requires rate > 0
    requires -0x8000_0000 + MaxLoss(rate) <= S32(head1 - head0) < 0x8000_0000 - MaxLoss(rate)
    ensures -MaxLoss(rate) <= S32(SyncRTP(head1, rate) - SyncRTP(head0, rate)) - S32(head1 - head0) <= MaxLoss(rate)
  {
    SyncLoss(head0, rate);
    SyncLoss(head1, rate);
    SignedDelta(head0, head1, SyncRTP(head0, rate), SyncRTP(head1, rate), MaxLoss(rate));
  }

  lemma SyncLoss(head: u32, rate: int)
    requires rate > 0
    ensures head - MaxLoss(rate) <= SyncRTP(head, rate) <= head
    ensures SyncRTP(head, rate) == head <==> head * 0x1_0000 % rate == 0
  {
    PartsRoundTrip(RTPToNTP(head, rate));
    RoundTrip(head, rate);
  }

  lemma SignedDelta(a: u32, b: u32, a': u32, b': u32, loss: int)
    requires a - loss <= a' <= a && b - loss <= b' <= b
    requires -0x8000_0000 + loss <= S32(b - a) < 0x8000_0000 - loss
    ensures -loss <= S32(b' - a') - S32(b - a) <= loss
  {
    SignedShift(b - a, (b' - b) - (a' - a));
  }

  lemma SignedShift(d: int, e: int)
    requires -0x8000_0000 <= S32(d) + e < 0x8000_0000
    ensures S32(d + e) == S32(d) + e
  {
    var k := (S32(d) - d) / 0x1_0000_0000;
    assert d + e == S32(d) + e - 0x1_0000_0000 * k;
  }
}
