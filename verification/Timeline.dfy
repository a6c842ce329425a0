/**
 What the receiver's capture is worth (cmd/mockreceiver/main.go:660-692): for which deliveries it is the sender's
 timeline, and what late packets do to it. `chunks` are the decoded payloads of everything the sender sent, numbered
 from s0 modulo 2^16; a delivery is the list of the indices that arrived, in order of arrival.
 */
module Timeline {
  import opened Words
  import opened Protocol
  import opened StreamMachine
  import opened Receiver

  const PAYLOAD_SIZE := 1408

  ghost predicate Stereo(chunks: seq<Bytes>) {
    forall k :: 0 <= k < |chunks| ==> |chunks[k]| == PAYLOAD_SIZE
  }

  predicate Arrivals(d: seq<nat>, n: nat) {
    forall i :: 0 <= i < |d| ==> d[i] < n
  }

  predicate InOrder(d: seq<nat>) {
    forall i :: 0 < i < |d| ==> d[i - 1] < d[i]
  }

  /** Fewer than 512 packets missing between any two neighbours. */
  predicate SmallGaps(d: seq<nat>) {
    forall i :: 0 < i < |d| ==> d[i] - d[i - 1] <= GAP_LIMIT
  }

  // ---- The timeline ----

  /** The slot of packet k: its samples if it arrived, silence otherwise. */
  function Slot(chunks: seq<Bytes>, d: seq<nat>, k: nat): Bytes
    requires k < |chunks|
  {
    if k in d then chunks[k] else Zeros(PAYLOAD_SIZE)
  }

  /** The slots lo..hi one after the other. */
  function Slots(chunks: seq<Bytes>, d: seq<nat>, lo: nat, hi: nat): Bytes
    requires lo <= hi <= |chunks|
    decreases hi
  {
    if lo == hi then [] else Slots(chunks, d, lo, hi - 1) + Slot(chunks, d, hi - 1)
  }

  lemma {:induction false} SlotsLength(chunks: seq<Bytes>, d: seq<nat>, lo: nat, hi: nat)
    requires Stereo(chunks) && lo <= hi <= |chunks|
    ensures |Slots(chunks, d, lo, hi)| == PAYLOAD_SIZE * (hi - lo)
    decreases hi
  {
    if lo == hi {
    } else {
      SlotsLength(chunks, d, lo, hi - 1);
    }
  }

  /** Slot k sits at its own offset: its sequence distance times 1408 bytes. */
  lemma SlotOffset(chunks: seq<Bytes>, d: seq<nat>, lo: nat, hi: nat, k: nat)
    requires Stereo(chunks) && lo <= k < hi <= |chunks|
    ensures var at := PAYLOAD_SIZE * (k - lo);
            && at + PAYLOAD_SIZE <= |Slots(chunks, d, lo, hi)|
            && Slots(chunks, d, lo, hi)[at..at + PAYLOAD_SIZE] == Slot(chunks, d, k)
  {
    SlotIsAt(chunks, d, lo, hi, k, PAYLOAD_SIZE * (k - lo));
  }

  lemma {:induction false} SlotIsAt(chunks: seq<Bytes>, d: seq<nat>, lo: nat, hi: nat, k: nat, at: nat)
    requires Stereo(chunks) && lo <= k < hi <= |chunks| && at == PAYLOAD_SIZE * (k - lo)
    ensures at + PAYLOAD_SIZE <= |Slots(chunks, d, lo, hi)|
    ensures Slots(chunks, d, lo, hi)[at..at + PAYLOAD_SIZE] == Slot(chunks, d, k)
    decreases hi
  {
    if k == hi - 1 {
      SlotsLength(chunks, d, lo, k);
      SliceOfBack(Slots(chunks, d, lo, k), Slot(chunks, d, k), at);
    } else {
      SlotIsAt(chunks, d, lo, hi - 1, k, at);
      SliceOfFront(Slots(chunks, d, lo, hi - 1), Slot(chunks, d, hi - 1), at);
    }
  }

  lemma SliceOfBack(front: Bytes, back: Bytes, at: nat)
    requires |front| == at && |back| == PAYLOAD_SIZE
    ensures at + PAYLOAD_SIZE <= |front + back| && (front + back)[at..at + PAYLOAD_SIZE] == back
  {}

  lemma SliceOfFront(front: Bytes, back: Bytes, at: nat)
    requires at + PAYLOAD_SIZE <= |front|
    ensures (front + back)[at..at + PAYLOAD_SIZE] == front[at..at + PAYLOAD_SIZE]
  {}

  /** Slots before the newest arrival do not depend on it. */
  lemma {:induction false} SlotsStay(chunks: seq<Bytes>, d: seq<nat>, next: nat, lo: nat, hi: nat)
    requires lo <= hi <= |chunks| && hi <= next
    ensures Slots(chunks, d + [next], lo, hi) == Slots(chunks, d, lo, hi)
    decreases hi
  {
    if lo == hi {
    } else {
      SlotsStay(chunks, d, next, lo, hi - 1);
    }
  }

  /** A stretch nothing of which arrived is silence. */
  lemma {:induction false} SilentSlots(chunks: seq<Bytes>, d: seq<nat>, lo: nat, mid: nat, hi: nat)
    requires lo <= mid <= hi <= |chunks|
    requires forall k :: mid <= k < hi ==> k !in d
    ensures Slots(chunks, d, lo, hi) == Slots(chunks, d, lo, mid) + Zeros(PAYLOAD_SIZE * (hi - mid))
    decreases hi
  {
    if mid == hi {
    } else {
      SilentSlots(chunks, d, lo, mid, hi - 1);
      assert Zeros(PAYLOAD_SIZE * (hi - 1 - mid)) + Zeros(PAYLOAD_SIZE) == Zeros(PAYLOAD_SIZE * (hi - mid));
    }
  }

  lemma {:induction false} Increasing(d: seq<nat>, i: nat, j: nat)
    requires InOrder(d) && i <= j < |d|
    ensures d[i] <= d[j]
  {
    if i == j {
    } else {
      Increasing(d, i, j - 1);
    }
  }

  /** An in-order arrival extends the timeline by the silence of the gap and its own samples. */
  lemma NextSlot(chunks: seq<Bytes>, d: seq<nat>, k: nat)
    requires d != [] && Arrivals(d, |chunks|) && k < |chunks| && InOrder(d) && d[|d| - 1] < k
    ensures d[0] <= d[|d| - 1]
    ensures Slots(chunks, d + [k], d[0], k + 1)
         == Slots(chunks, d, d[0], d[|d| - 1] + 1) + Zeros(PAYLOAD_SIZE * (k - d[|d| - 1] - 1)) + chunks[k]
  {
    var last := d[|d| - 1];
    NothingBehind(d);
    SlotsStay(chunks, d, k, d[0], k);
    SilentSlots(chunks, d, d[0], last + 1, k);
    OwnSamples(chunks, d, k);
  }

  lemma NothingBehind(d: seq<nat>)
    requires d != [] && InOrder(d)
    ensures d[0] <= d[|d| - 1] && forall i <- d :: i <= d[|d| - 1]
  {
    forall i | 0 <= i < |d|
      ensures d[i] <= d[|d| - 1]
    {
      Increasing(d, i, |d| - 1);
    }
  }

  lemma OwnSamples(chunks: seq<Bytes>, d: seq<nat>, k: nat)
    requires k < |chunks|
    ensures Slot(chunks, d + [k], k) == chunks[k]
  {
    assert (d + [k])[|d|] == k;
  }

  // ---- Feeding the receiver ----

  function TakeAll(s: Capture, chunks: seq<Bytes>, s0: int, d: seq<nat>): Capture
    requires Arrivals(d, |chunks|)
  {
    if d == [] then s
    else
      var k := d[|d| - 1];
      Take(TakeAll(s, chunks, s0, d[..|d| - 1]), SeqAt(s0, k), chunks[k])
  }

  /** A capture that has just taken packet `expected - 1`. */
  predicate Expects(s: Capture, s0: int, expected: int) {
    s.haveSeq && s.nextSeq == SeqAt(s0, expected)
  }

  /** One arrival: what it adds depends on its 16-bit distance from the packet expected. */
  lemma Arrival(s: Capture, samples: Bytes, s0: int, expected: int, k: int)
    requires Expects(s, s0, expected)
    ensures var delta := W16(k - expected);
            var s' := Take(s, SeqAt(s0, k), samples);
            && Expects(s', s0, k + 1)
            && s'.pcm == s.pcm + Zeros(if delta < GAP_LIMIT then PAYLOAD_SIZE * delta else 0) + samples
            && s'.frames == s.frames + FRAMES_PER_PACKET * (if delta < GAP_LIMIT then delta else 0) + |samples| / 4
            && s'.requests == s.requests + (if 0 < delta < GAP_LIMIT then [RequestBytes(s.nextSeq, delta)] else [])
  {
    Distance16(s0, k, expected);
    WrapSum16(s0 + k, 1);
    assert s.pcm + Zeros(0) == s.pcm;
  }

  /** An arrival fewer than 512 packets ahead of the one expected: the gap is padded and, if there is one, asked for. */
  lemma PaddedArrival(s: Capture, samples: Bytes, s0: int, expected: int, k: int)
    requires Expects(s, s0, expected) && expected <= k < expected + GAP_LIMIT
    ensures var s' := Take(s, SeqAt(s0, k), samples);
            && Expects(s', s0, k + 1)
            && s'.pcm == s.pcm + Zeros(PAYLOAD_SIZE * (k - expected)) + samples
            && s'.frames == s.frames + FRAMES_PER_PACKET * (k - expected) + |samples| / 4
            && |s'.requests| == |s.requests| + if k == expected then 0 else 1
  {
    SmallWord(k - expected);
    Arrival(s, samples, s0, expected, k);
  }

  /** Where padding ends: 511 missing packets are bridged and asked for, 512 are neither. */
  lemma PaddingEnds(s: Capture, samples: Bytes, s0: int, expected: int)
    requires Expects(s, s0, expected) && |samples| == PAYLOAD_SIZE
    ensures var s' := Take(s, SeqAt(s0, expected + 511), samples);
            |s'.pcm| == |s.pcm| + 512 * 1408 && |s'.requests| == |s.requests| + 1
    ensures var s' := Take(s, SeqAt(s0, expected + 512), samples);
            |s'.pcm| == |s.pcm| + 1408 && s'.requests == s.requests
  {
    Arrival(s, samples, s0, expected, expected + 511);
    Arrival(s, samples, s0, expected, expected + 512);
  }

  lemma SmallWord(x: nat)
    requires x < 0x1_0000
    ensures W16(x) == x
  {}

  lemma Distance16(s0: int, k: int, expected: int)
    ensures W16(SeqAt(s0, k) as int - SeqAt(s0, expected)) == W16(k - expected)
  {
    var e: int := SeqAt(s0, expected);
    WrapSum16(s0 + k, -e);
    var q := (s0 + expected) / 0x1_0000;
    assert s0 + k - e == k - expected + 0x1_0000 * q;
  }

  lemma FirstArrival(s: Capture, samples: Bytes, s0: int, k: int)
    requires !s.haveSeq
    ensures Take(s, SeqAt(s0, k), samples)
         == Capture(true, SeqAt(s0, k + 1), s.pcm + samples, s.frames + |samples| / 4, s.requests)
  {
    WrapSum16(s0 + k, 1);
  }

  // ---- In-order delivery ----

  /** The capture gained exactly the timeline from the first to the last packet delivered. */
  predicate Truthful(s: Capture, s': Capture, chunks: seq<Bytes>, s0: int, d: seq<nat>)
    requires d != [] && Arrivals(d, |chunks|) && d[0] <= d[|d| - 1]
  {
    && Expects(s', s0, d[|d| - 1] + 1)
    && s'.pcm == s.pcm + Slots(chunks, d, d[0], d[|d| - 1] + 1)
    && s'.frames == s.frames + FRAMES_PER_PACKET * (d[|d| - 1] + 1 - d[0])
  }

  lemma FirstTruthful(s: Capture, chunks: seq<Bytes>, s0: int, k: nat)
    requires Stereo(chunks) && k < |chunks| && !s.haveSeq
    ensures Truthful(s, Take(s, SeqAt(s0, k), chunks[k]), chunks, s0, [k])
  {
    FirstArrival(s, chunks[k], s0, k);
    assert Slots(chunks, [k], k, k) == [] && Slot(chunks, [k], k) == chunks[k];
  }

  lemma TruthfulStep(s: Capture, s1: Capture, chunks: seq<Bytes>, s0: int, d: seq<nat>, k: nat)
    requires Stereo(chunks) && d != [] && Arrivals(d, |chunks|) && k < |chunks| && InOrder(d)
    requires d[0] <= d[|d| - 1] < k <= d[|d| - 1] + GAP_LIMIT
    requires Truthful(s, s1, chunks, s0, d)
    ensures Arrivals(d + [k], |chunks|)
    ensures Truthful(s, Take(s1, SeqAt(s0, k), chunks[k]), chunks, s0, d + [k])
  {
    PaddedArrival(s1, chunks[k], s0, d[|d| - 1] + 1, k);
    NextSlot(chunks, d, k);
  }

  /**
   Any number of packets, past any number of 16-bit wraps, delivered in order with every gap below 512: the capture
   gains exactly the timeline from the first to the last packet delivered, each payload in its own slot and silence
   in every other.
   */
  lemma {:induction false} InOrderCapture(s: Capture, chunks: seq<Bytes>, s0: int, d: seq<nat>)
    requires Stereo(chunks) && d != [] && Arrivals(d, |chunks|) && InOrder(d) && SmallGaps(d) && !s.haveSeq
    ensures d[0] <= d[|d| - 1] && Truthful(s, TakeAll(s, chunks, s0, d), chunks, s0, d)
  {
    var front, last := d[..|d| - 1], d[|d| - 1];
    assert d == front + [last] && Arrivals(front, |chunks|);
    if front == [] {
      FirstTruthful(s, chunks, s0, last);
    } else {
      InOrderCapture(s, chunks, s0, front);
      TruthfulStep(s, TakeAll(s, chunks, s0, front), chunks, s0, front, last);
    }
  }

  /** How many packets' worth of capture an in-order delivery adds at most, and when it adds that much. */
  predicate AtMostTimeline(s: Capture, s': Capture, s0: int, d: seq<nat>)
    requires d != []
  {
    && d[0] <= d[|d| - 1]
    && Expects(s', s0, d[|d| - 1] + 1)
    && |s'.pcm| <= |s.pcm| + PAYLOAD_SIZE * (d[|d| - 1] + 1 - d[0])
    && (|s'.pcm| == |s.pcm| + PAYLOAD_SIZE * (d[|d| - 1] + 1 - d[0]) <==> SmallGaps(d))
  }

  /**
   Without the bound on the gaps an in-order delivery adds at most the timeline, and as much exactly when no gap
   reaches 512.
   */
  lemma {:induction false} TruthfulIffSmallGaps(s: Capture, chunks: seq<Bytes>, s0: int, d: seq<nat>)
    requires Stereo(chunks) && d != [] && Arrivals(d, |chunks|) && InOrder(d) && !s.haveSeq
    ensures AtMostTimeline(s, TakeAll(s, chunks, s0, d), s0, d)
  {
    var front, last := d[..|d| - 1], d[|d| - 1];
    assert d == front + [last];
    if front == [] {
      FirstArrival(s, chunks[last], s0, last);
    } else {
      TruthfulIffSmallGaps(s, chunks, s0, front);
      LengthStep(s, TakeAll(s, chunks, s0, front), chunks[last], s0, front, last);
    }
  }

  lemma LengthStep(s: Capture, s1: Capture, samples: Bytes, s0: int, d: seq<nat>, k: nat)
    requires d != [] && AtMostTimeline(s, s1, s0, d) && d[|d| - 1] < k && |samples| == PAYLOAD_SIZE
    ensures AtMostTimeline(s, Take(s1, SeqAt(s0, k), samples), s0, d + [k])
  {
    var gap := k - d[|d| - 1] - 1;
    Arrival(s1, samples, s0, d[|d| - 1] + 1, k);
    assert W16(gap) < GAP_LIMIT ==> W16(gap) <= gap && (W16(gap) == gap <==> gap < GAP_LIMIT);
    GapsGrow(d, k);
  }

  lemma GapsGrow(d: seq<nat>, k: nat)
    requires d != []
    ensures SmallGaps(d + [k]) <==> SmallGaps(d) && k - d[|d| - 1] <= GAP_LIMIT
  {
    var e := d + [k];
    if SmallGaps(e) {
      forall i | 0 < i < |d|
        ensures d[i] - d[i - 1] <= GAP_LIMIT
      {
        assert e[i] - e[i - 1] <= GAP_LIMIT;
      }
      assert e[|d|] - e[|d| - 1] <= GAP_LIMIT;
    }
    if SmallGaps(d) && k - d[|d| - 1] <= GAP_LIMIT {
      forall i | 0 < i < |e|
        ensures e[i] - e[i - 1] <= GAP_LIMIT
      {
        if i < |d| {
          assert d[i] - d[i - 1] <= GAP_LIMIT;
        }
      }
    }
  }

  // ---- Any delivery ----

  /** The timeline from the first to the last arrival, or nothing that deserves the name. */
  predicate GainsTimeline(s: Capture, s': Capture, chunks: seq<Bytes>, s0: int, d: seq<nat>)
    requires d != [] && Arrivals(d, |chunks|)
  {
    d[0] <= d[|d| - 1] && Truthful(s, s', chunks, s0, d)
  }

  /** Audio in which every packet delivered can be told from the others and from silence. */
  ghost predicate Telling(chunks: seq<Bytes>, d: seq<nat>)
    requires Arrivals(d, |chunks|)
  {
    && (forall j, k :: j in d && k in d && j != k ==> chunks[j] != chunks[k])
    && (forall k <- d :: chunks[k] != Zeros(PAYLOAD_SIZE))
  }

  /** The packets' worth of capture that an arrival adds after another one. */
  function Added(prev: nat, k: nat): nat {
    var delta := W16(k - prev - 1);
    if delta < GAP_LIMIT then delta + 1 else 1
  }

  /** The packets' worth of capture that a delivery adds; its last packet is the last of them. */
  function Length(d: seq<nat>): nat {
    if d == [] then 0 else if |d| == 1 then 1 else Length(d[..|d| - 1]) + Added(d[|d| - 2], d[|d| - 1])
  }

  lemma OneMoreBlock(s1: Capture, samples: Bytes, s0: int, prev: nat, k: nat)
    requires Expects(s1, s0, prev + 1) && |samples| == PAYLOAD_SIZE
    ensures var s' := Take(s1, SeqAt(s0, k), samples);
            && Expects(s', s0, k + 1) && s1.pcm <= s'.pcm
            && |s'.pcm| == |s1.pcm| + PAYLOAD_SIZE * Added(prev, k)
            && s'.pcm[|s'.pcm| - PAYLOAD_SIZE..] == samples
  {
    Arrival(s1, samples, s0, prev + 1, k);
  }

  /** What a delivery leaves: so many blocks, the last of them the last arrival's. */
  lemma {:induction false} LastBlock(s: Capture, chunks: seq<Bytes>, s0: int, d: seq<nat>)
    requires Stereo(chunks) && d != [] && Arrivals(d, |chunks|) && !s.haveSeq
    ensures var s' := TakeAll(s, chunks, s0, d);
            && Expects(s', s0, d[|d| - 1] + 1) && s.pcm <= s'.pcm
            && |s'.pcm| == |s.pcm| + PAYLOAD_SIZE * Length(d)
            && s'.pcm[|s'.pcm| - PAYLOAD_SIZE..] == chunks[d[|d| - 1]]
  {
    var front, last := d[..|d| - 1], d[|d| - 1];
    if front == [] {
      FirstArrival(s, chunks[last], s0, last);
    } else {
      LastBlock(s, chunks, s0, front);
      OneMoreBlock(TakeAll(s, chunks, s0, front), chunks[last], s0, d[|d| - 2], last);
    }
  }

  /** What is captured stays: the capture of the first part of a delivery is a prefix of that of the whole. */
  lemma {:induction false} CaptureGrows(s: Capture, chunks: seq<Bytes>, s0: int, d: seq<nat>, part: seq<nat>)
    requires Stereo(chunks) && Arrivals(d, |chunks|) && !s.haveSeq && part != [] && part <= d
    ensures Arrivals(part, |chunks|)
    ensures TakeAll(s, chunks, s0, part).pcm <= TakeAll(s, chunks, s0, d).pcm
    ensures Length(part) + |d| - |part| <= Length(d)
  {
    if |part| == |d| {
      assert part == d;
    } else {
      CaptureGrows(s, chunks, s0, d[..|d| - 1], part);
      GrowsByOne(s, chunks, s0, d);
    }
  }

  lemma GrowsByOne(s: Capture, chunks: seq<Bytes>, s0: int, d: seq<nat>)
    requires Stereo(chunks) && Arrivals(d, |chunks|) && !s.haveSeq && |d| >= 2
    ensures TakeAll(s, chunks, s0, d[..|d| - 1]).pcm <= TakeAll(s, chunks, s0, d).pcm
    ensures Length(d[..|d| - 1]) + 1 <= Length(d)
  {
    var front := d[..|d| - 1];
    LastBlock(s, chunks, s0, front);
    OneMoreBlock(TakeAll(s, chunks, s0, front), chunks[d[|d| - 1]], s0, d[|d| - 2], d[|d| - 1]);
  }

  /** The i-th arrival's samples stay where they were put. */
  lemma BlockOf(s: Capture, s': Capture, chunks: seq<Bytes>, s0: int, d: seq<nat>, i: nat, part: seq<nat>, n: nat, at: int)
    requires Stereo(chunks) && Arrivals(d, |chunks|) && !s.haveSeq && i < |d| && part == d[..i + 1]
    requires s' == TakeAll(s, chunks, s0, d) && n == Length(part) && at == |s.pcm| + PAYLOAD_SIZE * (n - 1)
    ensures 1 <= n <= Length(d)
    ensures 0 <= at && at + PAYLOAD_SIZE <= |s'.pcm| && s'.pcm[at..at + PAYLOAD_SIZE] == chunks[d[i]]
  {
    CaptureGrows(s, chunks, s0, d, part);
    BlockOfPart(s, chunks, s0, part, s'.pcm, at);
  }

  lemma BlockOfPart(s: Capture, chunks: seq<Bytes>, s0: int, part: seq<nat>, pcm: Bytes, at: int)
    requires Stereo(chunks) && part != [] && Arrivals(part, |chunks|) && !s.haveSeq
    requires TakeAll(s, chunks, s0, part).pcm <= pcm && at == |s.pcm| + PAYLOAD_SIZE * (Length(part) - 1)
    ensures Length(part) > 0 && 0 <= at && at + PAYLOAD_SIZE <= |pcm|
    ensures pcm[at..at + PAYLOAD_SIZE] == chunks[part[|part| - 1]]
  {
    LastBlock(s, chunks, s0, part);
    BlockStays(TakeAll(s, chunks, s0, part).pcm, pcm, at, chunks[part[|part| - 1]]);
  }

  lemma BlockStays(part: Bytes, pcm: Bytes, at: int, samples: Bytes)
    requires part <= pcm && |part| == at + PAYLOAD_SIZE && at >= 0 && part[|part| - PAYLOAD_SIZE..] == samples
    ensures at + PAYLOAD_SIZE <= |pcm| && pcm[at..at + PAYLOAD_SIZE] == samples
  {
    assert pcm[|part| - PAYLOAD_SIZE..|part|] == part[|part| - PAYLOAD_SIZE..];
  }

  /** A slot that holds some packet's samples is that packet's. */
  lemma SlotTells(chunks: seq<Bytes>, d: seq<nat>, k: nat, j: nat)
    requires Arrivals(d, |chunks|) && Telling(chunks, d) && k < |chunks| && j in d && Slot(chunks, d, k) == chunks[j]
    ensures k == j
  {}

  lemma LengthTells(before: Bytes, chunks: seq<Bytes>, d: seq<nat>, lo: nat, hi: nat, n: nat)
    requires Stereo(chunks) && lo <= hi <= |chunks|
    requires |before + Slots(chunks, d, lo, hi)| == |before| + PAYLOAD_SIZE * n
    ensures n == hi - lo
  {
    SlotsLength(chunks, d, lo, hi);
  }

  /** A capture that gained the timeline gained its length. */
  lemma TimelineLength(s: Capture, s': Capture, chunks: seq<Bytes>, s0: int, d: seq<nat>)
    requires Stereo(chunks) && d != [] && Arrivals(d, |chunks|) && !s.haveSeq
    requires s' == TakeAll(s, chunks, s0, d) && GainsTimeline(s, s', chunks, s0, d)
    ensures Length(d) + d[0] == d[|d| - 1] + 1
  {
    LastBlock(s, chunks, s0, d);
    LengthOf(s, s', chunks, s0, d, Length(d));
  }

  lemma LengthOf(s: Capture, s': Capture, chunks: seq<Bytes>, s0: int, d: seq<nat>, n: nat)
    requires Stereo(chunks) && d != [] && Arrivals(d, |chunks|) && GainsTimeline(s, s', chunks, s0, d)
    requires |s'.pcm| == |s.pcm| + PAYLOAD_SIZE * n
    ensures n + d[0] == d[|d| - 1] + 1
  {
    LengthTells(s.pcm, chunks, d, d[0], d[|d| - 1] + 1, n);
  }

  /** In a capture that is the timeline the i-th arrival's samples are those of the slot they are in. */
  lemma OwnSlot(s: Capture, s': Capture, chunks: seq<Bytes>, s0: int, d: seq<nat>, i: nat, n: nat)
    requires Stereo(chunks) && d != [] && Arrivals(d, |chunks|) && !s.haveSeq && i < |d| && n == Length(d[..i + 1])
    requires s' == TakeAll(s, chunks, s0, d) && GainsTimeline(s, s', chunks, s0, d)
    ensures 0 < n && d[0] + n - 1 < |chunks|
    ensures Slot(chunks, d, d[0] + n - 1) == chunks[d[i]]
  {
    var at := |s.pcm| + PAYLOAD_SIZE * (n - 1);
    TimelineLength(s, s', chunks, s0, d);
    BlockOf(s, s', chunks, s0, d, i, d[..i + 1], n, at);
    SlotIn(s, s', chunks, s0, d, n, at);
  }

  lemma SlotIn(s: Capture, s': Capture, chunks: seq<Bytes>, s0: int, d: seq<nat>, n: nat, at: int)
    requires Stereo(chunks) && d != [] && Arrivals(d, |chunks|) && GainsTimeline(s, s', chunks, s0, d)
    requires 0 < n && n + d[0] <= d[|d| - 1] + 1 && at == |s.pcm| + PAYLOAD_SIZE * (n - 1)
    ensures d[0] + n - 1 < |chunks| && 0 <= at && at + PAYLOAD_SIZE <= |s'.pcm|
    ensures s'.pcm[at..at + PAYLOAD_SIZE] == Slot(chunks, d, d[0] + n - 1)
  {
    SlotAt(s.pcm, chunks, d, d[0], d[|d| - 1] + 1, d[0] + n - 1, at, s'.pcm);
  }

  lemma SlotAt(before: Bytes, chunks: seq<Bytes>, d: seq<nat>, lo: nat, hi: nat, k: nat, at: nat, pcm: Bytes)
    requires Stereo(chunks) && lo <= k < hi <= |chunks|
    requires at == |before| + PAYLOAD_SIZE * (k - lo) && pcm == before + Slots(chunks, d, lo, hi)
    ensures at + PAYLOAD_SIZE <= |pcm| && pcm[at..at + PAYLOAD_SIZE] == Slot(chunks, d, k)
  {
    SlotIsAt(chunks, d, lo, hi, k, at - |before|);
    SliceBehind(before, Slots(chunks, d, lo, hi), at - |before|);
  }

  lemma SliceBehind(front: Bytes, back: Bytes, at: nat)
    requires at + PAYLOAD_SIZE <= |back|
    ensures (front + back)[|front| + at..|front| + at + PAYLOAD_SIZE] == back[at..at + PAYLOAD_SIZE]
  {}

  /** So, where packets can be told apart, the i-th arrival sits in its own slot. */
  lemma IsItsSlot(s: Capture, s': Capture, chunks: seq<Bytes>, s0: int, d: seq<nat>, i: nat, n: nat)
    requires Stereo(chunks) && d != [] && Arrivals(d, |chunks|) && Telling(chunks, d) && !s.haveSeq
    requires i < |d| && n == Length(d[..i + 1])
    requires s' == TakeAll(s, chunks, s0, d) && GainsTimeline(s, s', chunks, s0, d)
    ensures d[i] == d[0] + n - 1
  {
    OwnSlot(s, s', chunks, s0, d, i, n);
    SlotTells(chunks, d, d[0] + n - 1, d[i]);
  }

  lemma InItsOrder(s: Capture, s': Capture, chunks: seq<Bytes>, s0: int, d: seq<nat>)
    requires Stereo(chunks) && d != [] && Arrivals(d, |chunks|) && Telling(chunks, d) && !s.haveSeq
    requires s' == TakeAll(s, chunks, s0, d) && GainsTimeline(s, s', chunks, s0, d)
    ensures InOrder(d)
  {
    forall i | 0 < i < |d|
      ensures d[i - 1] < d[i]
    {
      IsItsSlot(s, s', chunks, s0, d, i - 1, Length(d[..i]));
      IsItsSlot(s, s', chunks, s0, d, i, Length(d[..i + 1]));
      assert d[..i + 1][..i] == d[..i];
    }
  }

  /** With small gaps nothing makes up for the packet that a step backwards adds. */
  lemma AddedAtLeast(prev: nat, k: nat)
    requires k - prev <= GAP_LIMIT
    ensures Added(prev, k) >= k - prev
    ensures Added(prev, k) == k - prev <==> prev < k
  {}

  /** The length of a delivery with small gaps is that of its timeline exactly if it is in order. */
  lemma {:induction false} LengthTellsOrder(d: seq<nat>)
    requires d != [] && SmallGaps(d)
    ensures Length(d) + d[0] >= d[|d| - 1] + 1
    ensures Length(d) + d[0] == d[|d| - 1] + 1 <==> InOrder(d)
  {
    var front, last := d[..|d| - 1], d[|d| - 1];
    if front == [] {
    } else {
      LengthTellsOrder(front);
      AddedAtLeast(d[|d| - 2], last);
      InOrderFront(d);
    }
  }

  lemma InOrderFront(d: seq<nat>)
    requires |d| >= 2
    ensures InOrder(d) <==> InOrder(d[..|d| - 1]) && d[|d| - 2] < d[|d| - 1]
  {
    var front := d[..|d| - 1];
    if InOrder(front) && d[|d| - 2] < d[|d| - 1] {
      forall i | 0 < i < |d|
        ensures d[i - 1] < d[i]
      {
        if i < |front| {
          assert front[i - 1] < front[i];
        }
      }
    }
  }

  /**
   Any delivery at all, with losses, repetitions and any reordering: the capture gains the timeline exactly when the
   packets come in order with every gap below 512. Only where steps backwards and gaps of 512 or more both occur must
   the audio tell the packets delivered apart.
   */
  lemma TimelineIffInOrder(s: Capture, chunks: seq<Bytes>, s0: int, d: seq<nat>)
    requires Stereo(chunks) && d != [] && Arrivals(d, |chunks|) && !s.haveSeq
    requires SmallGaps(d) || InOrder(d) || Telling(chunks, d)
    ensures GainsTimeline(s, TakeAll(s, chunks, s0, d), chunks, s0, d) <==> InOrder(d) && SmallGaps(d)
  {
    if InOrder(d) && SmallGaps(d) {
      InOrderCapture(s, chunks, s0, d);
    }
    var s' := TakeAll(s, chunks, s0, d);
    if GainsTimeline(s, s', chunks, s0, d) {
      if SmallGaps(d) {
        TimelineLength(s, s', chunks, s0, d);
        LengthTellsOrder(d);
      } else {
        if !InOrder(d) {
          InItsOrder(s, s', chunks, s0, d);
        }
        TruthfulIffSmallGaps(s, chunks, s0, d);
        SlotsLength(chunks, d, d[0], d[|d| - 1] + 1);
      }
    }
  }

  /**
   Why the mixed case asks for that: packet 600 behind packet 0, then packet 2. The gap of 599 is not padded, and the
   three packets fill three slots; the middle one passes for packet 1 exactly if packet 600 is silent.
   */
  lemma SilentPacketPasses(s: Capture, chunks: seq<Bytes>, s0: int)
    requires Stereo(chunks) && |chunks| > 600 && !s.haveSeq
    ensures GainsTimeline(s, TakeAll(s, chunks, s0, [0, 600, 2]), chunks, s0, [0, 600, 2])
            <==> chunks[600] == Zeros(PAYLOAD_SIZE)
  {
    var d: seq<nat> := [0, 600, 2];
    ThreeArrivals(s, chunks, s0, d);
    ThreeSlots(chunks, d);
    SameMiddle(s.pcm, chunks[0], chunks[600], Zeros(PAYLOAD_SIZE), chunks[2]);
  }

  lemma ThreeArrivals(s: Capture, chunks: seq<Bytes>, s0: int, d: seq<nat>)
    requires Stereo(chunks) && |chunks| > 600 && !s.haveSeq && d == [0, 600, 2]
    ensures var s' := TakeAll(s, chunks, s0, d);
            && s'.pcm == s.pcm + chunks[0] + chunks[600] + chunks[2] && Expects(s', s0, 3)
            && s'.frames == s.frames + FRAMES_PER_PACKET * 3
  {
    assert d[..2] == [0, 600] && d[..2][..1] == [0];
    var a := Take(s, SeqAt(s0, 0), chunks[0]);
    FirstArrival(s, chunks[0], s0, 0);
    Unpadded(a, chunks[600], s0, 1, 600);
    Unpadded(Take(a, SeqAt(s0, 600), chunks[600]), chunks[2], s0, 601, 2);
    assert TakeAll(s, chunks, s0, d[..2][..1]) == a;
  }

  /** An arrival too far from the packet expected is only appended. */
  lemma Unpadded(s: Capture, samples: Bytes, s0: int, expected: int, k: int)
    requires Expects(s, s0, expected) && W16(k - expected) >= GAP_LIMIT
    ensures var s' := Take(s, SeqAt(s0, k), samples);
            Expects(s', s0, k + 1) && s'.pcm == s.pcm + samples && s'.frames == s.frames + |samples| / 4
  {
    Arrival(s, samples, s0, expected, k);
    assert s.pcm + Zeros(0) == s.pcm;
  }

  lemma ThreeSlots(chunks: seq<Bytes>, d: seq<nat>)
    requires |chunks| > 600 && d == [0, 600, 2]
    ensures Slots(chunks, d, 0, 3) == chunks[0] + Zeros(PAYLOAD_SIZE) + chunks[2]
  {
    assert 0 in d && 1 !in d && 2 in d;
    assert Slots(chunks, d, 0, 1) == chunks[0];
    assert Slots(chunks, d, 0, 2) == chunks[0] + Zeros(PAYLOAD_SIZE);
  }

  lemma SameMiddle(before: Bytes, a: Bytes, x: Bytes, y: Bytes, b: Bytes)
    requires |x| == |y|
    ensures before + a + x + b == before + (a + y + b) <==> x == y
  {
    var at := |before| + |a|;
    assert (before + a + x + b)[at..at + |x|] == x && (before + (a + y + b))[at..at + |x|] == y;
  }

  // ---- Late packets ----

  /**
   A late or duplicated packet (up to 65024 packets back) is not discarded: its samples are appended at the end of
   the capture and the receiver expects its successor next.
   */
  lemma LatePacketIsAppended(s: Capture, samples: Bytes, s0: int, expected: int, k: int)
    requires Expects(s, s0, expected)
    requires expected - 0x1_0000 + GAP_LIMIT <= k < expected
    ensures Take(s, SeqAt(s0, k), samples)
         == Capture(true, SeqAt(s0, k + 1), s.pcm + samples, s.frames + |samples| / 4, s.requests)
  {
    Arrival(s, samples, s0, expected, k);
    assert W16(k - expected) == k - expected + 0x1_0000;
    assert s.pcm + Zeros(0) == s.pcm;
  }

  function Range(lo: nat, hi: nat): seq<nat>
    requires lo <= hi
  {
    seq(hi - lo, i requires 0 <= i < hi - lo => lo + i)
  }

  /** A stretch of consecutive packets that starts with a late one is appended whole. */
  lemma {:induction false} LateStretch(s: Capture, chunks: seq<Bytes>, s0: int, expected: int, lo: nat, hi: nat)
    requires Stereo(chunks) && lo < hi <= |chunks| && Expects(s, s0, expected)
    requires expected - 0x1_0000 + GAP_LIMIT <= lo < expected
    ensures var s' := TakeAll(s, chunks, s0, Range(lo, hi));
            Expects(s', s0, hi) && |s'.pcm| == |s.pcm| + PAYLOAD_SIZE * (hi - lo) && s'.requests == s.requests
    decreases hi
  {
    assert Range(lo, hi)[..hi - lo - 1] == Range(lo, hi - 1);
    if lo == hi - 1 {
      assert Range(lo, hi - 1) == [];
      LatePacketIsAppended(s, chunks[lo], s0, expected, lo);
    } else {
      LateStretch(s, chunks, s0, expected, lo, hi - 1);
      PaddedArrival(TakeAll(s, chunks, s0, Range(lo, hi - 1)), chunks[hi - 1], s0, hi - 1, hi - 1);
    }
  }

  /** A single packet `gap` packets ahead of the one expected adds the gap and itself. */
  lemma Ahead(s: Capture, chunks: seq<Bytes>, s0: int, expected: int, k: nat)
    requires Stereo(chunks) && k < |chunks| && Expects(s, s0, expected)
    requires expected <= k < expected + GAP_LIMIT
    ensures var s' := TakeAll(s, chunks, s0, [k]);
            && Expects(s', s0, k + 1) && |s'.pcm| == |s.pcm| + PAYLOAD_SIZE * (k + 1 - expected)
            && |s'.requests| == |s.requests| + if k == expected then 0 else 1
  {
    PaddedArrival(s, chunks[k], s0, expected, k);
    assert TakeAll(s, chunks, s0, [k][..0]) == s;
  }

  /**
   Answering a gap spoils the capture. The receiver expects packet a; packet a + gap arrives, then the answer to the
   request this causes (the first min(gap, 128) packets of the gap), then the next packet: for every gap from 1 to
   511 the capture ends up longer than the timeline by gap + 1 packets.
   */
  lemma AnsweredGapOvershoots(s: Capture, chunks: seq<Bytes>, s0: int, a: nat, gap: nat)
    requires Stereo(chunks) && Expects(s, s0, a)
    requires 0 < gap < GAP_LIMIT && a + gap + 1 < |chunks|
    ensures var b := a + gap;
            var answered := TakeAll(TakeAll(s, chunks, s0, [b]), chunks, s0, Range(a, a + Min(gap, MAX_RETRANSMIT)));
            var s' := TakeAll(answered, chunks, s0, [b + 1]);
            |s'.pcm| == |s.pcm| + PAYLOAD_SIZE * (b + 2 - a) + PAYLOAD_SIZE * (gap + 1)
  {
    var b, m := a + gap, Min(gap, MAX_RETRANSMIT);
    GapThenAnswer(s, chunks, s0, a, gap, m);
    Ahead(TakeAll(TakeAll(s, chunks, s0, [b]), chunks, s0, Range(a, a + m)), chunks, s0, a + m, b + 1);
  }

  lemma GapThenAnswer(s: Capture, chunks: seq<Bytes>, s0: int, a: nat, gap: nat, m: nat)
    requires Stereo(chunks) && Expects(s, s0, a)
    requires 0 < m <= gap < GAP_LIMIT && a + gap < |chunks|
    ensures var s' := TakeAll(TakeAll(s, chunks, s0, [a + gap]), chunks, s0, Range(a, a + m));
            && Expects(s', s0, a + m) && |s'.pcm| == |s.pcm| + PAYLOAD_SIZE * (gap + 1 + m)
            && |s'.requests| == |s.requests| + 1
  {
    Ahead(s, chunks, s0, a, a + gap);
    LateStretch(TakeAll(s, chunks, s0, [a + gap]), chunks, s0, a + gap + 1, a, a + m);
  }

  // ---- A gap that is answered never closes ----

  /** The packets that the request for packets e up to p brings back. */
  function Answers(e: nat, p: nat): nat
    requires e <= p
  {
    Min(p - e, MAX_RETRANSMIT)
  }

  /** What the receiver expects after n rounds: packet p + i arrives in round i, and its gap is answered at once. */
  function ExpectedAfter(e: nat, p: nat, n: nat): (r: nat)
    requires e < p
    ensures e <= r < p + n
  {
    if n == 0 then e else
      var r := ExpectedAfter(e, p, n - 1);
      r + Answers(r, p + n - 1)
  }

  /** The deliveries of these rounds. */
  function Rounds(e: nat, p: nat, n: nat): seq<nat>
    requires e < p
  {
    if n == 0 then [] else
      var r := ExpectedAfter(e, p, n - 1);
      Rounds(e, p, n - 1) + [p + n - 1] + Range(r, r + Answers(r, p + n - 1))
  }

  lemma {:induction false} RoundsArrive(e: nat, p: nat, n: nat, total: nat)
    requires e < p && p + n <= total
    ensures Arrivals(Rounds(e, p, n), total)
  {
    if n == 0 {
    } else {
      RoundsArrive(e, p, n - 1, total);
    }
  }

  lemma {:induction false} TakeBoth(s: Capture, chunks: seq<Bytes>, s0: int, d: seq<nat>, more: seq<nat>)
    requires Arrivals(d, |chunks|) && Arrivals(more, |chunks|)
    ensures Arrivals(d + more, |chunks|)
    ensures TakeAll(s, chunks, s0, d + more) == TakeAll(TakeAll(s, chunks, s0, d), chunks, s0, more)
  {
    if more == [] {
      assert d + more == d;
    } else {
      TakeBoth(s, chunks, s0, d, more[..|more| - 1]);
      assert (d + more)[..|d + more| - 1] == d + more[..|more| - 1];
    }
  }

  lemma {:induction false} StillBehind(e: nat, p: nat, n: nat)
    requires e < p < e + GAP_LIMIT
    ensures p + n < ExpectedAfter(e, p, n) + GAP_LIMIT
    ensures p == e + 1 ==> ExpectedAfter(e, p, n) == e + n
  {
    if n == 0 {
    } else {
      StillBehind(e, p, n - 1);
    }
  }

  /** What n such rounds do: as many requests, at least three packets of capture each, exactly three for a gap of one. */
  predicate Echoed(s: Capture, s': Capture, n: nat, one: bool) {
    && |s'.requests| == |s.requests| + n
    && |s'.pcm| >= |s.pcm| + 3 * PAYLOAD_SIZE * n
    && (one ==> |s'.pcm| == |s.pcm| + 3 * PAYLOAD_SIZE * n)
  }

  /** The delivery d leaves the receiver expecting packet r after n such rounds. */
  predicate EchoedBy(s: Capture, chunks: seq<Bytes>, s0: int, d: seq<nat>, r: nat, n: nat, one: bool) {
    && Arrivals(d, |chunks|) && Expects(TakeAll(s, chunks, s0, d), s0, r)
    && Echoed(s, TakeAll(s, chunks, s0, d), n, one)
  }

  /**
   The receiver expects packet e, and packets p, p + 1, ... arrive, each request answered before the next packet. It
   never catches up: every packet meets a gap, asks again and is answered too late again, so that each adds at least
   three packets to the capture, for ever.
   */
  lemma AnsweredGapNeverCloses(s: Capture, chunks: seq<Bytes>, s0: int, e: nat, p: nat, n: nat)
    requires Stereo(chunks) && Expects(s, s0, e) && e < p < e + GAP_LIMIT && p + n <= |chunks|
    ensures EchoedBy(s, chunks, s0, Rounds(e, p, n), ExpectedAfter(e, p, n), n, p == e + 1)
  {
    ManyRounds(s, chunks, s0, e, p, n, Rounds(e, p, n), ExpectedAfter(e, p, n));
  }

  lemma {:induction false} ManyRounds(
    s: Capture, chunks: seq<Bytes>, s0: int, e: nat, p: nat, n: nat, d: seq<nat>, r: nat)
    requires Stereo(chunks) && Expects(s, s0, e) && e < p < e + GAP_LIMIT && p + n <= |chunks|
    requires d == Rounds(e, p, n) && r == ExpectedAfter(e, p, n)
    ensures EchoedBy(s, chunks, s0, d, r, n, p == e + 1)
  {
    if n == 0 {
    } else {
      var d1, r1 := Rounds(e, p, n - 1), ExpectedAfter(e, p, n - 1);
      ManyRounds(s, chunks, s0, e, p, n - 1, d1, r1);
      StillBehind(e, p, n - 1);
      OneRound(s, chunks, s0, d1, d, r1, p + n - 1, n, p == e + 1);
    }
  }

  lemma OneRound(s: Capture, chunks: seq<Bytes>, s0: int, before: seq<nat>, d: seq<nat>, e: nat, p: nat, n: nat, one: bool)
    requires Stereo(chunks) && e < p < e + GAP_LIMIT && p < |chunks|
    requires n > 0 && EchoedBy(s, chunks, s0, before, e, n - 1, one) && (one ==> p == e + 1)
    requires d == before + [p] + Range(e, e + Answers(e, p))
    ensures EchoedBy(s, chunks, s0, d, e + Answers(e, p), n, one)
  {
    var s1, answer := TakeAll(s, chunks, s0, before), Range(e, e + Answers(e, p));
    AnsweredOnce(s1, chunks, s0, e, p, answer);
    LastRound(s, chunks, s0, before, p, answer);
    OneMoreEcho(s, s1, TakeAll(TakeAll(s1, chunks, s0, [p]), chunks, s0, answer), n, one, p - e + 1 + Answers(e, p));
  }

  lemma AnsweredOnce(s: Capture, chunks: seq<Bytes>, s0: int, e: nat, p: nat, answer: seq<nat>)
    requires Stereo(chunks) && Expects(s, s0, e) && e < p < e + GAP_LIMIT && p < |chunks|
    requires answer == Range(e, e + Answers(e, p))
    ensures Arrivals(answer, |chunks|)
    ensures var s' := TakeAll(TakeAll(s, chunks, s0, [p]), chunks, s0, answer);
            && Expects(s', s0, e + Answers(e, p)) && |s'.requests| == |s.requests| + 1
            && |s'.pcm| == |s.pcm| + PAYLOAD_SIZE * (p - e + 1 + Answers(e, p))
  {
    GapThenAnswer(s, chunks, s0, e, p - e, Answers(e, p));
  }

  lemma OneMoreEcho(s: Capture, s1: Capture, s2: Capture, n: nat, one: bool, more: nat)
    requires n > 0 && Echoed(s, s1, n - 1, one) && more >= 3 && (one ==> more == 3)
    requires |s2.requests| == |s1.requests| + 1 && |s2.pcm| == |s1.pcm| + PAYLOAD_SIZE * more
    ensures Echoed(s, s2, n, one)
  {}

  lemma LastRound(s: Capture, chunks: seq<Bytes>, s0: int, before: seq<nat>, q: nat, answer: seq<nat>)
    requires Arrivals(before, |chunks|) && q < |chunks| && Arrivals(answer, |chunks|)
    ensures Arrivals(before + [q] + answer, |chunks|)
    ensures TakeAll(s, chunks, s0, before + [q] + answer)
         == TakeAll(TakeAll(TakeAll(s, chunks, s0, before), chunks, s0, [q]), chunks, s0, answer)
  {
    TakeBoth(s, chunks, s0, before, [q]);
    TakeBoth(s, chunks, s0, before + [q], answer);
  }

  // ---- Datagrams ----

  /** Stereo datagrams with consecutive numbers, as every run of the sender leaves them on the wire. */
  ghost predicate Numbered(sent: seq<Bytes>, s0: int) {
    forall k {:trigger sent[k]} :: 0 <= k < |sent| ==>
      |sent[k]| == HEADER_SIZE + PAYLOAD_SIZE && PacketType(sent[k]) == 0x60 && PacketSeq(sent[k]) == SeqAt(s0, k)
  }

  function Chunks(sent: seq<Bytes>): seq<Bytes>
    requires forall k :: 0 <= k < |sent| ==> |sent[k]| >= HEADER_SIZE
  {
    seq(|sent|, k requires 0 <= k < |sent| => Swapped(sent[k][HEADER_SIZE..]))
  }

  function Delivered(sent: seq<Bytes>, d: seq<nat>): seq<Bytes>
    requires Arrivals(d, |sent|)
  {
    seq(|d|, i requires 0 <= i < |d| => sent[d[i]])
  }

  /** The receiver's audio loop takes the decoded packets of the datagrams delivered. */
  lemma {:induction false} LoopTakes(s: Capture, sent: seq<Bytes>, s0: int, d: seq<nat>)
    requires Numbered(sent, s0) && Arrivals(d, |sent|)
    ensures Stereo(Chunks(sent))
    ensures ReceiveAll(s, Delivered(sent, d)) == TakeAll(s, Chunks(sent), s0, d)
  {
    if d == [] {
    } else {
      LoopTakes(s, sent, s0, d[..|d| - 1]);
      assert Delivered(sent, d)[..|d| - 1] == Delivered(sent, d[..|d| - 1]);
    }
  }
}
