/**
 Sender and receiver together: what a sender in any state it can reach has put on the wire, what it can retransmit,
 and what the receiver makes of any part of it.
 */
module EndToEnd {
  import opened Words
  import opened Protocol
  import opened StreamMachine
  import opened PcmSource
  import opened Sender
  import opened Retransmission
  import opened Receiver
  import opened Timeline
  import opened Answers

  /** What a sender's invariant says about its audio socket. */
  lemma OnTheWire(s: RaopSender)
    requires s.Valid()
    ensures |s.audioOut| == |s.core.wire|
    ensures forall k {:trigger s.audioOut[k]} {:trigger s.core.wire[k]} :: 0 <= k < |s.audioOut| ==>
              s.audioOut[k] == Encode(s.core.wire[k], s.ssrc) && |s.core.wire[k].payload| == s.format.PacketSize()
  {
    assert Open(TheObject) && Open(TheFields) && Open(TheWire);
    assert forall k :: 0 <= k < |s.core.wire| ==> Encode(s.core.wire[k], s.ssrc) == s.audioOut[k];
  }

  lemma RunOf(s: RaopSender)
    requires s.Valid()
    ensures Fresh(s.origin) && Legal(s.origin, s.trace) && Run(s.origin, s.trace) == s.core
  {
    assert Open(TheObject);
    Pacing.RunBehind(s.origin, s.trace, s.core);
  }

  /** A sender that re-bases its pacing in time never has more packets on the wire than its clock allows. */
  lemma SenderKeepsPace(s: RaopSender)
    requires s.Valid() && Pacing.AtMost(s.trace, Pacing.MAX_PACKETS)
    ensures |s.audioOut| == |s.core.wire| && Pacing.KeepsPace(s.core, s.trace)
  {
    OnTheWire(s);
    assert Open(TheObject);
    Pacing.RunBehind(s.origin, s.trace, s.core);
    Pacing.NeverAhead(s.origin, s.trace);
  }

  /** The k-th datagram of a sender is an audio packet with number s0 + k and the payload that was built for it. */
  lemma DatagramOf(s: RaopSender, k: nat)
    requires s.Valid() && k < |s.audioOut|
    ensures |s.audioOut| == |s.core.wire|
    ensures var d := s.audioOut[k];
            && |d| == HEADER_SIZE + s.format.PacketSize() && PacketType(d) == 0x60
            && PacketSeq(d) == SeqAt(s.origin.seqno, k) && PacketTimestamp(d) == s.core.wire[k].timestamp
            && d[HEADER_SIZE..] == s.core.wire[k].payload
  {
    OnTheWire(s);
    RunOf(s);
    WireContents(s.origin, s.trace);
    DatagramFields(s.core.wire[k], s.ssrc);
  }

  ghost predicate IsStereo(s: RaopSender) { s.format.Valid() && s.format.channels == 2 }

  lemma SentIsNumbered(s: RaopSender)
    requires s.Valid() && IsStereo(s)
    ensures Numbered(s.audioOut, s.origin.seqno)
  {
    forall k | 0 <= k < |s.audioOut|
      ensures |s.audioOut[k]| == HEADER_SIZE + PAYLOAD_SIZE && PacketType(s.audioOut[k]) == 0x60
      ensures PacketSeq(s.audioOut[k]) == SeqAt(s.origin.seqno, k)
    {
      DatagramOf(s, k);
    }
  }

  /**
   End to end, at any moment of any run: a receiver that gets any of the packets sent, in any order and any number of
   times, gains the timeline from the first to the last packet it got if they came in order with every gap below 512;
   and only if they did, whatever the audio, except where steps backwards and gaps of 512 or more both occur: there the
   audio of the packets that arrived must tell them apart.
   */
  lemma CaptureOfAnyDelivery(s: RaopSender, r: Capture, d: seq<nat>)
    requires s.Valid() && IsStereo(s) && d != [] && Arrivals(d, |s.audioOut|) && !r.haveSeq
    ensures Numbered(s.audioOut, s.origin.seqno)
    ensures var r' := ReceiveAll(r, Delivered(s.audioOut, d)); var chunks := Chunks(s.audioOut);
            SmallGaps(d) || InOrder(d) || Telling(chunks, d) ==>
              (GainsTimeline(r, r', chunks, s.origin.seqno, d) <==> InOrder(d) && SmallGaps(d))
  {
    SentIsNumbered(s);
    LoopTakes(r, s.audioOut, s.origin.seqno, d);
    if SmallGaps(d) || InOrder(d) || Telling(Chunks(s.audioOut), d) {
      TimelineIffInOrder(r, Chunks(s.audioOut), s.origin.seqno, d);
    }
  }

  ghost predicate AllWhole(wire: seq<Packet>) {
    forall k :: 0 <= k < |wire| ==> |wire[k].payload| == PAYLOAD_SIZE
  }

  // ---- Nothing lost ----

  lemma SwapConcat(a: Bytes, b: Bytes)
    requires |a| % 2 == 0 && |b| % 2 == 0
    ensures Swapped(a + b) == Swapped(a) + Swapped(b)
  {}

  lemma {:induction false} AllSlots(wire: seq<Packet>, chunks: seq<Bytes>, d: seq<nat>, n: nat)
    requires n <= |wire| == |chunks| && AllWhole(wire)
    requires forall k :: 0 <= k < |wire| ==> chunks[k] == Swapped(wire[k].payload)
    requires forall k :: 0 <= k < n ==> k in d
    ensures |Audio(wire[..n])| % 2 == 0
    ensures Slots(chunks, d, 0, n) == Swapped(Audio(wire[..n]))
  {
    if n == 0 {
    } else {
      AllSlots(wire, chunks, d, n - 1);
      assert wire[..n][..n - 1] == wire[..n - 1];
      SwapConcat(Audio(wire[..n - 1]), wire[n - 1].payload);
    }
  }

  lemma FullCapture(r: Capture, sent: seq<Bytes>, s0: int)
    requires Numbered(sent, s0) && sent != [] && !r.haveSeq
    ensures ReceiveAll(r, sent).pcm == r.pcm + Slots(Chunks(sent), Range(0, |sent|), 0, |sent|)
  {
    var d := Range(0, |sent|);
    AllInOrder(|sent|);
    assert Delivered(sent, d) == sent;
    LoopTakes(r, sent, s0, d);
    InOrderCapture(r, Chunks(sent), s0, d);
  }

  lemma AllInOrder(n: nat)
    requires n > 0
    ensures var d := Range(0, n); Arrivals(d, n) && InOrder(d) && SmallGaps(d) && d[0] == 0 && d[|d| - 1] == n - 1
  {}

  lemma FullTimeline(sent: seq<Bytes>, wire: seq<Packet>)
    requires |sent| == |wire| && AllWhole(wire)
    requires forall k :: 0 <= k < |sent| ==> |sent[k]| >= HEADER_SIZE && sent[k][HEADER_SIZE..] == wire[k].payload
    ensures Slots(Chunks(sent), Range(0, |sent|), 0, |sent|) == Swapped(Audio(wire))
  {
    var n := |wire|;
    var d := Range(0, n);
    assert wire[..n] == wire;
    forall k | 0 <= k < n
      ensures k in d
    {
      assert d[k] == k;
    }
    AllSlots(wire, Chunks(sent), d, n);
  }

  /**
   When every packet arrives in order, the receiver's capture is the sender's whole payload stream, sample for
   sample, with the byte order turned.
   */
  lemma LosslessCapture(s: RaopSender, r: Capture)
    requires s.Valid() && IsStereo(s) && s.core.wire != [] && !r.haveSeq
    ensures ReceiveAll(r, s.audioOut).pcm == r.pcm + Swapped(Audio(s.core.wire))
  {
    PayloadsSent(s);
    SentIsNumbered(s);
    FullCapture(r, s.audioOut, s.origin.seqno);
    FullTimeline(s.audioOut, s.core.wire);
  }

  lemma PayloadsSent(s: RaopSender)
    requires s.Valid() && IsStereo(s)
    ensures |s.audioOut| == |s.core.wire| && AllWhole(s.core.wire)
    ensures forall k :: 0 <= k < |s.audioOut| ==>
              |s.audioOut[k]| >= HEADER_SIZE && s.audioOut[k][HEADER_SIZE..] == s.core.wire[k].payload
  {
    OnTheWire(s);
    forall k | 0 <= k < |s.audioOut|
      ensures |s.audioOut[k]| >= HEADER_SIZE && s.audioOut[k][HEADER_SIZE..] == s.core.wire[k].payload
    {
      DatagramOf(s, k);
    }
  }

  lemma {:induction false} SilentTailAudio(before: seq<Packet>, after: seq<Packet>, tail: nat, packetSize: nat)
    requires SilentTail(before, after, tail, packetSize)
    ensures Audio(after) == Audio(before) + Zeros(tail * packetSize)
    decreases tail
  {
    if tail == 0 {
      assert after == before;
    } else {
      var front := after[..|after| - 1];
      assert front[..|before|] == after[..|before|];
      SilentTailAudio(before, front, tail - 1, packetSize);
      assert tail * packetSize == (tail - 1) * packetSize + packetSize;
      assert Zeros((tail - 1) * packetSize) + Zeros(packetSize) == Zeros(tail * packetSize);
    }
  }

  /** What a stream that came to its end has put on the wire: the source, less than a packet of zeros, the drain. */
  lemma WholeStream(wire: seq<Packet>, audio: nat, source: Bytes, packetSize: nat) returns (padding: nat)
    requires audio <= |wire| && Carries(wire[..audio], source, packetSize)
    requires SilentTail(wire[..audio], wire, DRAIN_PACKETS, packetSize)
    ensures padding < packetSize && Audio(wire) == source + Zeros(padding + DRAIN_PACKETS * packetSize)
  {
    SilentTailAudio(wire[..audio], wire, DRAIN_PACKETS, packetSize);
    padding := |Audio(wire[..audio])| - |source|;
    assert Zeros(padding) + Zeros(DRAIN_PACKETS * packetSize) == Zeros(padding + DRAIN_PACKETS * packetSize);
  }

  /**
   Every sample of the source, read high byte first, is the sample at the same place of the capture, read low byte
   first; behind the source there is silence. (Half a sample at the end of the source becomes one with a zero low byte.)
   */
  ghost predicate SoundsLike(source: Bytes, capture: Bytes) {
    && |capture| >= |source| && |capture| % 2 == 0
    && (forall i: nat {:trigger SampleBE(source, i)} :: 2 * i + 1 < |source| ==>
          SampleLE(capture, i) == SampleBE(source, i))
    && (forall i: nat {:trigger SampleLE(capture, i)} :: |source| <= 2 * i && 2 * i + 1 < |capture| ==>
          SampleLE(capture, i) == 0)
  }

  lemma SwappedSounds(source: Bytes, silence: nat)
    requires (|source| + silence) % 2 == 0
    ensures SoundsLike(source, Swapped(source + Zeros(silence)))
  {
    var all := source + Zeros(silence);
    forall i: nat | 2 * i + 1 < |all|
      ensures SampleLE(Swapped(all), i) == SampleBE(all, i)
    {
      SampleIsKept(all, i);
    }
  }

  /** The receiver's audio loop over a whole delivery. */
  method Feed(session: Session, datagrams: seq<Bytes>)
    modifies session
    ensures session.State() == ReceiveAll(old(session.State()), datagrams)
  {
    for i := 0 to |datagrams|
      invariant session.State() == ReceiveAll(old(session.State()), datagrams[..i])
    {
      assert datagrams[..i + 1][..i] == datagrams[..i];
      session.HandleDatagram(datagrams[i]);
    }
    assert datagrams[..|datagrams|] == datagrams;
  }

  /**
   From the source to the capture, in one: a stereo sender streams a source to its end, whatever other goroutines do
   meanwhile, and every datagram reaches the receiver. The capture gains the source's bytes, each sample turned
   round, then less than one packet of silence, then exactly 188 packets of it.
   */
  method StreamIntoCapture(s: RaopSender, r: Source, session: Session) returns (outcome: Outcome, ghost padding: nat)
    requires s.Valid() && IsStereo(s) && s.core.phase == Idle && s.core.wire == [] && !s.core.draining
    requires !session.haveSeq
    modifies s, s.backlog, r, session
    ensures outcome == Finished(true) && !r.cut ==>
              && padding < PAYLOAD_SIZE
              && session.pcm == old(session.pcm)
                                + Swapped(old(r.rest) + Zeros(padding + DRAIN_PACKETS * PAYLOAD_SIZE))
              && SoundsLike(old(r.rest), session.pcm[|old(session.pcm)|..])
  {
    padding := 0;
    ghost var before := session.State();
    ghost var consumed, audio, tail;
    outcome, consumed, audio, tail := s.Stream(r);
    Feed(session, s.audioOut);
    if outcome == Finished(true) && !r.cut {
      padding := WholeCapture(s, before, session.State(), old(r.rest), audio);
    }
  }

  lemma WholeCapture(s: RaopSender, before: Capture, after: Capture, source: Bytes, audio: nat) returns (padding: nat)
    requires s.Valid() && IsStereo(s) && !before.haveSeq && after == ReceiveAll(before, s.audioOut)
    requires audio <= |s.core.wire| && Carries(s.core.wire[..audio], source, PAYLOAD_SIZE)
    requires SilentTail(s.core.wire[..audio], s.core.wire, DRAIN_PACKETS, PAYLOAD_SIZE)
    ensures padding < PAYLOAD_SIZE
    ensures after.pcm == before.pcm + Swapped(source + Zeros(padding + DRAIN_PACKETS * PAYLOAD_SIZE))
    ensures SoundsLike(source, after.pcm[|before.pcm|..])
  {
    padding := WholeStream(s.core.wire, audio, source, PAYLOAD_SIZE);
    LosslessCapture(s, before);
    PayloadsSent(s);
    AudioIsEven(s.core.wire);
    SwappedSounds(source, padding + DRAIN_PACKETS * PAYLOAD_SIZE);
    Behind(before.pcm, Swapped(source + Zeros(padding + DRAIN_PACKETS * PAYLOAD_SIZE)));
  }

  lemma Behind(a: Bytes, b: Bytes)
    ensures (a + b)[|a|..] == b
  {}

  lemma {:induction false} AudioIsEven(wire: seq<Packet>)
    requires AllWhole(wire)
    ensures |Audio(wire)| % 2 == 0
  {
    if wire == [] {
    } else {
      AudioIsEven(wire[..|wire| - 1]);
    }
  }

  // ---- Retransmission ----

  /** The window of what the sender can still retransmit: [lo, hi) of what it sent. */
  ghost function WindowEnd(s: RaopSender): nat
    reads s
  {
    Keeps(s.trace)
  }

  ghost function WindowStart(s: RaopSender): int
    reads s
  {
    Keeps(s.trace) - Min(Keeps(s.trace), BACKLOG_SIZE)
  }

  /** In every state the backlog holds, byte for byte, the last min(1000, n) datagrams that were remembered. */
  lemma BacklogHoldsWhatWasSent(s: RaopSender)
    requires s.Valid()
    ensures KeptWindow(s.backlog.kept, s.origin.seqno, WindowStart(s), WindowEnd(s), s.audioOut)
    ensures !s.core.draining && s.core.phase != Sent ==> WindowEnd(s) == |s.audioOut|
  {
    RunOf(s);
    OnTheWire(s);
    BacklogIsWindow(s.origin, s.trace);
    assert Open(TheObject) && Open(TheFields) && Open(TheBacklog);
    var c, s0, hi, lo := s.core, s.origin.seqno, WindowEnd(s), WindowStart(s);
    forall x | hi - 0x1_0000 <= x < lo + 0x1_0000
      ensures SeqAt(s0, x) in s.backlog.kept <==> lo <= x < hi
      ensures lo <= x < hi ==> s.backlog.kept[SeqAt(s0, x)] == s.audioOut[x]
    {
      WindowNumbers(c.backlog, c.backlogQ, s0, hi, c.wire, x);
      if lo <= x < hi {
        assert s.audioOut[x] == Encode(c.wire[x], s.ssrc);
        assert s.backlog.kept[SeqAt(s0, x)] == Encode(c.backlog[SeqAt(s0, x)], s.ssrc);
      }
    }
    KeptSizes(s);
  }

  lemma KeptSizes(s: RaopSender)
    requires s.Valid()
    ensures forall k <- s.backlog.kept :: |s.backlog.kept[k]| >= 4
  {
    assert Open(TheObject) && Open(TheFields) && Open(TheBacklog);
    forall k <- s.backlog.kept
      ensures |s.backlog.kept[k]| >= 4
    {
      DatagramFields(s.core.backlog[k], s.ssrc);
    }
  }

  /** Any request at all: the answer, stripped, is the part of the stretch asked for that is still in the window. */
  lemma AnyRequestAnswered(s: RaopSender, seqno: u16, count: u16)
    requires s.Valid()
    ensures forall k <- s.backlog.kept :: |s.backlog.kept[k]| >= 4
    ensures var lo, hi := WindowStart(s), WindowEnd(s);
            var x := LatestIndex(s.origin.seqno, hi, seqno);
            var replies := Answer(s.backlog.kept, RequestBytes(seqno, count));
            && 0 <= lo <= hi <= |s.audioOut|
            && (forall r <- replies :: |r| >= 4)
            && Stripped(replies) == Overlap(s.audioOut, lo, hi, x, x + Min(count, MAX_RETRANSMIT))
  {
    BacklogHoldsWhatWasSent(s);
    RequestFields(seqno, count);
    RepliesAreThePackets(s.backlog.kept, s.origin.seqno, WindowStart(s), WindowEnd(s), s.audioOut, seqno,
                         Min(count, MAX_RETRANSMIT));
  }

  /**
   A gap and its answer: the receiver, expecting packet a, gets packet a + gap instead. The request it sends brings back
   exactly those of the first min(gap, 128) missing datagrams that the sender remembers: all of them while they
   are in the window, none of a gap in the drain, whose packets are never remembered. (Packet a is recent enough for its
   number to mean no other.)
   */
  lemma GapRequestBringsMissingPackets(s: RaopSender, r: Capture, a: nat, gap: nat)
    requires s.Valid() && IsStereo(s)
    requires 0 < gap < GAP_LIMIT && a + gap < |s.audioOut| && Expects(r, s.origin.seqno, a)
    requires WindowEnd(s) - 0x1_0000 <= a && a + MAX_RETRANSMIT <= WindowStart(s) + 0x1_0000
    ensures WindowEnd(s) <= |s.audioOut|
    ensures forall k <- s.backlog.kept :: |s.backlog.kept[k]| >= 4
    ensures ReceiveDatagram(r, s.audioOut[a + gap]).requests
         == r.requests + [RequestBytes(SeqAt(s.origin.seqno, a), gap)]
    ensures var replies := Answer(s.backlog.kept, RequestBytes(SeqAt(s.origin.seqno, a), gap));
            && (forall p <- replies :: |p| >= 4)
            && Stripped(replies)
            == Overlap(s.audioOut, WindowStart(s), WindowEnd(s), a, a + Min(gap, MAX_RETRANSMIT))
  {
    MissingStretch(s, a, gap);
    SentIsNumbered(s);
    GapRequest(r, s.audioOut[a + gap], s.origin.seqno, a, gap);
  }

  lemma MissingStretch(s: RaopSender, a: nat, gap: nat)
    requires s.Valid() && 0 < gap < GAP_LIMIT
    requires WindowEnd(s) - 0x1_0000 <= a && a + MAX_RETRANSMIT <= WindowStart(s) + 0x1_0000
    ensures 0 <= WindowStart(s) <= WindowEnd(s) <= |s.audioOut|
    ensures forall k <- s.backlog.kept :: |s.backlog.kept[k]| >= 4
    ensures var replies := Answer(s.backlog.kept, RequestBytes(SeqAt(s.origin.seqno, a), gap));
            && (forall p <- replies :: |p| >= 4)
            && Stripped(replies)
            == Overlap(s.audioOut, WindowStart(s), WindowEnd(s), a, a + Min(gap, MAX_RETRANSMIT))
  {
    AnyRequestAnswered(s, SeqAt(s.origin.seqno, a), gap);
    StretchAskedFor(s.audioOut, WindowStart(s), WindowEnd(s), s.origin.seqno, a, Min(gap, MAX_RETRANSMIT));
  }

  /** The packets from..to that a request for m packets from a on brings back. */
  ghost predicate BroughtBack(s: RaopSender, a: nat, m: nat, from: nat, to: nat)
    reads s
  {
    && from <= to
    && (from < to ==> from == (if WindowStart(s) < a then a else WindowStart(s)) && to == Min(WindowEnd(s), a + m))
    && (WindowStart(s) <= a && a + m <= WindowEnd(s) ==> from == a && to == a + m)
  }

  /** The datagrams of an answer: those of the packets asked for that are in the window, each behind its prefix. */
  lemma AnswerIsResent(s: RaopSender, a: nat, gap: nat) returns (from: nat, to: nat)
    requires s.Valid() && IsStereo(s) && 0 < gap < GAP_LIMIT
    requires WindowEnd(s) - 0x1_0000 <= a && a + MAX_RETRANSMIT <= WindowStart(s) + 0x1_0000
    ensures BroughtBack(s, a, Min(gap, MAX_RETRANSMIT), from, to) && to <= |s.audioOut|
    ensures Numbered(s.audioOut, s.origin.seqno) && forall k <- s.backlog.kept :: |s.backlog.kept[k]| >= 4
    ensures Answer(s.backlog.kept, RequestBytes(SeqAt(s.origin.seqno, a), gap)) == Resent(s.audioOut, from, to)
  {
    SentIsNumbered(s);
    var packets := AnswerIsPrefixed(s, a, gap);
    from, to := CommonIsResent(s.audioOut, WindowStart(s), WindowEnd(s), a, Min(gap, MAX_RETRANSMIT), packets);
  }

  lemma AnswerIsPrefixed(s: RaopSender, a: nat, gap: nat) returns (packets: seq<Bytes>)
    requires s.Valid() && 0 < gap < GAP_LIMIT
    requires WindowEnd(s) - 0x1_0000 <= a && a + MAX_RETRANSMIT <= WindowStart(s) + 0x1_0000
    ensures 0 <= WindowStart(s) <= WindowEnd(s) <= |s.audioOut|
    ensures forall k <- s.backlog.kept :: |s.backlog.kept[k]| >= 4
    ensures packets == Overlap(s.audioOut, WindowStart(s), WindowEnd(s), a, a + Min(gap, MAX_RETRANSMIT))
    ensures forall p <- packets :: |p| >= 4
    ensures Answer(s.backlog.kept, RequestBytes(SeqAt(s.origin.seqno, a), gap)) == Prefixed(packets)
  {
    MissingStretch(s, a, gap);
    packets := Overlap(s.audioOut, WindowStart(s), WindowEnd(s), a, a + Min(gap, MAX_RETRANSMIT));
    AnswerOf(s.backlog.kept, RequestBytes(SeqAt(s.origin.seqno, a), gap), packets);
  }

  lemma CommonIsResent(sent: seq<Bytes>, lo: nat, hi: nat, a: nat, m: nat, packets: seq<Bytes>)
    returns (from: nat, to: nat)
    requires lo <= hi <= |sent| && m > 0 && forall k :: 0 <= k < |sent| ==> |sent[k]| >= 4
    requires packets == Overlap(sent, lo, hi, a, a + m)
    ensures from <= to <= |sent|
    ensures from < to ==> from == (if lo < a then a else lo) && to == Min(hi, a + m)
    ensures lo <= a && a + m <= hi ==> from == a && to == a + m
    ensures forall p <- packets :: |p| >= 4
    ensures Prefixed(packets) == Resent(sent, from, to)
  {
    OverlapIsCommon(sent, lo, hi, a, a + m);
    from, to := if lo < a then a else lo, Min(hi, a + m);
    if from < to {
      ResentIsPrefixed(sent, from, to);
    } else {
      from, to := 0, 0;
      assert packets == [];
    }
  }

  lemma AnswerOf(kept: map<u16, Bytes>, request: Bytes, packets: seq<Bytes>)
    requires forall k <- kept :: |kept[k]| >= 4
    requires forall r <- Answer(kept, request) :: |r| >= 4
    requires Stripped(Answer(kept, request)) == packets
    ensures (forall p <- packets :: |p| >= 4) && Answer(kept, request) == Prefixed(packets)
  {
    if |request| >= 8 && PacketType(request) == 0x55 {
      AnswersAreReplies(kept, GetBE16(request, 4), Min(GetBE16(request, 6), MAX_RETRANSMIT));
    }
    AnswersArePrefixed(Answer(kept, request));
  }

  /** What the receiver makes of an answer: the packets it brings back are taken, in their order. */
  lemma AnswerIsTaken(s: RaopSender, r: Capture, a: nat, gap: nat) returns (from: nat, to: nat)
    requires s.Valid() && IsStereo(s) && 0 < gap < GAP_LIMIT
    requires WindowEnd(s) - 0x1_0000 <= a && a + MAX_RETRANSMIT <= WindowStart(s) + 0x1_0000
    ensures BroughtBack(s, a, Min(gap, MAX_RETRANSMIT), from, to) && to <= |s.audioOut|
    ensures Numbered(s.audioOut, s.origin.seqno) && forall k <- s.backlog.kept :: |s.backlog.kept[k]| >= 4
    ensures ReceiveAll(r, Answer(s.backlog.kept, RequestBytes(SeqAt(s.origin.seqno, a), gap)))
         == TakeAll(r, Chunks(s.audioOut), s.origin.seqno, Range(from, to))
  {
    from, to := AnswerIsResent(s, a, gap);
    AnswerActs(s.audioOut, s.origin.seqno, from, to);
    Acts(r, Resent(s.audioOut, from, to), Chunks(s.audioOut), s.origin.seqno, Range(from, to));
  }

  /**
   Why a retransmission spoils the capture: the receiver expects packet a and gets packet a + gap, the sender's answer to
   the request this causes, and the next packet. Its capture ends up longer than the timeline by gap + 1 packets.
   */
  lemma AnsweringSpoils(s: RaopSender, r: Capture, a: nat, gap: nat)
    requires s.Valid() && IsStereo(s) && Expects(r, s.origin.seqno, a)
    requires 0 < gap < GAP_LIMIT && a + gap + 1 < |s.audioOut|
    requires WindowStart(s) <= a && a + Min(gap, MAX_RETRANSMIT) <= WindowEnd(s)
    ensures forall k <- s.backlog.kept :: |s.backlog.kept[k]| >= 4
    ensures var asked := ReceiveDatagram(r, s.audioOut[a + gap]);
            && |asked.requests| == |r.requests| + 1
            && var answer := Answer(s.backlog.kept, asked.requests[|r.requests|]);
            |ReceiveAll(r, [s.audioOut[a + gap]] + answer + [s.audioOut[a + gap + 1]]).pcm|
            == |r.pcm| + PAYLOAD_SIZE * (gap + 2) + PAYLOAD_SIZE * (gap + 1)
  {
    WindowIsShort(s);
    var from, to := AnswerIsResent(s, a, gap);
    GapRequest(r, s.audioOut[a + gap], s.origin.seqno, a, gap);
    AnswerOvershoots(r, s.audioOut, s.origin.seqno, a, gap,
                     [s.audioOut[a + gap]] + Resent(s.audioOut, a, a + Min(gap, MAX_RETRANSMIT)) + [s.audioOut[a + gap + 1]]);
  }

  lemma WindowIsShort(s: RaopSender)
    ensures WindowEnd(s) - BACKLOG_SIZE <= WindowStart(s) <= WindowEnd(s)
  {}

  /** The number of packet a stands for packet a, or, when packet a was never remembered, for none. */
  lemma StretchAskedFor(sent: seq<Bytes>, lo: int, hi: int, s0: int, a: nat, count: nat)
    requires 0 <= lo <= hi <= |sent| && count <= MAX_RETRANSMIT
    requires hi - 0x1_0000 <= a && a + MAX_RETRANSMIT <= lo + 0x1_0000
    ensures var x := LatestIndex(s0, hi, SeqAt(s0, a));
            Overlap(sent, lo, hi, x, x + count) == Overlap(sent, lo, hi, a, a + count)
  {
    LatestIndexOf(s0, hi, a);
    if a >= hi {
      OverlapIsCommon(sent, lo, hi, a - 0x1_0000, a - 0x1_0000 + count);
      OverlapIsCommon(sent, lo, hi, a, a + count);
    }
  }

  /** A packet `gap` ahead of the one expected makes the receiver ask for exactly the gap. */
  lemma GapRequest(r: Capture, p: Bytes, s0: int, a: nat, gap: nat)
    requires |p| >= HEADER_SIZE && PacketType(p) == 0x60 && PacketSeq(p) == SeqAt(s0, a + gap)
    requires 0 < gap < GAP_LIMIT && Expects(r, s0, a)
    ensures ReceiveDatagram(r, p).requests == r.requests + [RequestBytes(SeqAt(s0, a), gap)]
  {
    Arrival(r, Swapped(p[HEADER_SIZE..]), s0, a, a + gap);
  }

  lemma LatestIndexOf(s0: int, hi: int, a: int)
    requires hi - 0x1_0000 <= a < hi + 0x1_0000
    ensures LatestIndex(s0, hi, SeqAt(s0, a)) == if a < hi then a else a - 0x1_0000
  {
    var x := if a < hi then a else a - 0x1_0000;
    LatestIndexNumber(s0, hi, SeqAt(s0, a));
    Distinct16(s0 + LatestIndex(s0, hi, SeqAt(s0, a)), s0 + x);
    WrapSum16(s0 + x, a - x);
  }
}
