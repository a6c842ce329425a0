/**
 Retransmitted datagrams at the receiver (cmd/mockreceiver/main.go:646-655, 758-761): an answer acts as the packets it
 carries, which turns what Timeline says of deliveries into what happens when requests are answered.
 */
module Answers {
  import opened Words
  import opened Protocol
  import opened Receiver
  import opened Timeline

  /** Asks what a delivery does to a capture. */
  ghost predicate Fed(s: Capture) { true }

  /** The datagrams do to any capture what the delivery of the packets d does. */
  ghost predicate ActsAs(datagrams: seq<Bytes>, chunks: seq<Bytes>, s0: int, d: seq<nat>) {
    forall s {:trigger Fed(s)} :: Fed(s) ==>
      Arrivals(d, |chunks|) && ReceiveAll(s, datagrams) == TakeAll(s, chunks, s0, d)
  }

  lemma Acts(s: Capture, datagrams: seq<Bytes>, chunks: seq<Bytes>, s0: int, d: seq<nat>)
    requires ActsAs(datagrams, chunks, s0, d)
    ensures Arrivals(d, |chunks|) && ReceiveAll(s, datagrams) == TakeAll(s, chunks, s0, d)
  {
    assert Fed(s);
  }

  lemma ActBoth(all: seq<Bytes>, a: seq<Bytes>, b: seq<Bytes>, chunks: seq<Bytes>, s0: int,
                d: seq<nat>, d1: seq<nat>, d2: seq<nat>)
    requires ActsAs(a, chunks, s0, d1) && ActsAs(b, chunks, s0, d2) && all == a + b && d == d1 + d2
    ensures ActsAs(all, chunks, s0, d)
  {
    forall s: Capture | Fed(s)
      ensures Arrivals(d, |chunks|) && ReceiveAll(s, all) == TakeAll(s, chunks, s0, d)
    {
      Acts(s, a, chunks, s0, d1);
      Acts(ReceiveAll(s, a), b, chunks, s0, d2);
      ReceiveBoth(s, a, b);
      TakeBoth(s, chunks, s0, d1, d2);
    }
  }

  lemma PacketActs(sent: seq<Bytes>, s0: int, k: nat)
    requires Numbered(sent, s0) && k < |sent|
    ensures ActsAs([sent[k]], Chunks(sent), s0, [k])
  {
    forall s: Capture | Fed(s)
      ensures ReceiveAll(s, [sent[k]]) == TakeAll(s, Chunks(sent), s0, [k])
    {
      assert Delivered(sent, [k]) == [sent[k]];
      LoopTakes(s, sent, s0, [k]);
    }
  }

  lemma OneDatagram(s: Capture, datagram: Bytes)
    ensures ReceiveAll(s, [datagram]) == ReceiveDatagram(s, datagram)
  {
    assert [datagram][..|[datagram]| - 1] == [];
  }

  /** A retransmit reply acts as the packet it carries. */
  lemma ReplyActs(sent: seq<Bytes>, s0: int, k: nat)
    requires Numbered(sent, s0) && k < |sent|
    ensures ActsAs([ReplyBytes(sent[k])], Chunks(sent), s0, [k])
  {
    PacketActs(sent, s0, k);
    forall s: Capture | Fed(s)
      ensures ReceiveAll(s, [ReplyBytes(sent[k])]) == TakeAll(s, Chunks(sent), s0, [k])
    {
      Acts(s, [sent[k]], Chunks(sent), s0, [k]);
      ReplyActsAsPacket(s, sent[k]);
      OneDatagram(s, ReplyBytes(sent[k]));
      OneDatagram(s, sent[k]);
    }
  }

  lemma NothingActs(chunks: seq<Bytes>, s0: int)
    ensures ActsAs([], chunks, s0, [])
  {}

  /** The packets a to b as the sender sends them again. */
  function Resent(sent: seq<Bytes>, a: nat, b: nat): seq<Bytes>
    requires a <= b <= |sent| && forall k :: 0 <= k < |sent| ==> |sent[k]| >= 4
    decreases b
  {
    if a == b then [] else Resent(sent, a, b - 1) + [ReplyBytes(sent[b - 1])]
  }

  lemma {:induction false} ResentIsPrefixed(sent: seq<Bytes>, a: nat, b: nat)
    requires a <= b <= |sent| && forall k :: 0 <= k < |sent| ==> |sent[k]| >= 4
    ensures forall p <- sent[a..b] :: |p| >= 4
    ensures Prefixed(sent[a..b]) == Resent(sent, a, b)
    decreases b
  {
    if a == b {
    } else {
      ResentIsPrefixed(sent, a, b - 1);
      PrefixedGrows(sent[a..b], sent[a..b - 1], sent[b - 1]);
    }
  }

  lemma PrefixedGrows(packets: seq<Bytes>, fewer: seq<Bytes>, p: Bytes)
    requires packets == fewer + [p] && |p| >= 4 && forall q <- fewer :: |q| >= 4
    ensures forall q <- packets :: |q| >= 4
    ensures Prefixed(packets) == Prefixed(fewer) + [ReplyBytes(p)]
  {}

  /** The answer that brings back packets a to b acts as those packets delivered in their order. */
  lemma {:induction false} AnswerActs(sent: seq<Bytes>, s0: int, a: nat, b: nat)
    requires Numbered(sent, s0) && a <= b <= |sent|
    ensures ActsAs(Resent(sent, a, b), Chunks(sent), s0, Range(a, b))
    decreases b
  {
    if a == b {
      NothingActs(Chunks(sent), s0);
      assert Range(a, b) == [];
    } else {
      AnswerActs(sent, s0, a, b - 1);
      ReplyActs(sent, s0, b - 1);
      OneLonger(a, b);
      ActBoth(Resent(sent, a, b), Resent(sent, a, b - 1), [ReplyBytes(sent[b - 1])], Chunks(sent), s0,
              Range(a, b), Range(a, b - 1), [b - 1]);
    }
  }

  lemma OneLonger(a: nat, b: nat)
    requires a < b
    ensures Range(a, b) == Range(a, b - 1) + [b - 1]
  {}

  /** A packet, and the answer to the request it causes. */
  lemma PacketAndAnswer(sent: seq<Bytes>, s0: int, k: nat, a: nat, b: nat)
    requires Numbered(sent, s0) && k < |sent| && a <= b <= |sent|
    ensures ActsAs([sent[k]] + Resent(sent, a, b), Chunks(sent), s0, [k] + Range(a, b))
  {
    PacketActs(sent, s0, k);
    AnswerActs(sent, s0, a, b);
    ActBoth([sent[k]] + Resent(sent, a, b), [sent[k]], Resent(sent, a, b), Chunks(sent), s0,
            [k] + Range(a, b), [k], Range(a, b));
  }

  /** AnsweredGapOvershoots on the wire: packet a + gap, the answer to its request, and the packet after it. */
  lemma AnswerOvershoots(s: Capture, sent: seq<Bytes>, s0: int, a: nat, gap: nat, datagrams: seq<Bytes>)
    requires Numbered(sent, s0) && Expects(s, s0, a) && 0 < gap < GAP_LIMIT && a + gap + 1 < |sent|
    requires datagrams
          == [sent[a + gap]] + Resent(sent, a, a + Min(gap, MAX_RETRANSMIT)) + [sent[a + gap + 1]]
    ensures |ReceiveAll(s, datagrams).pcm| == |s.pcm| + PAYLOAD_SIZE * (gap + 2) + PAYLOAD_SIZE * (gap + 1)
  {
    var b, m := a + gap, Min(gap, MAX_RETRANSMIT);
    ThenNext(sent, s0, b, a, a + m, datagrams);
    Overshoots(s, Chunks(sent), s0, a, gap, datagrams, [b] + Range(a, a + m) + [b + 1]);
  }

  lemma Overshoots(s: Capture, chunks: seq<Bytes>, s0: int, a: nat, gap: nat, datagrams: seq<Bytes>, d: seq<nat>)
    requires Stereo(chunks) && Expects(s, s0, a) && 0 < gap < GAP_LIMIT && a + gap + 1 < |chunks|
    requires d == [a + gap] + Range(a, a + Min(gap, MAX_RETRANSMIT)) + [a + gap + 1] && ActsAs(datagrams, chunks, s0, d)
    ensures |ReceiveAll(s, datagrams).pcm| == |s.pcm| + PAYLOAD_SIZE * (gap + 2) + PAYLOAD_SIZE * (gap + 1)
  {
    Acts(s, datagrams, chunks, s0, d);
    InThreeSteps(s, chunks, s0, a + gap, Range(a, a + Min(gap, MAX_RETRANSMIT)));
    AnsweredGapOvershoots(s, chunks, s0, a, gap);
  }

  lemma ThenNext(sent: seq<Bytes>, s0: int, k: nat, a: nat, b: nat, datagrams: seq<Bytes>)
    requires Numbered(sent, s0) && k + 1 < |sent| && a <= b <= |sent|
    requires datagrams == [sent[k]] + Resent(sent, a, b) + [sent[k + 1]]
    ensures ActsAs(datagrams, Chunks(sent), s0, [k] + Range(a, b) + [k + 1])
  {
    PacketAndAnswer(sent, s0, k, a, b);
    PacketActs(sent, s0, k + 1);
    ActBoth(datagrams, [sent[k]] + Resent(sent, a, b), [sent[k + 1]],
            Chunks(sent), s0, [k] + Range(a, b) + [k + 1], [k] + Range(a, b), [k + 1]);
  }

  lemma InThreeSteps(s: Capture, chunks: seq<Bytes>, s0: int, k: nat, d: seq<nat>)
    requires k + 1 < |chunks| && Arrivals(d, |chunks|)
    ensures Arrivals([k] + d + [k + 1], |chunks|)
    ensures TakeAll(s, chunks, s0, [k] + d + [k + 1])
         == TakeAll(TakeAll(TakeAll(s, chunks, s0, [k]), chunks, s0, d), chunks, s0, [k + 1])
  {
    TakeBoth(s, chunks, s0, [k], d);
    TakeBoth(s, chunks, s0, [k] + d, [k + 1]);
  }

  /** The datagrams of n rounds of packets and answers. */
  function RoundDatagrams(sent: seq<Bytes>, e: nat, p: nat, n: nat): seq<Bytes>
    requires e < p && p + n <= |sent| && forall k :: 0 <= k < |sent| ==> |sent[k]| >= 4
  {
    if n == 0 then []
    else
      var r, q := ExpectedAfter(e, p, n - 1), p + n - 1;
      RoundDatagrams(sent, e, p, n - 1) + ([sent[q]] + Resent(sent, r, r + Answers(r, q)))
  }

  lemma {:induction false} RoundsAct(sent: seq<Bytes>, s0: int, e: nat, p: nat, n: nat,
                                     datagrams: seq<Bytes>, d: seq<nat>)
    requires Numbered(sent, s0) && e < p && p + n <= |sent|
    requires datagrams == RoundDatagrams(sent, e, p, n) && d == Rounds(e, p, n)
    ensures ActsAs(datagrams, Chunks(sent), s0, d)
  {
    if n == 0 {
      NothingActs(Chunks(sent), s0);
    } else {
      var g1, d1 := RoundDatagrams(sent, e, p, n - 1), Rounds(e, p, n - 1);
      RoundsAct(sent, s0, e, p, n - 1, g1, d1);
      var r, q := ExpectedAfter(e, p, n - 1), p + n - 1;
      RoundActs(sent, s0, g1, datagrams, d1, d, q, r, r + Answers(r, q));
    }
  }

  lemma RoundActs(sent: seq<Bytes>, s0: int, g1: seq<Bytes>, g: seq<Bytes>, d1: seq<nat>, d: seq<nat>,
                  q: nat, a: nat, b: nat)
    requires Numbered(sent, s0) && q < |sent| && a <= b <= |sent| && ActsAs(g1, Chunks(sent), s0, d1)
    requires g == g1 + ([sent[q]] + Resent(sent, a, b)) && d == d1 + [q] + Range(a, b)
    ensures ActsAs(g, Chunks(sent), s0, d)
  {
    PacketAndAnswer(sent, s0, q, a, b);
    assert d1 + [q] + Range(a, b) == d1 + ([q] + Range(a, b));
    ActBoth(g, g1, [sent[q]] + Resent(sent, a, b), Chunks(sent), s0, d, d1, [q] + Range(a, b));
  }

  /** AnsweredGapNeverCloses on the wire. */
  lemma AnswersNeverCatchUp(s: Capture, sent: seq<Bytes>, s0: int, e: nat, p: nat, n: nat)
    requires Numbered(sent, s0) && Expects(s, s0, e) && e < p < e + GAP_LIMIT && p + n <= |sent|
    ensures var s' := ReceiveAll(s, RoundDatagrams(sent, e, p, n));
            Expects(s', s0, ExpectedAfter(e, p, n)) && Echoed(s, s', n, p == e + 1)
  {
    RoundsAct(sent, s0, e, p, n, RoundDatagrams(sent, e, p, n), Rounds(e, p, n));
    AnsweredGapNeverCloses(s, Chunks(sent), s0, e, p, n);
    Echoes(s, Chunks(sent), s0, RoundDatagrams(sent, e, p, n), Rounds(e, p, n), ExpectedAfter(e, p, n), n, p == e + 1);
  }

  lemma Echoes(s: Capture, chunks: seq<Bytes>, s0: int, datagrams: seq<Bytes>, d: seq<nat>, r: nat, n: nat, one: bool)
    requires ActsAs(datagrams, chunks, s0, d) && EchoedBy(s, chunks, s0, d, r, n, one)
    ensures Expects(ReceiveAll(s, datagrams), s0, r) && Echoed(s, ReceiveAll(s, datagrams), n, one)
  {
    Acts(s, datagrams, chunks, s0, d);
  }
}
