/**
 Retransmission requests and their answers (internal/raop/sender.go:314-363, cmd/mockreceiver/main.go:694-707, 758-761).
 */
module Retransmission {
  import opened Words
  import opened Protocol
  import opened StreamMachine

  /** The answer to a request for `count` packets from number `seqno` on: numbers not remembered are skipped. */
  function Replies(kept: map<u16, Bytes>, seqno: u16, count: nat): seq<Bytes>
    requires forall k <- kept :: |kept[k]| >= 4
  {
    if count == 0 then []
    else
      Replies(kept, seqno, count - 1)
      + (var k := W16(seqno + (count - 1)); if k in kept then [ReplyBytes(kept[k])] else [])
  }

  function Answer(kept: map<u16, Bytes>, request: Bytes): seq<Bytes>
    requires forall k <- kept :: |kept[k]| >= 4
  {
    if |request| < 8 || PacketType(request) != 0x55 then []
    else Replies(kept, GetBE16(request, 4), Min(GetBE16(request, 6), MAX_RETRANSMIT))
  }

  /** What both receiver loops do with a retransmit reply. */
  function Stripped(replies: seq<Bytes>): seq<Bytes>
    requires forall r <- replies :: |r| >= 4
  {
    seq(|replies|, i requires 0 <= i < |replies| => replies[i][4..])
  }

  /** The index of the latest of the first n packets that carried a number. */
  function LatestIndex(s0: int, n: int, seqno: u16): int { n - 1 - W16(s0 + n - 1 - seqno) }

  lemma LatestIndexNumber(s0: int, n: int, seqno: u16)
    ensures SeqAt(s0, LatestIndex(s0, n, seqno)) == seqno
    ensures n - 0x1_0000 <= LatestIndex(s0, n, seqno) < n
  {
    var d := s0 + n - 1 - seqno;
    assert s0 + LatestIndex(s0, n, seqno) == seqno + 0x1_0000 * (d / 0x1_0000);
  }

  /** The remembered bytes are those of the datagrams lo..hi of what was sent, under their numbers. */
  ghost predicate KeptWindow(kept: map<u16, Bytes>, s0: int, lo: int, hi: int, sent: seq<Bytes>) {
    && 0 <= lo <= hi <= |sent| && hi - lo <= BACKLOG_SIZE
    && (forall k <- kept :: |kept[k]| >= 4)
    && forall x {:trigger SeqAt(s0, x)} :: hi - 0x1_0000 <= x < lo + 0x1_0000 ==>
         && (SeqAt(s0, x) in kept <==> lo <= x < hi)
         && (lo <= x < hi ==> kept[SeqAt(s0, x)] == sent[x])
  }

  /** The datagrams x..y of those sent, of which only lo..hi can be had. */
  function Overlap(sent: seq<Bytes>, lo: int, hi: int, x: int, y: int): seq<Bytes>
    requires 0 <= lo <= hi <= |sent|
    decreases y - x
  {
    if x >= y then []
    else Overlap(sent, lo, hi, x, y - 1) + (if lo <= y - 1 < hi then [sent[y - 1]] else [])
  }

  /**
   Every request, whatever its number and count, is answered in order by exactly the remembered packets with the
   numbers asked for; stripped of their prefix the replies are the original datagrams.
   */
  lemma {:induction false} RepliesAreThePackets(
    kept: map<u16, Bytes>, s0: int, lo: int, hi: int, sent: seq<Bytes>, seqno: u16, count: nat)
    requires KeptWindow(kept, s0, lo, hi, sent) && count <= MAX_RETRANSMIT
    ensures var x := LatestIndex(s0, hi, seqno);
            && (forall r <- Replies(kept, seqno, count) :: |r| >= 4)
            && Stripped(Replies(kept, seqno, count)) == Overlap(sent, lo, hi, x, x + count)
  {
    if count == 0 {
    } else {
      RepliesAreThePackets(kept, s0, lo, hi, sent, seqno, count - 1);
      var i := NumberOfReply(s0, hi, seqno, count);
      if lo <= i < hi {
        LastReply(kept, seqno, count, sent[i]);
      } else {
        assert Replies(kept, seqno, count) == Replies(kept, seqno, count - 1);
      }
    }
  }

  lemma NumberOfReply(s0: int, hi: int, seqno: u16, count: nat) returns (i: int)
    requires count > 0
    ensures i == LatestIndex(s0, hi, seqno) + count - 1
    ensures W16(seqno + (count - 1)) == SeqAt(s0, i)
    ensures hi - 0x1_0000 <= i < hi + count
  {
    var x := LatestIndex(s0, hi, seqno);
    LatestIndexNumber(s0, hi, seqno);
    WrapSum16(s0 + x, count - 1);
    i := x + count - 1;
  }

  lemma LastReply(kept: map<u16, Bytes>, seqno: u16, count: nat, packet: Bytes)
    requires count > 0 && forall k <- kept :: |kept[k]| >= 4
    requires W16(seqno + (count - 1)) in kept && kept[W16(seqno + (count - 1))] == packet
    requires forall r <- Replies(kept, seqno, count - 1) :: |r| >= 4
    ensures forall r <- Replies(kept, seqno, count) :: |r| >= 4
    ensures Stripped(Replies(kept, seqno, count)) == Stripped(Replies(kept, seqno, count - 1)) + [packet]
  {
    ReplyStrips(packet);
    assert Replies(kept, seqno, count) == Replies(kept, seqno, count - 1) + [ReplyBytes(packet)];
  }

  lemma {:induction false} RepliesCount(kept: map<u16, Bytes>, seqno: u16, count: nat)
    requires forall k <- kept :: |kept[k]| >= 4
    ensures |Replies(kept, seqno, count)| <= count
    ensures (forall i :: 0 <= i < count ==> SeqAt(seqno, i) in kept) ==> |Replies(kept, seqno, count)| == count
  {
    if count == 0 {
    } else {
      RepliesCount(kept, seqno, count - 1);
      assert SeqAt(seqno, count - 1) == W16(seqno + (count - 1));
    }
  }

  /** However many packets are asked for, at most 128 come back; and 128 do if all of them are remembered. */
  lemma AtMost128(kept: map<u16, Bytes>, seqno: u16, count: u16)
    requires forall k <- kept :: |kept[k]| >= 4
    ensures |Answer(kept, RequestBytes(seqno, count))| <= 128
    ensures count >= 128 && (forall i :: 0 <= i < 128 ==> SeqAt(seqno, i) in kept) ==>
              |Answer(kept, RequestBytes(seqno, count))| == 128
  {
    RequestFields(seqno, count);
    RepliesCount(kept, seqno, Min(count, MAX_RETRANSMIT));
  }

  /** Nothing but a request is answered: not the sender's own kinds of datagrams, nor one cut short. */
  lemma OnlyRequestsAreAnswered(kept: map<u16, Bytes>, datagram: Bytes)
    requires forall k <- kept :: |kept[k]| >= 4
    requires |datagram| >= 2 && (|datagram| < 8 || PacketType(datagram) in {0x52, 0x53, 0x54, 0x56, 0x60})
    ensures Answer(kept, datagram) == []
  {}

  /** A packet behind the prefix. */
  predicate IsReply(r: Bytes) { |r| >= 8 && r == ReplyBytes(r[4..]) }

  lemma {:induction false} AnswersAreReplies(kept: map<u16, Bytes>, seqno: u16, count: nat)
    requires forall k <- kept :: |kept[k]| >= 4
    ensures forall r <- Replies(kept, seqno, count) :: |r| >= 8 && IsReply(r)
  {
    if count == 0 {
    } else {
      AnswersAreReplies(kept, seqno, count - 1);
      var k := W16(seqno + (count - 1));
      if k in kept {
        PrefixedIsReply(kept[k]);
      }
    }
  }

  lemma PrefixedIsReply(packet: Bytes)
    requires |packet| >= 4
    ensures IsReply(ReplyBytes(packet))
  {
    ReplyStrips(packet);
  }

  /** So an answer is what it is when stripped, each packet behind its prefix. */
  lemma AnswersArePrefixed(replies: seq<Bytes>)
    requires forall r <- replies :: |r| >= 8 && IsReply(r)
    ensures forall p <- Stripped(replies) :: |p| >= 4
    ensures replies == Prefixed(Stripped(replies))
  {
    forall i | 0 <= i < |replies|
      ensures |replies[i]| >= 8 && Stripped(replies)[i] == replies[i][4..] && IsReply(replies[i])
    {}
  }

  /** The packets x..y that are among lo..hi. */
  function Common(sent: seq<Bytes>, lo: int, hi: int, x: int, y: int): seq<Bytes>
    requires 0 <= lo <= hi <= |sent|
  {
    var from, to := if lo < x then x else lo, Min(hi, y);
    if from < to then sent[from..to] else []
  }

  lemma {:induction false} OverlapIsCommon(sent: seq<Bytes>, lo: int, hi: int, x: int, y: int)
    requires 0 <= lo <= hi <= |sent|
    ensures Overlap(sent, lo, hi, x, y) == Common(sent, lo, hi, x, y)
    decreases y - x
  {
    if x >= y {
    } else {
      OverlapIsCommon(sent, lo, hi, x, y - 1);
      OneMoreInCommon(sent, lo, hi, x, y);
    }
  }

  lemma OneMoreInCommon(sent: seq<Bytes>, lo: int, hi: int, x: int, y: int)
    requires 0 <= lo <= hi <= |sent| && x < y
    ensures Common(sent, lo, hi, x, y)
         == Common(sent, lo, hi, x, y - 1) + (if lo <= y - 1 < hi then [sent[y - 1]] else [])
  {
    var from := if lo < x then x else lo;
    if lo <= y - 1 < hi {
      assert sent[from..y] == sent[from..y - 1] + [sent[y - 1]];
    }
  }

  /** When all of a stretch is remembered the answer is that stretch. */
  lemma WholeStretch(sent: seq<Bytes>, lo: int, hi: int, x: int, y: int)
    requires 0 <= lo <= x <= y <= hi <= |sent|
    ensures Overlap(sent, lo, hi, x, y) == sent[x..y]
  {
    OverlapIsCommon(sent, lo, hi, x, y);
    assert x == y ==> sent[x..y] == [];
  }

  /**
   A lookup at any moment of a run finds, under the number of the i-th packet, either nothing or the datagram that
   is i-th on the wire when the run ends: a reply cannot mix packets up however the loop moves on between lookups.
   */
  lemma LookupAnyTime(c0: Core, t: Trace, at: nat, x: nat)
    requires Fresh(c0) && Legal(c0, t) && at <= |t|
    requires Keeps(t[..at]) - 0x1_0000 <= x < Keeps(t[..at])
    ensures Legal(c0, t[..at])
    ensures var c := Run(c0, t[..at]);
            SeqAt(c0.seqno, x) in c.backlog ==>
              x < |Run(c0, t).wire| && c.backlog[SeqAt(c0.seqno, x)] == Run(c0, t).wire[x]
  {
    WireGrows(c0, t, at);
    BacklogIsWindow(c0, t[..at]);
    var c := Run(c0, t[..at]);
    WindowNumbers(c.backlog, c.backlogQ, c0.seqno, Keeps(t[..at]), c.wire, x);
  }

  lemma {:induction false} KeepsGrow(t: Trace, i: nat, j: nat)
    requires i <= j <= |t|
    ensures Keeps(t[..i]) <= Keeps(t[..j])
  {
    if i == j {
    } else {
      KeepsGrow(t, i, j - 1);
      assert Front(t[..j]) == t[..j - 1];
    }
  }

  /**
   A whole request served while the loop goes on: the i-th lookup happens after at[i] steps of the run. If the stretch
   a.. was remembered before the first lookup and is not yet evicted at the last, every lookup succeeds and yields
   the packet that was sent as number a + i.
   */
  lemma AnsweredWhileRunning(c0: Core, t: Trace, at: seq<nat>, a: nat, i: nat, number: u16)
    requires number == W16(SeqAt(c0.seqno, a) + i)
    requires Fresh(c0) && Legal(c0, t) && i < |at| <= MAX_RETRANSMIT
    requires at[0] <= at[i] <= at[|at| - 1] <= |t|
    requires a + |at| <= Keeps(t[..at[0]]) && Keeps(t[..at[|at| - 1]]) <= a + BACKLOG_SIZE
    ensures Legal(c0, t[..at[i]])
    ensures var backlog := Run(c0, t[..at[i]]).backlog;
            number in backlog && a + i < |Run(c0, t).wire| && backlog[number] == Run(c0, t).wire[a + i]
  {
    NumberAfter(c0.seqno, a, i);
    StillKept(t, at[0], at[i], at[|at| - 1], a, |at|, i);
    FoundAt(c0, t, at[i], a + i, number);
  }

  lemma NumberAfter(s0: int, a: nat, i: nat)
    ensures W16(SeqAt(s0, a) + i) == SeqAt(s0, a + i)
  {
    WrapSum16(s0 + a, i);
  }

  lemma StillKept(t: Trace, first: nat, now: nat, last: nat, a: nat, count: nat, i: nat)
    requires first <= now <= last <= |t| && i < count
    requires a + count <= Keeps(t[..first]) && Keeps(t[..last]) <= a + BACKLOG_SIZE
    ensures a + i < Keeps(t[..now]) <= a + i + BACKLOG_SIZE
  {
    KeepsGrow(t, first, now);
    KeepsGrow(t, now, last);
  }

  /** The window at one moment of a run: a lookup of what it covers succeeds. */
  lemma FoundAt(c0: Core, t: Trace, at: nat, x: nat, number: u16)
    requires Fresh(c0) && Legal(c0, t) && at <= |t| && number == SeqAt(c0.seqno, x)
    requires x < Keeps(t[..at]) <= x + BACKLOG_SIZE
    ensures Legal(c0, t[..at]) && number in Run(c0, t[..at]).backlog
    ensures x < |Run(c0, t).wire| && Run(c0, t[..at]).backlog[number] == Run(c0, t).wire[x]
  {
    LookupAnyTime(c0, t, at, x);
    BacklogIsWindow(c0, t[..at]);
    var c := Run(c0, t[..at]);
    WindowNumbers(c.backlog, c.backlogQ, c0.seqno, Keeps(t[..at]), c.wire, x);
  }
}
