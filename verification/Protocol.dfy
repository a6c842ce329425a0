/** RAOP constants and datagram layouts (internal/raop/protocol.go). */
module Protocol {
  import opened Words

  const FRAMES_PER_PACKET := 352
  const RTP_TIME_SCALE := 44100
  const LATENCY_FRAMES := 22050 + RTP_TIME_SCALE
  const HEADER_SIZE := 12

  datatype AudioFormat = AudioFormat(sampleRate: int, channels: int, bitDepth: int) {
    /** Validate: the formats RAOP L16 can carry. */
    predicate Valid() {
      sampleRate > 0 && (channels == 1 || channels == 2) && bitDepth == 16
    }

    function FrameSize(): (n: int)
      ensures Valid() ==> n == 2 * channels
    {
      channels * TruncDiv(bitDepth, 8)
    }

    function PacketSize(): (n: int)
      ensures Valid() ==> n == if channels == 1 then 704 else 1408
    {
      FRAMES_PER_PACKET * FrameSize()
    }
  }

  // ---- Audio packets ----

  function AudioBytes(seqno: u16, timestamp: u32, ssrc: u32, first: bool, payload: Bytes): (packet: Bytes)
    ensures |packet| == HEADER_SIZE + |payload|
    ensures packet[HEADER_SIZE..] == payload
  {
    Header(seqno, timestamp, ssrc, first) + payload
  }

  function Header(seqno: u16, timestamp: u32, ssrc: u32, first: bool): (header: Bytes)
    ensures |header| == HEADER_SIZE
  {
    [0x80, if first then 0xE0 else 0x60] + PutBE16(seqno) + PutBE32(timestamp) + PutBE32(ssrc)
  }

  method FillHeader(packet: array<byte>, seqno: u16, timestamp: u32, ssrc: u32, first: bool)
    requires packet.Length >= HEADER_SIZE
    modifies packet
    ensures packet[..HEADER_SIZE] == Header(seqno, timestamp, ssrc, first)
  {
    packet[0] := 0x80;
    packet[1] := 0x60;
    if first {
      packet[1] := 0xE0;
    }
    PutUint16(packet, 2, seqno);
    assert packet[..4] == [0x80, if first then 0xE0 else 0x60] + PutBE16(seqno);
    PutUint32(packet, 4, timestamp);
    assert packet[..8] == packet[..4] + PutBE32(timestamp);
    PutUint32(packet, 8, ssrc);
    assert packet[..12] == packet[..8] + PutBE32(ssrc);
  }

  /** AudioPacket: the payload is copied, so the caller may overwrite its buffer afterwards. */
  method AudioPacket(seqno: u16, timestamp: u32, ssrc: u32, first: bool, payload: array<byte>)
    returns (packet: array<byte>)
    ensures fresh(packet)
    ensures packet[..] == AudioBytes(seqno, timestamp, ssrc, first, payload[..])
  {
    packet := new byte[HEADER_SIZE + payload.Length];
    FillHeader(packet, seqno, timestamp, ssrc, first);
    forall i | 0 <= i < payload.Length {
      packet[HEADER_SIZE + i] := payload[i];
    }
    assert packet[..12] == Header(seqno, timestamp, ssrc, first);
    assert packet[12..] == payload[..];
    assert packet[..] == packet[..12] + packet[12..];
  }

  function PacketType(packet: Bytes): byte
    requires |packet| >= 2
  {
    packet[1] % 0x80
  }

  function PacketSeq(packet: Bytes): u16
    requires |packet| >= 4
  {
    GetBE16(packet, 2)
  }

  function PacketTimestamp(packet: Bytes): u32
    requires |packet| >= 8
  {
    GetBE32(packet, 4)
  }

  /** Every header field of an audio packet can be read back by the receiver. */
  lemma AudioHeader(seqno: u16, timestamp: u32, ssrc: u32, first: bool, payload: Bytes)
    ensures var p := AudioBytes(seqno, timestamp, ssrc, first, payload);
            && p[0] == 0x80 && PacketType(p) == 0x60 && (p[1] >= 0x80 <==> first)
            && PacketSeq(p) == seqno && PacketTimestamp(p) == timestamp && GetBE32(p, 8) == ssrc
  {
    var p := AudioBytes(seqno, timestamp, ssrc, first, payload);
    assert p[2..4] == PutBE16(seqno) && p[4..8] == PutBE32(timestamp) && p[8..12] == PutBE32(ssrc);
    BigEndian16(p, 2, seqno);
    BigEndian32(p, 4, timestamp);
    BigEndian32(p, 8, ssrc);
  }

  // ---- Sync packets ----

  function SyncBytes(first: bool, nowWithoutLatency: u32, lastSec: u32, lastFrac: u32, now: u32): (packet: Bytes)
    ensures |packet| == 20
  {
    [if first then 0x90 else 0x80, 0xD4] + PutBE16(7) + PutBE32(nowWithoutLatency)
    + PutBE32(lastSec) + PutBE32(lastFrac) + PutBE32(now)
  }

  method SyncPacket(first: bool, nowWithoutLatency: u32, lastSec: u32, lastFrac: u32, now: u32)
    returns (packet: array<byte>)
    ensures fresh(packet)
    ensures packet[..] == SyncBytes(first, nowWithoutLatency, lastSec, lastFrac, now)
  {
    packet := new byte[20];
    if first {
      packet[0] := 0x90;
    } else {
      packet[0] := 0x80;
    }
    packet[1] := 0xD4;
    PutUint16(packet, 2, 7);
    PutUint32(packet, 4, nowWithoutLatency);
    assert packet[..8] == [if first then 0x90 else 0x80, 0xD4] + PutBE16(7) + PutBE32(nowWithoutLatency);
    PutUint32(packet, 8, lastSec);
    assert packet[..12] == packet[..8] + PutBE32(lastSec);
    PutUint32(packet, 12, lastFrac);
    assert packet[..16] == packet[..12] + PutBE32(lastFrac);
    PutUint32(packet, 16, now);
    assert packet[..] == packet[..16] + PutBE32(now);
  }

  /** The fields the receiver takes out of a sync packet, as its control loop does. */
  datatype Sync = Sync(nowWithoutLatency: u32, sec: u32, frac: u32, now: u32)

  function ReadSync(packet: Bytes): Sync
    requires |packet| >= 20
  {
    Sync(GetBE32(packet, 4), GetBE32(packet, 8), GetBE32(packet, 12), GetBE32(packet, 16))
  }

  lemma SyncRoundTrip(first: bool, nowWithoutLatency: u32, lastSec: u32, lastFrac: u32, now: u32)
    ensures var p := SyncBytes(first, nowWithoutLatency, lastSec, lastFrac, now);
            && p[0] == (if first then 0x90 else 0x80) && p[1] >= 0x80 && GetBE16(p, 2) == 7
            && PacketType(p) == 0x54 && ReadSync(p) == Sync(nowWithoutLatency, lastSec, lastFrac, now)
  {
    var p := SyncBytes(first, nowWithoutLatency, lastSec, lastFrac, now);
    assert p[2..4] == PutBE16(7);
    BigEndian16(p, 2, 7);
    assert p[4..8] == PutBE32(nowWithoutLatency);
    assert p[8..12] == PutBE32(lastSec);
    assert p[12..16] == PutBE32(lastFrac);
    assert p[16..] == PutBE32(now) && p[16..] == p[16..20];
    BigEndian32(p, 4, nowWithoutLatency);
    BigEndian32(p, 8, lastSec);
    BigEndian32(p, 12, lastFrac);
    BigEndian32(p, 16, now);
  }

  // ---- Clock probes ----

  datatype TimingRequest = TimingRequest(proto: byte, sendTimeSec: u32, sendTimeFrac: u32)
  function ParseTimingRequest(data: Bytes): Option<TimingRequest> {
    if |data| < 32 then None else Some(TimingRequest(data[0], GetBE32(data, 24), GetBE32(data, 28)))
  }

  function TimingReplyBytes(proto: byte, refSec: u32, refFrac: u32, nowSec: u32, nowFrac: u32): (packet: Bytes)
    ensures |packet| == 32
  {
    [proto, 0xD3] + PutBE16(7) + PutBE32(0) + PutBE32(refSec) + PutBE32(refFrac)
    + PutBE32(nowSec) + PutBE32(nowFrac) + PutBE32(nowSec) + PutBE32(nowFrac)
  }

  method TimingReply(proto: byte, refSec: u32, refFrac: u32, nowSec: u32, nowFrac: u32)
    returns (packet: array<byte>)
    ensures fresh(packet)
    ensures packet[..] == TimingReplyBytes(proto, refSec, refFrac, nowSec, nowFrac)
  {
    packet := new byte[32];
    packet[0], packet[1] := proto, 0xD3;
    PutUint16(packet, 2, 7);
    PutUint32(packet, 4, 0);
    assert packet[..8] == [proto, 0xD3] + PutBE16(7) + PutBE32(0);
    PutUint32(packet, 8, refSec);
    assert packet[..12] == packet[..8] + PutBE32(refSec);
    PutUint32(packet, 12, refFrac);
    assert packet[..16] == packet[..12] + PutBE32(refFrac);
    PutUint32(packet, 16, nowSec);
    assert packet[..20] == packet[..16] + PutBE32(nowSec);
    PutUint32(packet, 20, nowFrac);
    assert packet[..24] == packet[..20] + PutBE32(nowFrac);
    PutUint32(packet, 24, nowSec);
    assert packet[..28] == packet[..24] + PutBE32(nowSec);
    PutUint32(packet, 28, nowFrac);
    assert packet[..] == packet[..28] + PutBE32(nowFrac);
  }

  /** The receiver's probe: its send time sits in the last eight bytes. */
  function TimingProbe(sec: u32, frac: u32): Bytes {
    [0x80, 0x53] + PutBE16(7) + Zeros(20) + PutBE32(sec) + PutBE32(frac)
  }

  /**
   A probe answered by the sender brings the prober its own send time back as reference time, and the answering
   clock both as receive and as send time.
   */
  lemma ProbeAnswered(sec: u32, frac: u32, nowSec: u32, nowFrac: u32)
    ensures var request := ParseTimingRequest(TimingProbe(sec, frac));
            && request == Some(TimingRequest(0x80, sec, frac))
            && var reply := TimingReplyBytes(0x80, request.value.sendTimeSec, request.value.sendTimeFrac, nowSec, nowFrac);
            && reply[0] == 0x80 && PacketType(reply) == 0x53 && GetBE16(reply, 2) == 7 && GetBE32(reply, 4) == 0
            && GetBE32(reply, 8) == sec && GetBE32(reply, 12) == frac
            && GetBE32(reply, 16) == GetBE32(reply, 24) == nowSec
            && GetBE32(reply, 20) == GetBE32(reply, 28) == nowFrac
  {
    ProbeIsParsed(sec, frac);
    ReplyFields(0x80, sec, frac, nowSec, nowFrac);
  }

  lemma ProbeIsParsed(sec: u32, frac: u32)
    ensures ParseTimingRequest(TimingProbe(sec, frac)) == Some(TimingRequest(0x80, sec, frac))
  {
    var probe := TimingProbe(sec, frac);
    assert probe[24..28] == PutBE32(sec) && probe[28..32] == PutBE32(frac);
    BigEndian32(probe, 24, sec);
    BigEndian32(probe, 28, frac);
  }

  lemma ReplyFields(proto: byte, refSec: u32, refFrac: u32, nowSec: u32, nowFrac: u32)
    ensures var reply := TimingReplyBytes(proto, refSec, refFrac, nowSec, nowFrac);
            && reply[0] == proto && PacketType(reply) == 0x53 && GetBE16(reply, 2) == 7 && GetBE32(reply, 4) == 0
            && GetBE32(reply, 8) == refSec && GetBE32(reply, 12) == refFrac
            && GetBE32(reply, 16) == GetBE32(reply, 24) == nowSec
            && GetBE32(reply, 20) == GetBE32(reply, 28) == nowFrac
  {
    var reply := TimingReplyBytes(proto, refSec, refFrac, nowSec, nowFrac);
    assert reply[2..4] == PutBE16(7) && reply[4..8] == PutBE32(0);
    BigEndian16(reply, 2, 7);
    BigEndian32(reply, 4, 0);
    assert reply[8..12] == PutBE32(refSec) && reply[12..16] == PutBE32(refFrac);
    assert reply[16..20] == PutBE32(nowSec) && reply[20..24] == PutBE32(nowFrac);
    assert reply[24..28] == PutBE32(nowSec);
    assert reply[28..] == PutBE32(nowFrac) && reply[28..] == reply[28..32];
    BigEndian32(reply, 8, refSec);
    BigEndian32(reply, 12, refFrac);
    BigEndian32(reply, 16, nowSec);
    BigEndian32(reply, 20, nowFrac);
    BigEndian32(reply, 24, nowSec);
    BigEndian32(reply, 28, nowFrac);
  }

  // ---- Retransmission ----

  /** The most packets one request brings back. */
  const MAX_RETRANSMIT := 128

  /** The receiver's request for `count` packets starting at `seqno`. */
  function RequestBytes(seqno: u16, count: u16): Bytes {
    [0x80, 0x55] + PutBE16(1) + PutBE16(seqno) + PutBE16(count)
  }

  lemma RequestFields(seqno: u16, count: u16)
    ensures var p := RequestBytes(seqno, count);
            && |p| == 8 && p[0] == 0x80 && PacketType(p) == 0x55
            && GetBE16(p, 2) == 1 && GetBE16(p, 4) == seqno && GetBE16(p, 6) == count
  {
    var p := RequestBytes(seqno, count);
    assert p[2..4] == PutBE16(1) && p[4..6] == PutBE16(seqno) && p[6..8] == PutBE16(count);
    BigEndian16(p, 2, 1);
    BigEndian16(p, 4, seqno);
    BigEndian16(p, 6, count);
  }

  /** A retransmit reply: a four-byte prefix, then the remembered packet. */
  function ReplyBytes(packet: Bytes): Bytes
    requires |packet| >= 4
  {
    [0x80, 0xD6, packet[2], packet[3]] + packet
  }

  /** Stripping the prefix, as both receiver loops do, gives the original packet back. */
  lemma ReplyStrips(packet: Bytes)
    requires |packet| >= 4
    ensures PacketType(ReplyBytes(packet)) == 0x56 && ReplyBytes(packet)[4..] == packet
    ensures ReplyBytes(packet)[0] == 0x80 && GetBE16(ReplyBytes(packet), 2) == PacketSeq(packet)
  {}

  /** Packets as retransmit replies. */
  function Prefixed(packets: seq<Bytes>): seq<Bytes>
    requires forall p <- packets :: |p| >= 4
  {
    seq(|packets|, i requires 0 <= i < |packets| => ReplyBytes(packets[i]))
  }
}
