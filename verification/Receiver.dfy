/** The mock receiver's capture (cmd/mockreceiver/main.go:312-330, 660-707, 839-846). */
module Receiver {
  import opened Words
  import opened Protocol

  /** The largest forward gap the receiver pads is one less than this. */
  const GAP_LIMIT := 512

  /** Silence is appended four bytes a frame, whatever the session's format. */
  const SILENT_PACKET := FRAMES_PER_PACKET * 4

  /** The session's sequence state, the capture, and the retransmission requests sent so far. */
  datatype Capture = Capture(haveSeq: bool, nextSeq: u16, pcm: Bytes, frames: int, requests: seq<Bytes>)

  /** Big-endian samples as little-endian ones; an odd trailing byte is dropped. */
  function Swapped(payload: Bytes): (out: Bytes)
    ensures |out| == |payload| - |payload| % 2
  {
    seq(|payload| - |payload| % 2, i requires 0 <= i < |payload| - |payload| % 2 =>
      if i % 2 == 0 then payload[i + 1] else payload[i - 1])
  }

  /** Swapping is its own inverse: no sample is lost on the way into the capture. */
  lemma SwapTwice(payload: Bytes)
    requires |payload| % 2 == 0
    ensures Swapped(Swapped(payload)) == payload
  {}

  /** The i-th 16-bit sample of a stretch of bytes, read with the high byte first. */
  function SampleBE(b: Bytes, i: nat): u16
    requires 2 * i + 1 < |b|
  {
    b[2 * i] as int * 0x100 + b[2 * i + 1]
  }

  /** The same with the low byte first. */
  function SampleLE(b: Bytes, i: nat): u16
    requires 2 * i + 1 < |b|
  {
    b[2 * i] as int + b[2 * i + 1] as int * 0x100
  }

  /** What the capture holds low byte first is what came high byte first. */
  lemma SampleIsKept(payload: Bytes, i: nat)
    requires 2 * i + 1 < |payload|
    ensures 2 * i + 1 < |Swapped(payload)| && SampleLE(Swapped(payload), i) == SampleBE(payload, i)
  {
    assert Swapped(payload)[2 * i] == payload[2 * i + 1] && Swapped(payload)[2 * i + 1] == payload[2 * i];
  }

  /** Every pair of bytes changes places, and every sample keeps its value. */
  method DecodeL16ToLE(payload: Bytes) returns (out: array<byte>)
    ensures fresh(out) && out[..] == Swapped(payload)
    ensures out.Length == |payload| - |payload| % 2
    ensures forall k :: 0 <= k < out.Length ==> out[k] == payload[if k % 2 == 0 then k + 1 else k - 1]
    ensures forall i: nat {:trigger SampleBE(payload, i)} :: 2 * i + 1 < |payload| ==>
              SampleLE(out[..], i) == SampleBE(payload, i)
  {
    out := new byte[|payload| - |payload| % 2](_ => 0);
    var i := 0;
    while i + 1 < |payload|
      invariant 0 <= i <= out.Length && i % 2 == 0
      invariant forall k :: 0 <= k < i ==> out[k] == Swapped(payload)[k]
    {
      out[i] := payload[i + 1];
      out[i + 1] := payload[i];
      i := i + 2;
    }
    forall j: nat | 2 * j + 1 < |payload|
      ensures SampleLE(out[..], j) == SampleBE(payload, j)
    {
      SampleIsKept(payload, j);
    }
  }

  /** Padding for a forward gap, then the packet's samples. */
  function Take(s: Capture, seqno: u16, samples: Bytes): Capture {
    var delta := W16(seqno - s.nextSeq);
    var padded := if s.haveSeq && 0 < delta < GAP_LIMIT then Pad(s, delta) else s;
    padded.(haveSeq := true, nextSeq := W16(seqno + 1), pcm := padded.pcm + samples,
            frames := padded.frames + |samples| / 4)
  }

  function Pad(s: Capture, delta: u16): Capture {
    s.(pcm := s.pcm + Zeros(SILENT_PACKET * delta), frames := s.frames + FRAMES_PER_PACKET * delta,
       requests := s.requests + [RequestBytes(s.nextSeq, delta)])
  }

  function Receive(s: Capture, packet: Bytes): Capture {
    if |packet| < HEADER_SIZE then s
    else Take(s, PacketSeq(packet), Swapped(packet[HEADER_SIZE..]))
  }

  lemma NeverNegative(x: u16)
    ensures S32(x) == x
  {}

  class Session {
    var nextSeq: u16
    var haveSeq: bool
    var pcm: Bytes
    var frames: int
    var requests: seq<Bytes>

    ghost function State(): Capture
      reads this
    {
      Capture(haveSeq, nextSeq, pcm, frames, requests)
    }

    constructor ()
      ensures State() == Capture(false, 0, [], 0, [])
    {
      nextSeq, haveSeq, pcm, frames, requests := 0, false, [], 0, [];
    }

    /** FLUSH: what was captured stays, the sequence starts over. */
    method Flush()
      modifies this
      ensures State() == old(State()).(haveSeq := false)
    {
      haveSeq := false;
    }

    method AppendPCM(payload: array<byte>)
      modifies this
      ensures State() == old(State()).(pcm := old(pcm) + payload[..], frames := old(frames) + payload.Length / 4)
    {
      pcm := pcm + payload[..];
      frames := frames + payload.Length / 4;
    }

    method AppendSilence(count: int)
      modifies this
      ensures State() == if count <= 0 then old(State())
                         else old(State()).(pcm := old(pcm) + Zeros(4 * count), frames := old(frames) + count)
    {
      if count <= 0 {
        return;
      }
      var silence := new byte[4 * count](_ => 0);
      assert silence[..] == Zeros(4 * count);
      pcm := pcm + silence[..];
      frames := frames + count;
    }

    method RequestRetransmit(seqno: u16, count: u16)
      modifies this
      ensures State() == old(State()).(requests := old(requests) + [RequestBytes(seqno, count)])
    {
      var packet := new byte[8];
      packet[0], packet[1] := 0x80, 0x55;
      PutUint16(packet, 2, 1);
      assert packet[..4] == [0x80, 0x55] + PutBE16(1);
      PutUint16(packet, 4, seqno);
      assert packet[..6] == packet[..4] + PutBE16(seqno);
      PutUint16(packet, 6, count);
      assert packet[..] == RequestBytes(seqno, count);
      requests := requests + [packet[..]];
    }

    /**
     Bridges a forward gap. The signed conversion of a 16-bit difference is never negative, so the branch for late
     packets is dead.
     */
    method HandleGap(seqno: u16)
      requires haveSeq
      modifies this
      ensures State() == (var delta := W16(seqno - old(nextSeq));
                          if 0 < delta < GAP_LIMIT then Pad(old(State()), delta).(nextSeq := seqno) else old(State()))
    {
      if seqno == nextSeq {
        return;
      }
      var distance := W16(seqno - nextSeq);
      NeverNegative(distance);
      var delta := S32(distance);
      if 0 < delta < GAP_LIMIT {
        RequestRetransmit(nextSeq, delta);
        AppendSilence(delta * FRAMES_PER_PACKET);
        nextSeq := seqno;
      } else if delta < 0 {
        assert false;
      }
    }

    method HandleAudioPacket(packet: Bytes)
      modifies this
      ensures State() == Receive(old(State()), packet)
    {
      if |packet| < HEADER_SIZE {
        return;
      }
      var seqno := PacketSeq(packet);
      if !haveSeq {
        haveSeq := true;
        nextSeq := seqno;
      } else {
        HandleGap(seqno);
      }
      var samples := DecodeL16ToLE(packet[HEADER_SIZE..]);
      AppendPCM(samples);
      nextSeq := W16(seqno as int + 1);
    }

    /** One datagram on the audio socket: audio, or a retransmit reply with its four-byte prefix. */
    method HandleDatagram(datagram: Bytes)
      modifies this
      ensures State() == ReceiveDatagram(old(State()), datagram)
    {
      if |datagram| < HEADER_SIZE {
        return;
      }
      var kind := PacketType(datagram);
      if kind == 0x60 {
        HandleAudioPacket(datagram);
      } else if kind == 0x56 && |datagram| > 16 {
        HandleAudioPacket(datagram[4..]);
      }
    }
  }

  function ReceiveDatagram(s: Capture, datagram: Bytes): Capture {
    if |datagram| < HEADER_SIZE then s
    else if PacketType(datagram) == 0x60 then Receive(s, datagram)
    else if PacketType(datagram) == 0x56 && |datagram| > 16 then Receive(s, datagram[4..])
    else s
  }

  /** An audio packet as the sender builds it is taken under its number, with its payload. */
  lemma AudioIsTaken(s: Capture, seqno: u16, timestamp: u32, ssrc: u32, first: bool, payload: Bytes)
    ensures ReceiveDatagram(s, AudioBytes(seqno, timestamp, ssrc, first, payload)) == Take(s, seqno, Swapped(payload))
  {
    AudioHeader(seqno, timestamp, ssrc, first, payload);
  }

  /** A retransmitted packet does to the capture what the packet itself does, unless it carries no audio at all. */
  lemma ReplyActsAsPacket(s: Capture, packet: Bytes)
    requires |packet| >= HEADER_SIZE && PacketType(packet) == 0x60
    ensures ReceiveDatagram(s, ReplyBytes(packet))
         == if |packet| > HEADER_SIZE then ReceiveDatagram(s, packet) else s
  {
    ReplyStrips(packet);
  }

  /** Every other kind of datagram leaves the capture alone: sync packets, probes and requests among them. */
  lemma ForeignIsIgnored(s: Capture, datagram: Bytes)
    requires |datagram| >= 2 && PacketType(datagram) in {0x52, 0x53, 0x54, 0x55}
    ensures ReceiveDatagram(s, datagram) == s
  {}

  /** A whole delivery, datagram by datagram. */
  function ReceiveAll(s: Capture, datagrams: seq<Bytes>): Capture {
    if datagrams == [] then s
    else ReceiveDatagram(ReceiveAll(s, datagrams[..|datagrams| - 1]), datagrams[|datagrams| - 1])
  }

  lemma {:induction false} ReceiveBoth(s: Capture, a: seq<Bytes>, b: seq<Bytes>)
    ensures ReceiveAll(s, a + b) == ReceiveAll(ReceiveAll(s, a), b)
  {
    if b == [] {
      assert a + b == a;
    } else {
      ReceiveBoth(s, a, b[..|b| - 1]);
      assert (a + b)[..|a + b| - 1] == a + b[..|b| - 1];
    }
  }
}
