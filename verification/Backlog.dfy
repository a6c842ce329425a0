/**
 The retransmission backlog (internal/raop/sender.go:97-100, 358-377): the fields the sender guards with backlogMu.
 It stores the packets' own buffers, so that it matters that nobody writes to them afterwards.
 */
module Backlog {
  import opened Words
  import opened StreamMachine

  ghost predicate Inspect(seqno: u16) { true }

  class Store {
    var packets: map<u16, array<byte>>
    var queue: seq<u16>
    ghost var kept: map<u16, Bytes>

    /** The remembered buffers still hold the bytes they were remembered with (asked for one by one, by Inspect). */
    ghost predicate Untouched()
      reads this, packets.Values
    {
      packets.Keys == kept.Keys && forall k {:trigger Inspect(k)} :: k in packets && Inspect(k) ==> packets[k][..] == kept[k]
    }

    constructor ()
      ensures Untouched() && packets == map[] && kept == map[] && queue == []
    {
      packets, kept, queue := map[], map[], [];
    }

    method LookupBacklog(seqno: u16) returns (packet: Bytes, ok: bool)
      requires Untouched()
      ensures ok <==> seqno in kept
      ensures ok ==> packet == kept[seqno]
    {
      packet, ok := [], seqno in packets;
      if ok {
        assert Inspect(seqno);
        packet := packets[seqno][..];
      }
    }

    method RememberPacket(seqno: u16, packet: array<byte>)
      requires Untouched()
      modifies this
      ensures Untouched() && packets.Values <= old(packets.Values) + {packet}
      ensures (kept, queue) == Remember(old(kept), old(queue), seqno, packet[..])
    {
      if seqno !in packets {
        queue := queue + [seqno];
      }
      packets, kept := packets[seqno := packet], kept[seqno := packet[..]];
      while |queue| > BACKLOG_SIZE
        invariant Untouched() && packets.Values <= old(packets.Values) + {packet}
        invariant Trim(kept, queue) == Remember(old(kept), old(queue), seqno, packet[..])
        decreases |queue|
      {
        var oldest := queue[0];
        queue := queue[1..];
        packets, kept := packets - {oldest}, kept - {oldest};
      }
    }
  }
}
