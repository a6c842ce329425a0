/** The PCM reader the streaming loop consumes, and io.ReadFull over it. */
module PcmSource {
  import opened Words

  datatype ReadError = NoError | EOF | UnexpectedEOF | Failure

  /**
   An io.Reader: each Read hands out any number of the remaining bytes that fit, may return nothing for a finite
   number of times, may fail, and reports EOF only once nothing remains (with the last bytes or after them). It may
   also report io.ErrUnexpectedEOF, which its callers take for the end: it is then cut short.
   */
  class Source {
    var rest: Bytes
    var stalls: nat
    var cut: bool

    constructor (data: Bytes, stalls: nat)
      ensures rest == data && !cut
    {
      rest, this.stalls, cut := data, stalls, false;
    }

    /** The source has come to what its callers take for its end. */
    predicate Over()
      reads this
    {
      rest == [] || cut
    }

    method Read(p: array<byte>, at: nat) returns (n: nat, err: ReadError)
      requires at < p.Length
      modifies this, p
      ensures at + n <= p.Length
      ensures p[..at] == old(p[..at]) && p[at + n..] == old(p[at + n..])
      ensures n <= old(|rest|) && p[at..at + n] == old(rest[..n]) && rest == old(rest[n..])
      ensures (err == EOF ==> rest == []) && (old(cut) || err == UnexpectedEOF <==> cut)
      ensures n == 0 && err == NoError ==> stalls < old(stalls)
      ensures stalls <= old(stalls)
    {
      var chunk: int := *;
      n := if chunk < 0 then 0 else chunk;
      if n > |rest| {
        n := |rest|;
      }
      if n > p.Length - at {
        n := p.Length - at;
      }
      forall i | 0 <= i < n {
        p[at + i] := rest[i];
      }
      rest := rest[n..];
      err := *;
      if err == EOF && rest != [] {
        err := Failure;
      }
      if n == 0 && err == NoError {
        if stalls == 0 {
          err := if rest == [] then EOF else Failure;
        } else {
          stalls := stalls - 1;
        }
      }
      cut := cut || err == UnexpectedEOF;
    }
  }

  /**
   io.ReadFull: fills the buffer, or stops at the end of the source or at an error. A source that ends exactly at
   the buffer's end is reported only by the next call.
   */
  method ReadFull(r: Source, buf: array<byte>) returns (n: nat, err: ReadError)
    requires buf.Length > 0
    modifies r, buf
    ensures n <= buf.Length && n <= old(|r.rest|)
    ensures buf[..n] == old(r.rest[..n]) && buf[n..] == old(buf[n..])
    ensures r.rest == old(r.rest[n..])
    ensures err == NoError <==> n == buf.Length
    ensures err == EOF ==> n == 0 && r.rest == []
    ensures err == UnexpectedEOF ==> (0 < n && r.rest == []) || r.cut
    ensures !old(r.cut) && r.cut ==> err == UnexpectedEOF || err == NoError
  {
    n, err := 0, NoError;
    while n < buf.Length && err == NoError
      invariant n <= buf.Length && n <= old(|r.rest|)
      invariant buf[..n] == old(r.rest[..n]) && buf[n..] == old(buf[n..])
      invariant r.rest == old(r.rest[n..])
      invariant (err == EOF ==> r.rest == []) && (err == UnexpectedEOF ==> r.cut)
      invariant r.cut <==> old(r.cut) || err == UnexpectedEOF
      decreases if err == NoError then 1 else 0, |r.rest|, r.stalls
    {
      label before:
      var k;
      k, err := r.Read(buf, n);
      assert buf[..n + k] == old@before(buf[..n]) + buf[n..n + k];
      assert old(r.rest[..n + k]) == old(r.rest[..n]) + old(r.rest[n..])[..k];
      assert buf[n + k..] == old@before(buf[n..])[k..];
      n := n + k;
    }
    if n >= buf.Length {
      err := NoError;
    } else if n > 0 && err == EOF {
      err := UnexpectedEOF;
    }
  }
}
