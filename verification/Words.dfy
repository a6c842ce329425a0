/** Fixed-width machine words, and the big-endian layout every RAOP datagram uses. */
module Words {

  type byte = i: int | 0 <= i < 0x100
  type u16 = i: int | 0 <= i < 0x1_0000
  type u32 = i: int | 0 <= i < 0x1_0000_0000
  type u64 = i: int | 0 <= i < 0x1_0000_0000_0000_0000
  type Bytes = seq<byte>

  datatype Option<T> = None | Some(value: T)

  /** Conversions that drop the high bits, as Go's uint16(x), uint32(x) and uint64(x) do. */
  function W16(x: int): u16 { x % 0x1_0000 }
  function W32(x: int): u32 { x % 0x1_0000_0000 }
  function W64(x: int): u64 { x % 0x1_0000_0000_0000_0000 }

  /** Two's complement reading of the low 32 (64) bits: int32(x) and int64(x). */
  function S32(x: int): int {
    var w := W32(x);
    if w < 0x8000_0000 then w else w - 0x1_0000_0000
  }

  function S64(x: int): int {
    var w := W64(x);
    if w < 0x8000_0000_0000_0000 then w else w - 0x1_0000_0000_0000_0000
  }

  /** Go's integer division truncates towards zero. */
  function TruncDiv(a: int, b: int): int
    requires b > 0
  {
    if a >= 0 then a / b else -((-a) / b)
  }

  function Min(a: int, b: int): int { if a < b then a else b }

  function Zeros(n: nat): Bytes { seq(n, i => 0) }

  function PutBE16(x: u16): Bytes { [x / 0x100, x % 0x100] }

  function PutBE32(x: u32): Bytes {
    [x / 0x100_0000, x / 0x1_0000 % 0x100, x / 0x100 % 0x100, x % 0x100]
  }

  function GetBE16(b: Bytes, at: nat): u16
    requires at + 2 <= |b|
  {
    b[at] as int * 0x100 + b[at + 1]
  }

  function GetBE32(b: Bytes, at: nat): u32
    requires at + 4 <= |b|
  {
    b[at] as int * 0x100_0000 + b[at + 1] as int * 0x1_0000 + b[at + 2] as int * 0x100 + b[at + 3]
  }

  /** binary.BigEndian.PutUint16: fills two bytes of the packet and nothing else. */
  method PutUint16(packet: array<byte>, at: nat, x: u16)
    requires at + 2 <= packet.Length
    modifies packet
    ensures packet[..] == old(packet[..at]) + PutBE16(x) + old(packet[at + 2..])
  {
    packet[at], packet[at + 1] := x / 0x100, x % 0x100;
  }

  /** binary.BigEndian.PutUint32: fills four bytes of the packet and nothing else. */
  method PutUint32(packet: array<byte>, at: nat, x: u32)
    requires at + 4 <= packet.Length
    modifies packet
    ensures packet[..] == old(packet[..at]) + PutBE32(x) + old(packet[at + 4..])
  {
    packet[at], packet[at + 1] := x / 0x100_0000, x / 0x1_0000 % 0x100;
    packet[at + 2], packet[at + 3] := x / 0x100 % 0x100, x % 0x100;
  }

  lemma BigEndian16(b: Bytes, at: nat, x: u16)
    requires at + 2 <= |b| && b[at..at + 2] == PutBE16(x)
    ensures GetBE16(b, at) == x
  {
    assert b[at] == b[at..at + 2][0] && b[at + 1] == b[at..at + 2][1];
  }

  lemma BigEndian32(b: Bytes, at: nat, x: u32)
    requires at + 4 <= |b| && b[at..at + 4] == PutBE32(x)
    ensures GetBE32(b, at) == x
  {
    var f := b[at..at + 4];
    assert b[at] == f[0] && b[at + 1] == f[1] && b[at + 2] == f[2] && b[at + 3] == f[3];
    assert x / 0x1_0000 == 0x100 * (x / 0x100_0000) + x / 0x1_0000 % 0x100;
    assert x / 0x100 == 0x100 * (x / 0x1_0000) + x / 0x100 % 0x100;
  }

  /** Adding to a word that already wrapped is adding before the wrap. */
  lemma WrapSum32(a: int, b: int)
    ensures W32(W32(a) + b) == W32(a + b)
  {
    assert a == 0x1_0000_0000 * (a / 0x1_0000_0000) + W32(a);
    assert a + b == 0x1_0000_0000 * (a / 0x1_0000_0000) + (W32(a) + b);
  }

  lemma WrapSum16(a: int, b: int)
    ensures W16(W16(a) + b) == W16(a + b)
  {
    assert a + b == 0x1_0000 * (a / 0x1_0000) + (W16(a) + b);
  }

  lemma WrapSum64(a: int, b: int)
    ensures W64(W64(a) + b) == W64(a + b)
  {
    assert a + b == 0x1_0000_0000_0000_0000 * (a / 0x1_0000_0000_0000_0000) + (W64(a) + b);
  }

  /** Words at most half a circle apart are equal only when their sources are. */
  lemma Distinct16(a: int, b: int)
    requires -0x1_0000 < a - b < 0x1_0000
    ensures W16(a) == W16(b) <==> a == b
  {}
}
