/** Octets and the fixed-width unsigned integers of an RTP fixed header, read
    and written in network byte order (most significant octet first). */
module Wire {

  /** One octet of a received datagram, as the C `unsigned char` value. */
  type byte = x: int | 0 <= x < 0x100

  /** The C types `uint16_t` and `uint32_t`, as integers in range. */
  type u16 = x: int | 0 <= x < 0x1_0000
  type u32 = x: int | 0 <= x < 0x1_0000_0000

  /** The value of two octets in network byte order (`ntohs` of a 16-bit field). */
  function Be16(b: seq<byte>): (v: u16)
    requires |b| == 2
  {
    b[0] as int * 0x100 + b[1] as int
  }

  /** The value of four octets in network byte order (`ntohl` of a 32-bit field). */
  function Be32(b: seq<byte>): (v: u32)
    requires |b| == 4
  {
    Be16(b[..2]) * 0x1_0000 + Be16(b[2..])
  }

  /** The two octets that carry `v` in network byte order. */
  function Be16Bytes(v: u16): (b: seq<byte>)
    ensures |b| == 2
  {
    [v / 0x100, v % 0x100]
  }

  /** The four octets that carry `v` in network byte order. */
  function Be32Bytes(v: u32): (b: seq<byte>)
    ensures |b| == 4
  {
    Be16Bytes(v / 0x1_0000) + Be16Bytes(v % 0x1_0000)
  }

  /** Reading back a written 16-bit field gives the value written. */
  lemma Be16RoundTrip(v: u16)
    ensures Be16(Be16Bytes(v)) == v
  {
  }

  /** Every pair of octets is the encoding of the value read from it. */
  lemma Be16Canonical(b: seq<byte>)
    requires |b| == 2
    ensures Be16Bytes(Be16(b)) == b
  {
    assert Be16(b) / 0x100 == b[0];
    assert Be16(b) % 0x100 == b[1];
  }

  /** Reading back a written 32-bit field gives the value written. */
  lemma Be32RoundTrip(v: u32)
    ensures Be32(Be32Bytes(v)) == v
  {
    var b := Be32Bytes(v);
    assert b[..2] == Be16Bytes(v / 0x1_0000);
    assert b[2..] == Be16Bytes(v % 0x1_0000);
    Be16RoundTrip(v / 0x1_0000);
    Be16RoundTrip(v % 0x1_0000);
  }

  /** Every quadruple of octets is the encoding of the value read from it. */
  lemma Be32Canonical(b: seq<byte>)
    requires |b| == 4
    ensures Be32Bytes(Be32(b)) == b
  {
    var hi, lo := Be16(b[..2]), Be16(b[2..]);
    assert Be32(b) / 0x1_0000 == hi;
    assert Be32(b) % 0x1_0000 == lo;
    Be16Canonical(b[..2]);
    Be16Canonical(b[2..]);
  }
}
