/** The RTP fixed header of section 5.1 of RFC 3550, restricted as the relay
    restricts it: version 2, no padding, no header extension. A CSRC list is
    allowed; its entries are skipped, not read.

    The first octet is V(2 bits) P(1) X(1) CC(4) and the second M(1) PT(7).
    The C code tests them with shifts and masks on an `unsigned char`; on a
    value in [0, 255], `b >> k` is `b / 2^k` and `b & (2^k - 1)` is
    `b % 2^k`, which is how they are written here. */
module Rtp {
  import opened Wire

  /** Size of the receive buffer: a longer datagram is cut to this length. */
  const BufferSize: nat := 4096

  /** Octets in the fixed part of the header, before the CSRC list. */
  const FixedHeaderSize: nat := 12

  /** The largest CSRC count the 4-bit CC field can hold. */
  const MaxCsrcCount: nat := 15

  /** The header fields the relay reads. The marker bit and the CSRC
      identifiers are not read. */
  datatype Header = Header(
    csrcCount: nat,
    payloadType: nat,
    sequence: u16,
    timestamp: u32,
    ssrc: u32)
  {
    /** The field widths of the wire format: CC has 4 bits, PT has 7. */
    predicate Valid() {
      csrcCount <= MaxCsrcCount && payloadType < 0x80
    }
  }

  /** Octets before the payload: the fixed header plus four per CSRC. */
  function HeaderLength(csrcCount: nat): nat {
    FixedHeaderSize + 4 * csrcCount
  }

  /** A datagram that passed validation: its header and where its payload lies. */
  datatype Frame = Frame(header: Header, offset: nat, length: nat)

  /** Why a datagram was discarded, in the order the checks are made. */
  datatype Reject =
    | TooShort      // fewer octets than the fixed header
    | BadVersion    // version field other than 2
    | Padding       // P bit set
    | Extension     // X bit set
    | CsrcTooShort  // the CSRC list runs past the end of the datagram

  datatype Decoded = Ok(frame: Frame) | Err(reason: Reject)

  /** What a receive into the fixed-size buffer leaves of a datagram. */
  function Received(datagram: seq<byte>): (buf: seq<byte>)
    ensures |buf| <= BufferSize && |buf| <= |datagram|
    ensures buf == datagram[..|buf|]
    ensures |buf| == |datagram| || |buf| == BufferSize
  {
    if |datagram| <= BufferSize then datagram else datagram[..BufferSize]
  }

  /** The version field: the top two bits of the first octet. */
  function Version(b0: byte): nat { b0 / 0x40 }

  /** The padding bit, bit 5 of the first octet. */
  predicate PaddingBit(b0: byte) { (b0 / 0x20) % 2 == 1 }

  /** The extension bit, bit 4 of the first octet. */
  predicate ExtensionBit(b0: byte) { (b0 / 0x10) % 2 == 1 }

  /** The marker bit, the top bit of the second octet (not read by the relay). */
  predicate MarkerBit(b1: byte) { b1 / 0x80 == 1 }

  /** The validation and header parse applied to every received buffer. */
  function Decode(buf: seq<byte>): (r: Decoded)
    ensures r == Err(TooShort) <==> |buf| < FixedHeaderSize
    ensures r.Ok? ==> r.frame.header.Valid()
    ensures r.Ok? ==> FixedHeaderSize <= r.frame.offset <= HeaderLength(MaxCsrcCount)
    ensures r.Ok? ==> r.frame.offset == HeaderLength(r.frame.header.csrcCount)
    ensures r.Ok? ==> r.frame.offset + r.frame.length == |buf|
  {
    if |buf| < FixedHeaderSize then Err(TooShort)
    else if Version(buf[0]) != 2 then Err(BadVersion)
    else if PaddingBit(buf[0]) then Err(Padding)
    else if ExtensionBit(buf[0]) then Err(Extension)
    else
      var header := ParseHeader(buf);
      var hlen := HeaderLength(header.csrcCount);
      if hlen > |buf| then Err(CsrcTooShort)
      else Ok(Frame(header, hlen, |buf| - hlen))
  }

  /** The header fields read from the first twelve octets: CC is the low
      nibble of octet 0, PT the low seven bits of octet 1, and the sequence
      number, timestamp and SSRC are read in network byte order at offsets
      2, 4 and 8. */
  function ParseHeader(buf: seq<byte>): (h: Header)
    requires |buf| >= FixedHeaderSize
    ensures h.Valid()
  {
    Header(buf[0] % 0x10, buf[1] % 0x80,
           Be16(buf[2..4]), Be32(buf[4..8]), Be32(buf[8..12]))
  }

  /** The payload octets of a validated frame. */
  function Payload(buf: seq<byte>, f: Frame): (p: seq<byte>)
    requires f.offset <= |buf|
    ensures |p| == |buf| - f.offset
  {
    buf[f.offset..]
  }

  /** The twelve octets of the fixed header a conforming sender writes:
      version 2, no padding, no extension, the given marker bit. */
  function FixedHeaderOctets(h: Header, marker: bool): (d: seq<byte>)
    requires h.Valid()
    ensures |d| == FixedHeaderSize
  {
    [0x80 + h.csrcCount, (if marker then 0x80 else 0) + h.payloadType]
      + Be16Bytes(h.sequence) + Be32Bytes(h.timestamp) + Be32Bytes(h.ssrc)
  }

  /** The datagram a conforming sender builds from a header, marker bit,
      CSRC list and payload. */
  function Encode(h: Header, marker: bool, csrcs: seq<byte>, payload: seq<byte>): (d: seq<byte>)
    requires h.Valid() && |csrcs| == 4 * h.csrcCount
    ensures |d| == HeaderLength(h.csrcCount) + |payload|
  {
    FixedHeaderOctets(h, marker) + csrcs + payload
  }

  /** A datagram is accepted exactly when it holds the fixed header, its
      first octet lies in [0x80, 0x8F] (version 2, P and X clear) and it
      also holds the CSRC list that octet announces. */
  lemma AcceptedIff(buf: seq<byte>)
    ensures Decode(buf).Ok? <==>
      && |buf| >= FixedHeaderSize
      && 0x80 <= buf[0] < 0x90
      && FixedHeaderSize + 4 * (buf[0] as int - 0x80) <= |buf|
  {
  }

  /** The first-octet tests, read as ranges of octet values: version 2 is
      [0x80, 0xBF]; within it P is set in [0xA0, 0xBF] and X in
      [0x90, 0x9F] and [0xB0, 0xBF]; the CSRC count is the distance above
      the range's base. */
  lemma FirstOctetFields(b0: byte)
    ensures Version(b0) == 2 <==> 0x80 <= b0 < 0xC0
    ensures Version(b0) == 2 ==> (PaddingBit(b0) <==> 0xA0 <= b0)
    ensures Version(b0) == 2 ==> (ExtensionBit(b0) <==> 0x90 <= b0 < 0xA0 || 0xB0 <= b0)
    ensures Version(b0) == 2 && !PaddingBit(b0) && !ExtensionBit(b0) <==> 0x80 <= b0 < 0x90
    ensures 0x80 <= b0 < 0x90 ==> b0 % 0x10 == b0 - 0x80
  {
  }

  /** Each rejection reason, characterised by the range of the first octet:
      a reason is reported only when every earlier check passed, so a
      version-1 packet with P set is reported as a bad version, and a
      version-2 packet with both P and X set as padding. */
  lemma RejectionOrder(buf: seq<byte>)
    ensures Decode(buf) == Err(BadVersion) <==>
      |buf| >= FixedHeaderSize && !(0x80 <= buf[0] < 0xC0)
    ensures Decode(buf) == Err(Padding) <==>
      |buf| >= FixedHeaderSize && 0xA0 <= buf[0] < 0xC0
    ensures Decode(buf) == Err(Extension) <==>
      |buf| >= FixedHeaderSize && 0x90 <= buf[0] < 0xA0
    ensures Decode(buf) == Err(CsrcTooShort) <==>
      && |buf| >= FixedHeaderSize
      && 0x80 <= buf[0] < 0x90
      && FixedHeaderSize + 4 * (buf[0] as int - 0x80) > |buf|
  {
  }

  /** The fields of an accepted frame are the octets at their fixed
      offsets, most significant first. */
  lemma FieldsAtOffsets(buf: seq<byte>)
    requires Decode(buf).Ok?
    ensures Decode(buf).frame.header.csrcCount == buf[0] as int - 0x80
    ensures Decode(buf).frame.header.payloadType == buf[1] % 0x80
    ensures Decode(buf).frame.header.sequence == buf[2] as int * 0x100 + buf[3] as int
    ensures Decode(buf).frame.header.timestamp ==
      buf[4] as int * 0x100_0000 + buf[5] as int * 0x1_0000 + buf[6] as int * 0x100 + buf[7] as int
    ensures Decode(buf).frame.header.ssrc ==
      buf[8] as int * 0x100_0000 + buf[9] as int * 0x1_0000 + buf[10] as int * 0x100 + buf[11] as int
  {
  }

  /** Decoding what a conforming sender built recovers its header, and the
      payload the relay forwards is exactly the payload that was sent. */
  lemma DecodeEncode(h: Header, marker: bool, csrcs: seq<byte>, payload: seq<byte>)
    requires h.Valid() && |csrcs| == 4 * h.csrcCount
    ensures Decode(Encode(h, marker, csrcs, payload))
            == Ok(Frame(h, HeaderLength(h.csrcCount), |payload|))
    ensures Payload(Encode(h, marker, csrcs, payload),
                    Frame(h, HeaderLength(h.csrcCount), |payload|)) == payload
  {
    var d := Encode(h, marker, csrcs, payload);
    assert d[2..4] == Be16Bytes(h.sequence);
    assert d[4..8] == Be32Bytes(h.timestamp);
    assert d[8..12] == Be32Bytes(h.ssrc);
    assert d[HeaderLength(h.csrcCount)..] == payload;
    Be16RoundTrip(h.sequence);
    Be32RoundTrip(h.timestamp);
    Be32RoundTrip(h.ssrc);
  }

  /** Every accepted datagram is one a conforming sender could have built:
      the parse loses only the marker bit, the CSRC list and the payload,
      which are read back here from the datagram itself. */
  lemma EncodeDecode(buf: seq<byte>)
    requires Decode(buf).Ok?
    ensures buf == Encode(Decode(buf).frame.header, MarkerBit(buf[1]),
                          buf[FixedHeaderSize..Decode(buf).frame.offset],
                          Payload(buf, Decode(buf).frame))
  {
    var f := Decode(buf).frame;
    var d := FixedHeaderOctets(f.header, MarkerBit(buf[1]));
    AcceptedIff(buf);
    FieldOctetsBack(buf);
    assert d == [buf[0], buf[1]] + d[2..];
    assert buf[..FixedHeaderSize] == [buf[0], buf[1]] + buf[2..FixedHeaderSize];
    assert buf == buf[..FixedHeaderSize] + buf[FixedHeaderSize..f.offset] + buf[f.offset..];
  }

  /** Octets 2 to 11 are rebuilt from the sequence number, timestamp and SSRC. */
  lemma FieldOctetsBack(buf: seq<byte>)
    requires |buf| >= FixedHeaderSize
    ensures forall m: bool :: FixedHeaderOctets(ParseHeader(buf), m)[2..] == buf[2..FixedHeaderSize]
  {
    Be16Canonical(buf[2..4]);
    Be32Canonical(buf[4..8]);
    Be32Canonical(buf[8..12]);
    assert buf[2..FixedHeaderSize] == buf[2..4] + buf[4..8] + buf[8..12];
  }
}
