# partpd RTP relay: a Dafny model of the packet state machine

partpd receives an RTP audio stream over UDP and writes the payload of each
packet into a non-blocking pipe, which a PulseAudio pipe source reads as
plain PCM. This project models the core of that program, the receive loop
`run()` in `partpd.c` and its `NEXTSEQ` macro. Each turn of the loop does
the following:

- it receives one datagram into a 4096-octet buffer, or learns that the
  receive timed out, was interrupted or failed;
- it validates the RTP fixed header (section 5.1 of RFC 3550). It accepts
  version 2 only, and rejects padding and header extensions;
- it reads the CSRC count, payload type, sequence number, timestamp and SSRC;
- while no peer is associated, the first valid datagram creates the
  association, and the sequence tracker then expects the successor of its
  sequence number;
- while associated, a frame whose sequence number is below the expected one
  is dropped as stale. Otherwise it is accepted, and the expected number
  moves past it;
- a receive timeout dissolves the association;
- the payload is written to the sink. A full sink loses that one frame, and
  any other write error ends the process.

The modules follow that structure:

- `Wire`: octets and 16- and 32-bit fields in network byte order.
- `Rtp`: the receive buffer, header validation and parsing, and a
  conforming sender's encoder, which is the decoder's partner.
- `Tracker`: `NextSeq` and the sequence decision. It also holds the circular
  (modulo 2^16) distance as a reference definition.
- `Relay`: the loop as a pure step function over `(connected, expected)`.
  It also has the fold `Run`, a method `Serve` that loops and is proved equal
  to `Run`, and the properties of the loop.
- `Scenarios`: concrete runs on encoded packets.

Octets are integers in [0, 255]. On such a value the C shifts and masks are
exact divisions and remainders. `b >> 6` is `b / 64`, `(b >> 5) & 1` is
`(b / 32) % 2`, `b & 0x0F` is `b % 16` and `b & 0x7F` is `b % 128`, and the
model writes them that way.

**Sequence comparison.** RTP sequence numbers wrap modulo 2^16 (section
5.1 of RFC 3550), so a wrap-aware receiver compares them by their signed
16-bit distance. This program does not: it compares the two `uint16_t`
values as plain integers (`partpd.c:141-149`), and the model does the same.
`Tracker.Track` is that plain comparison. `Tracker.CircularDelta` is the
signed circular distance, defined as a reference, and
`Tracker.LinearAgreesWithCircularIff` proves that the two agree on whether
a frame is behind exactly when the raw difference `sequence - expected`
lies in [-32768, 32767].

Where they disagree is stated in three places:

- `Tracker.WrapIsBehind`: with 65535 expected, packet 0 is one step ahead
  on the circle (a gap of one lost packet), but the plain comparison calls
  it behind.
- `Scenarios.WrapAfterLossDropped`: so that packet is dropped as stale.
- `Relay.StallsBelowExpected`: whatever number E is expected, every valid
  datagram numbered below E is dropped, and E stays expected. So once the
  stream wraps past E without delivering a frame numbered E or more (for
  example, when 65534 and 65535 are both lost, 65534 stays expected), every
  later datagram is dropped until the numbers climb back to E.
- `Relay.MissedWrapDropsAll`: the instance with 65535 expected, where a
  lost packet 65535 stalls the stream until that number comes round again.

A stream that arrives strictly in order does pass the wrap
(`Relay.InOrderStreamForwarded`).

## Model

| member | source | states |
|---|---|---|
| Tracker.NextSeq | partpd.c:38 | the successor of a 16-bit sequence number is (s + 1) mod 65536, so 65535 is followed by 0 |
| Tracker.InOrderThroughWrap | partpd.c:38 | 65535 then 0 are each in order, and after them 0 and then 1 are expected |
| Wire.Be16RoundTrip | partpd.c:124-128 | `Be16`, the value `ntohs` gives for two copied octets, reads back unchanged a 16-bit value written most significant octet first |
| Wire.Be16Canonical | partpd.c:124-128 | every two octets are the big-endian encoding of the value `Be16` (`ntohs`) reads from them, so the read loses nothing |
| Wire.Be32RoundTrip | partpd.c:125-130 | `Be32`, the value `ntohl` gives for four copied octets, reads back unchanged a 32-bit value written in network byte order |
| Wire.Be32Canonical | partpd.c:125-130 | every four octets are the big-endian encoding of the value `Be32` (`ntohl`) reads from them |
| Rtp.Received | partpd.c:86-87 | the receive keeps a prefix of the datagram: all of it, or its first 4096 octets when it is longer |
| Rtp.Decode | partpd.c:96-138 | exactly the buffers shorter than 12 octets are rejected as too short; an accepted frame has a header with CC <= 15 and PT < 128, a header length (`HeaderLength`, line 132's `metadata_size`) of 12 + 4*CC within [12, 72], and a header length plus payload length equal to the buffer length (line 138's `data_size`) |
| Rtp.FirstOctetFields | partpd.c:103-121 | the tests `Version`, `PaddingBit` and `ExtensionBit` (lines 104, 110 and 116) select octet ranges: version 2 is [0x80, 0xBF], P is set in [0xA0, 0xBF], X is set in [0x90, 0x9F] and [0xB0, 0xBF], all three checks pass exactly on [0x80, 0x8F], and there the CSRC count of line 121 is the octet minus 0x80 |
| Rtp.ParseHeader | partpd.c:121-130 | the fields read from the first twelve octets fit their wire widths (CC in 4 bits, PT in 7 bits) |
| Rtp.AcceptedIff | partpd.c:98-136 | a buffer is accepted if and only if it holds 12 octets, its first octet is in [0x80, 0x8F] (version 2, P clear, X clear), and it holds the 12 + 4*CC octets that octet announces |
| Rtp.RejectionOrder | partpd.c:98-136 | each rejection reason holds exactly for its range of first octets: a version other than 2 is reported before padding, padding before the extension bit, and the extension bit before a short CSRC list |
| Rtp.FieldsAtOffsets | partpd.c:121-130 | CC is the low nibble of octet 0 and PT the low seven bits of octet 1; the sequence number, timestamp and SSRC are the big-endian values at offsets 2, 4 and 8 |
| Rtp.DecodeEncode | partpd.c:96-138 | a datagram built by a conforming sender decodes to the header it was built from, and its payload is exactly the payload sent |
| Rtp.EncodeDecode | partpd.c:96-138 | every accepted buffer is what a conforming sender builds from the parsed header, the marker bit, the skipped CSRC octets and the payload, so the parse loses nothing else |
| Tracker.Track | partpd.c:140-149 | a frame is Behind if and only if its number is below the expected one, and InOrder if and only if it is equal; Behind keeps the expected number, and otherwise the successor of the frame's number is expected |
| Tracker.LinearAgreesWithCircularIff | partpd.c:141-147 | the plain comparison and the circular distance agree on "behind" if and only if sequence - expected lies in [-32768, 32767] |
| Tracker.WrapIsBehind | partpd.c:141-147 | with 65535 expected, 0 is Behind and the expected number stays 65535, although 0 is one step ahead on the circle |
| Tracker.ExpectingLastStalls | partpd.c:141-147 | with 65535 expected, every other number is Behind and leaves 65535 expected |
| Relay.Deliver | partpd.c:170-177 | a successful write forwards the payload, a full sink (EAGAIN/EWOULDBLOCK) loses exactly that payload and reports its sequence number and timestamp, and any other write error, and only that, is fatal |
| Relay.Step | partpd.c:62-177 | rejected, stale and idle turns leave the state unchanged; a disconnect happens exactly on a timeout while associated; a frame is forwarded or overruns only from a datagram, and it leaves the relay associated |
| Relay.ArrivalReported | partpd.c:140-160 | a delivered frame reports the association exactly when none existed, with the frame's payload type (line 160); otherwise it reports the frame's own number, the number expected before it, and whether it was in order or ahead (line 142's out-of-order report prints the first two) |
| Relay.Run | partpd.c:62-178 | the loop yields at most one action per input, yields no fatal action before its last, and stops early only at a fatal action |
| Relay.Serve | partpd.c:62-178 | the imperative loop produces the same final state and actions as `Run` from the unassociated start |
| Relay.ReceiveOutcomes | partpd.c:63-94 | a timeout dissolves an association and is a no-op when unassociated, an interrupted receive changes nothing, and any other receive error is fatal |
| Relay.ShortDatagramRejected | partpd.c:98-101 | a datagram shorter than 12 octets is rejected as too short, with no state change, whatever the sink would do |
| Relay.RejectionKeepsState | partpd.c:98-136 | a datagram that fails validation is reported with its reason and changes neither the association nor the expected number |
| Relay.AssociationResetsTracker | partpd.c:150-164 | while unassociated, a valid datagram associates, sets the expected number to (sequence + 1) mod 65536 regardless of the old value, and is delivered |
| Relay.ConnectedAcceptIff | partpd.c:140-167 | while associated, a valid frame is delivered if and only if its number is not below the expected one; a delivered frame moves the expected number to (sequence + 1) mod 65536 and reports whether it was in order or ahead; a dropped frame leaves the state as it was and reports its number and the expected one (line 146) |
| Relay.ForwardedPayloadIsSuffix | partpd.c:132-170 | a forwarded payload (`Payload`, line 170's `buffer + metadata_size` of `data_size` octets) is exactly the buffer after the 12 + 4*CC header octets, and it is at most 4096 - 12 octets long |
| Relay.WriteOutcomeOnlyChangesAction | partpd.c:170-177 | the sink's answer does not affect the tracker: a full sink gives the same next state with the frame lost, and any other write error is fatal |
| Relay.InOrderStreamForwarded | partpd.c:140-149 | an associated stream numbered e, e+1, ... modulo 65536 is forwarded in full, through any number of wraps, and ends expecting (e + n) mod 65536 |
| Relay.StallsBelowExpected | partpd.c:140-149 | with any number E expected, a stream of valid datagrams all numbered below E is dropped frame by frame, each reported with its own number and E (line 146), and the state never changes |
| Relay.MissedWrapDropsAll | partpd.c:140-149 | once 65535 is expected, a stream that never carries 65535 is dropped frame by frame, each frame reported with its number and 65535, and the state never changes |
| Scenarios.FirstDatagramAssociates | partpd.c:150-164 | the first datagram, numbered 1000, forms the association, reported with payload type 10; 1001 is expected next, and its payload is forwarded |
| Scenarios.InOrderForwarded | partpd.c:148-149 | with 1001 expected, packet 1001 is in order and forwarded, and 1002 is expected next |
| Scenarios.StaleDropped | partpd.c:145-147 | with 1002 expected, packet 1000 is dropped and 1002 is still expected |
| Scenarios.GapAccepted | partpd.c:141-143 | with 1002 expected, packet 1010 is reported out of order (ahead of 1002), accepted and forwarded, and 1011 is expected next |
| Scenarios.WrapAfterLossDropped | partpd.c:141-147 | with 65535 expected, packet 0 is dropped as stale, although on the circle it is one step ahead |
| Scenarios.WrapInOrderForwarded | partpd.c:141-149 | with 65535 expected, packets 65535 then 0 are both forwarded, and 1 is expected next |
| Scenarios.IdleThenReassociate | partpd.c:69-80 | a timeout while associated disconnects, a second timeout is idle, and the next datagram (numbered 500) re-associates and is forwarded |
| Scenarios.BackpressureDropsOneFrame | partpd.c:170-175 | a full sink loses exactly one frame, reported with its number 7 and timestamp; the tracker still counts it as received, and the next frame is forwarded |
| Scenarios.WriteErrorIsFatal | partpd.c:170-177 | a write error other than a full sink ends the run at that frame |

## Left out

- Socket setup is not modelled: `socket`, `bind`, `SO_REUSEADDR`, `SO_RCVTIMEO` and opening the pipe non-blocking (`main`, from line 182). These are OS calls, and the model starts from their result.
- The argument parsing and port range check in `main` are not modelled. They are plumbing outside the loop.
- The length of the receive timeout is not modelled. A receive that times out is an input event, `Timeout`, so the clock is not part of the model.
- `connect()` to the peer and `connect(AF_UNSPEC)` to dissolve the association are not modelled, and neither are their failures, which are fatal in the C. These are OS calls on addresses the model does not carry.
- Peer addresses are not modelled. The kernel drops datagrams from other sources once the socket is connected, so the model's datagram events are those the socket delivers.
- Log text is not modelled: the wording of the `fprintf` messages, `inet_ntop` and the peer port. These are output only. The actions carry the values the messages print, except as the next two lines say.
- The peer address and port of the association message are not carried, because the model has no addresses. The association is reported with its payload type only.
- Relay.Step: when the write of an out-of-order or associating frame then fails fatally, the action is `Fatal` alone. The out-of-order or association message printed before the failed write is not carried.
- Ignoring `SIGPIPE` is not modelled, and `perror`/`exit` are modelled only as the `Fatal` action. These are process-level effects.
- Relay.Deliver: a partial write (`0 <= rv < data_size`) counts as `Written`, as the C does. The unwritten tail of the payload is not modelled.
- Rtp.ParseHeader: the marker bit and the CSRC identifiers are not read, as in the C. `Rtp.EncodeDecode` shows that they are the only parts of the header the parse leaves out.
- The SSRC is parsed and never used. The timestamp appears only in the overrun report, which `Relay.Deliver` states. No state transition depends on either.
- The receive loop runs forever in the C. `Relay.Run` and `Relay.Serve` consume a finite sequence of inputs, which is any prefix of a run.
