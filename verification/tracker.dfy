/** The sequence tracker of the relay: the expected next RTP sequence number
    and the rule that decides, from a received sequence number, whether a
    frame is forwarded. The rule compares the two 16-bit numbers as plain
    unsigned integers; the circular distance of section 5.1 of RFC 3550
    (sequence numbers wrap modulo 2^16) is defined alongside as a reference,
    and the lemmas at the end say exactly where the two agree. */
module Tracker {
  import opened Wire

  /** Number of distinct 16-bit sequence numbers. */
  const SeqSpace: int := 0x1_0000

  /** The successor of a sequence number, 65535 wrapping to 0. */
  function NextSeq(s: u16): (n: u16)
    ensures n == (s + 1) % SeqSpace
  {
    if s == 0xFFFF then 0 else s + 1
  }

  /** How a received sequence number compares with the expected one. */
  datatype Verdict =
    | InOrder  // equal to the expected number
    | Ahead    // greater: packets in between were lost or reordered
    | Behind   // smaller: a duplicate or late packet

  /** The verdict and the expected number after one frame. */
  datatype Tracked = Tracked(verdict: Verdict, expected: u16)

  /** The tracker's decision for one frame received while associated. */
  function Track(sequence: u16, expected: u16): (t: Tracked)
    ensures t.verdict == Behind <==> sequence < expected
    ensures t.verdict == InOrder <==> sequence == expected
    ensures t.verdict == Behind ==> t.expected == expected
    ensures t.verdict != Behind ==> t.expected == (sequence + 1) % SeqSpace
  {
    if sequence > expected then Tracked(Ahead, NextSeq(sequence))
    else if sequence < expected then Tracked(Behind, expected)
    else Tracked(InOrder, NextSeq(sequence))
  }

  /** Reference definition: the signed distance from `expected` forward to
      `sequence` on the 16-bit circle, chosen in [-32768, 32767]. */
  function CircularDelta(sequence: u16, expected: u16): (d: int)
    ensures -0x8000 <= d < 0x8000
    ensures (expected + d) % SeqSpace == sequence
  {
    var raw := sequence - expected;
    if raw >= 0x8000 then raw - SeqSpace
    else if raw < -0x8000 then raw + SeqSpace
    else raw
  }

  /** The circular distance is the only value in its window that lands on
      `sequence`: it is what the reference classification is about. */
  lemma CircularDeltaUnique(sequence: u16, expected: u16, d: int)
    requires -0x8000 <= d < 0x8000
    requires (expected + d) % SeqSpace == sequence
    ensures d == CircularDelta(sequence, expected)
  {
    var c := CircularDelta(sequence, expected);
    assert (d - c) % SeqSpace == 0;
  }

  /** The plain comparison drops a frame exactly when the circular distance
      says it is behind, if and only if the raw difference lies in
      [-32768, 32767]. Outside that window the two disagree. */
  lemma LinearAgreesWithCircularIff(sequence: u16, expected: u16)
    ensures ((Track(sequence, expected).verdict == Behind) <==> CircularDelta(sequence, expected) < 0)
            <==> -0x8000 <= sequence - expected < 0x8000
  {
  }

  /** Across the wrap the plain comparison drops a frame that is one step
      ahead on the circle: with 65535 expected, sequence 0 is Behind. */
  lemma WrapIsBehind()
    ensures Track(0, 0xFFFF) == Tracked(Behind, 0xFFFF)
    ensures CircularDelta(0, 0xFFFF) == 1
  {
  }

  /** Once 65535 is expected, every other sequence number is Behind, so a
      stream that lost the packet numbered 65535 is dropped until that
      number comes round again. */
  lemma ExpectingLastStalls(sequence: u16)
    requires sequence != 0xFFFF
    ensures Track(sequence, 0xFFFF).verdict == Behind
    ensures Track(sequence, 0xFFFF).expected == 0xFFFF
  {
  }

  /** A strictly in-order stream passes the wrap: 65535 then 0 are both
      in order. */
  lemma InOrderThroughWrap()
    ensures Track(0xFFFF, 0xFFFF) == Tracked(InOrder, 0)
    ensures Track(0, 0) == Tracked(InOrder, 1)
  {
  }
}
