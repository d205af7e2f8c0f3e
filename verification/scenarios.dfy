/** Concrete runs of the relay on packets a conforming sender builds: the
    association, in-order, stale, gap, wrap, idle-disconnect and sink
    backpressure cases, each stated as the exact state and action. */
module Scenarios {
  import opened Wire
  import opened Rtp
  import opened Tracker
  import opened Relay

  /** A four-octet payload used in every scenario. */
  const Audio: seq<byte> := [1, 2, 3, 4]

  /** A packet with no CSRCs, payload type 10 and the given sequence number. */
  function Packet(sequence: u16): (d: seq<byte>)
    ensures |d| == FixedHeaderSize + |Audio|
  {
    Encode(Header(0, 10, sequence, 0, 0), false, [], Audio)
  }

  /** The relay reads back the packet's sequence number and payload. */
  lemma PacketDecodes(sequence: u16)
    ensures Received(Packet(sequence)) == Packet(sequence)
    ensures Decode(Packet(sequence)) == Ok(Frame(Header(0, 10, sequence, 0, 0), FixedHeaderSize, |Audio|))
    ensures Payload(Packet(sequence), Frame(Header(0, 10, sequence, 0, 0), FixedHeaderSize, |Audio|)) == Audio
  {
    DecodeEncode(Header(0, 10, sequence, 0, 0), false, [], Audio);
  }

  /** Every step on such a packet: unassociated, it associates; associated
      and behind, it is stale; otherwise it is delivered with its verdict.
      Either way a delivered packet leaves its successor expected. */
  lemma PacketStep(s: State, sequence: u16, w: WriteResult)
    ensures Step(s, Datagram(Packet(sequence)), w) ==
      if !s.connected then
        (State(true, NextSeq(sequence)), Deliver(Audio, Associated(10), Header(0, 10, sequence, 0, 0), w))
      else if sequence < s.expected then (s, Stale(sequence, s.expected))
      else
        (State(true, NextSeq(sequence)),
         Deliver(Audio, Continued(Track(sequence, s.expected).verdict, sequence, s.expected), Header(0, 10, sequence, 0, 0), w))
  {
    PacketDecodes(sequence);
  }

  /** Two inputs in a row, neither fatal. */
  lemma RunTwo(s: State, a: Input, b: Input)
    requires Step(s, a.event, a.write).1 != Fatal
    requires Step(Step(s, a.event, a.write).0, b.event, b.write).1 != Fatal
    ensures var first := Step(s, a.event, a.write);
      var second := Step(first.0, b.event, b.write);
      Run(s, [a, b]) == (second.0, [first.1, second.1])
  {
    RunUnfold(s, [a, b]);
    assert [a, b][1..] == [b];
    var first := Step(s, a.event, a.write);
    var second := Step(first.0, b.event, b.write);
    RunUnfold(first.0, [b]);
    assert [b][1..] == [];
    assert Run(second.0, []) == (second.0, []);
    assert [second.1] + [] == [second.1];
    assert Run(first.0, [b]) == (second.0, [second.1]);
    assert [first.1] + [second.1] == [first.1, second.1];
  }

  /** The first datagram, numbered 1000, forms the association, reported
      with its payload type; 1001 is expected next and the payload is
      forwarded. */
  lemma FirstDatagramAssociates()
    ensures Step(Initial, Datagram(Packet(1000)), Written) == (State(true, 1001), Forward(Audio, Associated(10)))
  {
    PacketStep(Initial, 1000, Written);
  }

  /** With 1001 expected, packet 1001 is in order and forwarded. */
  lemma InOrderForwarded()
    ensures Step(State(true, 1001), Datagram(Packet(1001)), Written)
            == (State(true, 1002), Forward(Audio, Continued(InOrder, 1001, 1001)))
  {
    PacketStep(State(true, 1001), 1001, Written);
  }

  /** With 1002 expected, an already seen 1000 is stale and dropped. */
  lemma StaleDropped()
    ensures Step(State(true, 1002), Datagram(Packet(1000)), Written) == (State(true, 1002), Stale(1000, 1002))
  {
    PacketStep(State(true, 1002), 1000, Written);
  }

  /** With 1002 expected, 1010 is ahead: it is reported out of order, the
      gap is accepted and 1011 is expected next. */
  lemma GapAccepted()
    ensures Step(State(true, 1002), Datagram(Packet(1010)), Written)
            == (State(true, 1011), Forward(Audio, Continued(Ahead, 1010, 1002)))
  {
    PacketStep(State(true, 1002), 1010, Written);
  }

  /** With 65535 expected, packet 0 is dropped as stale, because the
      comparison is not circular; on the circle it is one step ahead. */
  lemma WrapAfterLossDropped()
    ensures Step(State(true, 0xFFFF), Datagram(Packet(0)), Written) == (State(true, 0xFFFF), Stale(0, 0xFFFF))
  {
    PacketStep(State(true, 0xFFFF), 0, Written);
  }

  /** In order through the wrap, 65535 then 0 are both forwarded. */
  lemma WrapInOrderForwarded()
    ensures Run(State(true, 0xFFFF), [Input(Datagram(Packet(0xFFFF)), Written), Input(Datagram(Packet(0)), Written)])
            == (State(true, 1), [Forward(Audio, Continued(InOrder, 0xFFFF, 0xFFFF)), Forward(Audio, Continued(InOrder, 0, 0))])
  {
    PacketStep(State(true, 0xFFFF), 0xFFFF, Written);
    PacketStep(State(true, 0), 0, Written);
    RunTwo(State(true, 0xFFFF), Input(Datagram(Packet(0xFFFF)), Written), Input(Datagram(Packet(0)), Written));
  }

  /** An idle timeout dissolves the association once, and the next
      datagram, whatever its number, forms a new one. */
  lemma IdleThenReassociate()
    ensures Run(State(true, 1002), [Input(Timeout, Written), Input(Timeout, Written), Input(Datagram(Packet(500)), Written)])
            == (State(true, 501), [Disconnect, Idle, Forward(Audio, Associated(10))])
  {
    var inputs := [Input(Timeout, Written), Input(Timeout, Written), Input(Datagram(Packet(500)), Written)];
    var tail := [Input(Timeout, Written), Input(Datagram(Packet(500)), Written)];
    ReceiveOutcomes(State(true, 1002), Written);
    ReceiveOutcomes(State(false, 1002), Written);
    PacketStep(State(false, 1002), 500, Written);
    RunUnfold(State(true, 1002), inputs);
    assert inputs[1..] == tail;
    RunTwo(State(false, 1002), tail[0], tail[1]);
    assert [Disconnect] + [Idle, Forward(Audio, Associated(10))] == [Disconnect, Idle, Forward(Audio, Associated(10))];
  }

  /** A full sink loses exactly one frame, reported with its sequence
      number and timestamp; the next write forwards again and the tracker
      has counted the lost frame as received. */
  lemma BackpressureDropsOneFrame()
    ensures Run(State(true, 7), [Input(Datagram(Packet(7)), WouldBlock), Input(Datagram(Packet(8)), Written)])
            == (State(true, 9), [Overrun(Audio, Continued(InOrder, 7, 7), 7, 0), Forward(Audio, Continued(InOrder, 8, 8))])
  {
    PacketStep(State(true, 7), 7, WouldBlock);
    PacketStep(State(true, 8), 8, Written);
    RunTwo(State(true, 7), Input(Datagram(Packet(7)), WouldBlock), Input(Datagram(Packet(8)), Written));
  }

  /** Any other write error ends the run at that frame. */
  lemma WriteErrorIsFatal()
    ensures Run(State(true, 7), [Input(Datagram(Packet(7)), WriteFailed), Input(Datagram(Packet(8)), Written)])
            == (State(true, 8), [Fatal])
  {
    var inputs := [Input(Datagram(Packet(7)), WriteFailed), Input(Datagram(Packet(8)), Written)];
    PacketStep(State(true, 7), 7, WriteFailed);
    RunUnfold(State(true, 7), inputs);
  }
}
