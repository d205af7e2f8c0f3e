/** One turn of the relay's receive loop: receive a datagram (or learn that
    the receive timed out or was interrupted), validate and parse it, update
    the peer association and the sequence tracker, and hand the payload to
    the non-blocking sink. The loop is a pure step function over the state
    `(connected, expected)`; the socket and the sink are inputs. */
module Relay {
  import opened Wire
  import opened Rtp
  import opened Tracker

  /** Whether a peer is associated, and the sequence number expected next.
      `expected` carries no meaning while unassociated. */
  datatype State = State(connected: bool, expected: u16)

  /** The state the loop starts in. */
  const Initial := State(false, 0)

  /** What one receive call yields. */
  datatype Event =
    | Datagram(bytes: seq<byte>)  // a datagram, as the sender sent it
    | Timeout                     // no datagram within the receive timeout
    | Interrupted                 // the call was interrupted by a signal
    | RecvFailed                  // any other receive error

  /** What the write of a payload to the sink yields. */
  datatype WriteResult =
    | Written     // the write returned a non-negative count
    | WouldBlock  // the sink is full
    | WriteFailed // any other write error

  /** How an accepted frame stands in the stream: the first frame of a new
      association (reported with its payload type), or a frame of the
      current one with its verdict, its own number and the number expected
      before it (an `Ahead` verdict is the out-of-order report). */
  datatype Arrival =
    | Associated(payloadType: nat)
    | Continued(verdict: Verdict, sequence: u16, expected: u16)

  /** What the loop did with one event, with the values the relay reports
      about it. */
  datatype Action =
    | Idle                                      // nothing to do; receive again
    | Rejected(reason: Reject)                  // malformed or unsupported; discarded
    | Stale(sequence: u16, expected: u16)       // behind the expected number; dropped
    | Forward(payload: seq<byte>, arrival: Arrival)  // payload written to the sink
    | Overrun(payload: seq<byte>, arrival: Arrival,
              sequence: u16, timestamp: u32)    // the sink was full; this frame is lost
    | Disconnect                                // the association was dissolved
    | Fatal                                     // the process exits with an error

  /** The one input the loop consumes per turn: the receive outcome, and
      the outcome the write would have if one is made. */
  datatype Input = Input(event: Event, write: WriteResult)

  /** The write policy: a full sink loses the frame (reported with its
      sequence number and timestamp), any other error ends the process. */
  function Deliver(payload: seq<byte>, arrival: Arrival, h: Header, w: WriteResult): (a: Action)
    ensures a.Forward? <==> w == Written
    ensures a.Overrun? <==> w == WouldBlock
    ensures a.Fatal? <==> w == WriteFailed
    ensures (a.Forward? || a.Overrun?) ==> a.payload == payload && a.arrival == arrival
    ensures a.Overrun? ==> a.sequence == h.sequence && a.timestamp == h.timestamp
  {
    match w
    case Written => Forward(payload, arrival)
    case WouldBlock => Overrun(payload, arrival, h.sequence, h.timestamp)
    case WriteFailed => Fatal
  }

  /** One turn of the loop. */
  function Step(s: State, ev: Event, w: WriteResult): (r: (State, Action))
    ensures r.1.Rejected? || r.1.Stale? || r.1 == Idle ==> r.0 == s
    ensures r.1 == Disconnect <==> s.connected && ev == Timeout
    ensures r.1.Forward? || r.1.Overrun? ==> ev.Datagram? && r.0.connected
    ensures ev.Datagram? && !r.1.Rejected? ==> r.0.connected
  {
    match ev
    case Interrupted => (s, Idle)
    case RecvFailed => (s, Fatal)
    case Timeout =>
      if s.connected then (s.(connected := false), Disconnect) else (s, Idle)
    case Datagram(bytes) =>
      var buf := Received(bytes);
      match Decode(buf)
      case Err(reason) => (s, Rejected(reason))
      case Ok(f) =>
        if s.connected then
          var t := Track(f.header.sequence, s.expected);
          if t.verdict == Behind then (s, Stale(f.header.sequence, s.expected))
          else
            (State(true, t.expected),
             Deliver(Payload(buf, f), Continued(t.verdict, f.header.sequence, s.expected), f.header, w))
        else
          (State(true, NextSeq(f.header.sequence)),
           Deliver(Payload(buf, f), Associated(f.header.payloadType), f.header, w))
  }

  /** The loop over a finite sequence of inputs, stopping at the first
      fatal action: the final state and one action per consumed input. */
  function Run(s: State, inputs: seq<Input>): (r: (State, seq<Action>))
    ensures |r.1| <= |inputs|
    ensures forall i :: 0 <= i < |r.1| - 1 ==> r.1[i] != Fatal
    ensures |r.1| < |inputs| ==> |r.1| > 0 && r.1[|r.1| - 1] == Fatal
    ensures |inputs| > 0 ==> |r.1| > 0
    decreases |inputs|
  {
    if |inputs| == 0 then (s, [])
    else
      var (s1, a) := Step(s, inputs[0].event, inputs[0].write);
      if a == Fatal then (s1, [a])
      else
        var (s2, rest) := Run(s1, inputs[1..]);
        (s2, [a] + rest)
  }

  /** The receive loop itself, over a finite sequence of inputs: it agrees
      with `Run` from the initial state, and stops at a fatal action. */
  method Serve(inputs: seq<Input>) returns (final: State, actions: seq<Action>)
    ensures (final, actions) == Run(Initial, inputs)
  {
    var s := Initial;
    actions := [];
    var i := 0;
    var stopped := false;
    assert inputs[0..] == inputs;
    while i < |inputs| && !stopped
      invariant 0 <= i <= |inputs|
      invariant !stopped ==> Run(Initial, inputs).0 == Run(s, inputs[i..]).0
      invariant !stopped ==> Run(Initial, inputs).1 == actions + Run(s, inputs[i..]).1
      invariant stopped ==> Run(Initial, inputs) == (s, actions)
      decreases |inputs| - i, !stopped
    {
      var next := Step(s, inputs[i].event, inputs[i].write);
      assert inputs[i..][0] == inputs[i] && inputs[i..][1..] == inputs[i + 1..];
      RunAdvance(s, inputs[i..], actions);
      if next.1 == Fatal {
        stopped := true;
      } else {
        i := i + 1;
      }
      s := next.0;
      actions := actions + [next.1];
    }
    if !stopped {
      assert inputs[i..] == [];
      assert Run(s, inputs[i..]) == (s, []);
      assert actions + [] == actions;
    }
    final := s;
  }

  /** One turn of `Run`: the first input's step, then the rest unless the
      step was fatal. */
  lemma RunUnfold(s: State, inputs: seq<Input>)
    requires |inputs| > 0
    ensures var next := Step(s, inputs[0].event, inputs[0].write);
      Run(s, inputs) ==
        if next.1 == Fatal then (next.0, [next.1])
        else (Run(next.0, inputs[1..]).0, [next.1] + Run(next.0, inputs[1..]).1)
  {
  }

  /** What one turn of `Run` adds to the actions already taken. */
  lemma RunAdvance(s: State, rest: seq<Input>, actions: seq<Action>)
    requires |rest| > 0
    ensures var next := Step(s, rest[0].event, rest[0].write);
      && (next.1 == Fatal ==> Run(s, rest) == (next.0, [next.1]))
      && (next.1 != Fatal ==>
            && Run(s, rest).0 == Run(next.0, rest[1..]).0
            && actions + Run(s, rest).1 == (actions + [next.1]) + Run(next.0, rest[1..]).1)
  {
    RunUnfold(s, rest);
  }

  /** A datagram that fails validation is reported with its reason and
      changes neither the association nor the expected sequence number,
      whatever the sink would do. */
  lemma RejectionKeepsState(s: State, bytes: seq<byte>, w: WriteResult)
    requires Decode(Received(bytes)).Err?
    ensures Step(s, Datagram(bytes), w) == (s, Rejected(Decode(Received(bytes)).reason))
  {
  }

  /** A datagram shorter than the fixed header is rejected as too short. */
  lemma ShortDatagramRejected(s: State, bytes: seq<byte>, w: WriteResult)
    requires |bytes| < FixedHeaderSize
    ensures Step(s, Datagram(bytes), w) == (s, Rejected(TooShort))
  {
  }

  /** While unassociated, a valid datagram creates the association, sets
      the expected number to the successor of its sequence number and is
      delivered; the previous expected number plays no part. */
  lemma AssociationResetsTracker(s: State, s': State, bytes: seq<byte>, w: WriteResult)
    requires !s.connected && !s'.connected
    requires Decode(Received(bytes)).Ok?
    ensures Step(s, Datagram(bytes), w) == Step(s', Datagram(bytes), w)
    ensures Step(s, Datagram(bytes), w).0 ==
      State(true, (Decode(Received(bytes)).frame.header.sequence + 1) % SeqSpace)
    ensures var f := Decode(Received(bytes)).frame;
      Step(s, Datagram(bytes), w).1 ==
        Deliver(Payload(Received(bytes), f), Associated(f.header.payloadType), f.header, w)
  {
  }

  /** While associated, a valid datagram is delivered exactly when its
      sequence number is not below the expected one (plain unsigned
      comparison); delivery moves the expected number past it, and a
      dropped frame leaves the state as it was. */
  lemma ConnectedAcceptIff(s: State, bytes: seq<byte>, w: WriteResult)
    requires s.connected
    requires Decode(Received(bytes)).Ok?
    ensures var f := Decode(Received(bytes)).frame;
      var sq := f.header.sequence;
      && (!Step(s, Datagram(bytes), w).1.Stale? <==> sq >= s.expected)
      && (sq < s.expected ==> Step(s, Datagram(bytes), w) == (s, Stale(sq, s.expected)))
      && (sq >= s.expected ==>
            Step(s, Datagram(bytes), w) ==
              (State(true, (sq + 1) % SeqSpace),
               Deliver(Payload(Received(bytes), f),
                       Continued(if sq == s.expected then InOrder else Ahead, sq, s.expected),
                       f.header, w)))
  {
  }

  /** The payload handed to the sink is exactly the octets after the
      fixed header and the CSRC list, no more than the buffer can hold
      less the fixed header. */
  lemma ForwardedPayloadIsSuffix(s: State, bytes: seq<byte>, w: WriteResult)
    requires Step(s, Datagram(bytes), w).1.Forward?
    ensures var buf := Received(bytes);
      && |buf| >= FixedHeaderSize
      && var cc := buf[0] % 0x10;
         && FixedHeaderSize + 4 * cc <= |buf|
         && Step(s, Datagram(bytes), w).1.payload == buf[FixedHeaderSize + 4 * cc..]
    ensures |Step(s, Datagram(bytes), w).1.payload| <= BufferSize - FixedHeaderSize
  {
  }

  /** The sink's answer changes only the action: a full sink loses the
      frame but the tracker has already moved on, and only a write error
      other than a full sink is fatal. */
  lemma WriteOutcomeOnlyChangesAction(s: State, bytes: seq<byte>)
    requires Step(s, Datagram(bytes), Written).1.Forward?
    ensures Step(s, Datagram(bytes), WouldBlock).0 == Step(s, Datagram(bytes), Written).0
    ensures var fw := Step(s, Datagram(bytes), Written).1;
      var h := Decode(Received(bytes)).frame.header;
      Step(s, Datagram(bytes), WouldBlock).1 == Overrun(fw.payload, fw.arrival, h.sequence, h.timestamp)
    ensures Step(s, Datagram(bytes), WriteFailed).1 == Fatal
  {
  }

  /** A delivered frame says how it stands in the stream: it reports the
      association exactly when none existed, with the frame's payload type,
      and otherwise its verdict against the number expected before it, so
      an out-of-order (ahead) frame is told apart from an in-order one. */
  lemma ArrivalReported(s: State, bytes: seq<byte>, w: WriteResult)
    requires Step(s, Datagram(bytes), w).1.Forward? || Step(s, Datagram(bytes), w).1.Overrun?
    ensures var a := Step(s, Datagram(bytes), w).1.arrival;
      var h := Decode(Received(bytes)).frame.header;
      && Decode(Received(bytes)).Ok?
      && (a.Associated? <==> !s.connected)
      && (a.Associated? ==> a.payloadType == h.payloadType)
      && (a.Continued? ==> a.sequence == h.sequence && a.expected == s.expected)
      && (a.Continued? ==> (a.verdict == InOrder <==> h.sequence == s.expected))
      && (a.Continued? ==> (a.verdict == Ahead <==> h.sequence > s.expected))
  {
  }

  /** A receive timeout dissolves an association and is a no-op otherwise;
      an interrupted receive changes nothing; any other receive error is
      fatal. */
  lemma ReceiveOutcomes(s: State, w: WriteResult)
    ensures Step(s, Timeout, w) == (if s.connected then (State(false, s.expected), Disconnect) else (s, Idle))
    ensures Step(s, Interrupted, w) == (s, Idle)
    ensures Step(s, RecvFailed, w) == (s, Fatal)
  {
  }

  /** The inputs carry, in turn, valid datagrams numbered e, e+1, e+2, ...
      modulo 2^16, and every write succeeds. */
  ghost predicate InOrderFrom(inputs: seq<Input>, e: u16) {
    forall i :: 0 <= i < |inputs| ==>
      && inputs[i].write == Written
      && inputs[i].event.Datagram?
      && Decode(Received(inputs[i].event.bytes)).Ok?
      && Decode(Received(inputs[i].event.bytes)).frame.header.sequence == (e + i) % SeqSpace
  }

  /** An associated stream that arrives strictly in order is forwarded in
      full, through any number of wraps from 65535 to 0, and ends expecting
      the next number in line. */
  lemma {:induction false} InOrderStreamForwarded(e: u16, inputs: seq<Input>)
    requires InOrderFrom(inputs, e)
    ensures Run(State(true, e), inputs).0 == State(true, (e + |inputs|) % SeqSpace)
    ensures |Run(State(true, e), inputs).1| == |inputs|
    ensures forall i :: 0 <= i < |inputs| ==> Run(State(true, e), inputs).1[i].Forward?
    decreases |inputs|
  {
    if |inputs| > 0 {
      var e' := NextSeq(e);
      InOrderTail(inputs, e);
      InOrderStep(e, inputs[0]);
      var first := Step(State(true, e), inputs[0].event, inputs[0].write);
      assert first.0 == State(true, e') && first.1.Forward?;
      RunUnfold(State(true, e), inputs);
      InOrderStreamForwarded(e', inputs[1..]);
      var rest := Run(State(true, e'), inputs[1..]);
      assert Run(State(true, e), inputs) == (rest.0, [first.1] + rest.1);
      AllForwardCons(first.1, rest.1);
      SuccessorShift(e, |inputs| - 1);
    }
  }

  /** Prepending a forwarded frame to forwarded frames gives forwarded frames. */
  lemma AllForwardCons(a: Action, rest: seq<Action>)
    requires a.Forward?
    requires forall i :: 0 <= i < |rest| ==> rest[i].Forward?
    ensures forall i :: 0 <= i < |rest| + 1 ==> ([a] + rest)[i].Forward?
  {
  }

  /** Counting n - 1 on from the successor of e is counting n on from e. */
  lemma SuccessorShift(e: u16, k: nat)
    ensures (NextSeq(e) + k) % SeqSpace == (e + k + 1) % SeqSpace
  {
  }

  /** One in-order datagram is forwarded and moves the expected number on. */
  lemma InOrderStep(e: u16, input: Input)
    requires input.write == Written && input.event.Datagram?
    requires Decode(Received(input.event.bytes)).Ok?
    requires Decode(Received(input.event.bytes)).frame.header.sequence == e
    ensures Step(State(true, e), input.event, input.write).0 == State(true, NextSeq(e))
    ensures Step(State(true, e), input.event, input.write).1.Forward?
  {
  }

  /** The tail of an in-order run is in order from the next number. */
  lemma InOrderTail(inputs: seq<Input>, e: u16)
    requires |inputs| > 0 && InOrderFrom(inputs, e)
    ensures InOrderFrom(inputs[1..], NextSeq(e))
  {
    forall i | 0 <= i < |inputs[1..]|
      ensures Decode(Received(inputs[1..][i].event.bytes)).frame.header.sequence == (NextSeq(e) + i) % SeqSpace
    {
      assert inputs[1..][i] == inputs[i + 1];
      SuccessorShift(e, i);
    }
  }

  /** The sequence number of a valid datagram. */
  function SequenceOf(bytes: seq<byte>): u16
    requires Decode(Received(bytes)).Ok?
  {
    Decode(Received(bytes)).frame.header.sequence
  }

  /** The inputs carry valid datagrams all numbered below `e`. */
  ghost predicate AllBelow(inputs: seq<Input>, e: u16) {
    forall i :: 0 <= i < |inputs| ==>
      && inputs[i].event.Datagram?
      && Decode(Received(inputs[i].event.bytes)).Ok?
      && SequenceOf(inputs[i].event.bytes) < e
  }

  /** The cost of the plain comparison: once `e` is expected, every valid
      datagram numbered below it is dropped as stale, reported with its own
      number and `e`, and nothing reaches the sink, although on the circle
      up to half of those numbers lie ahead of `e`. */
  lemma {:induction false} StallsBelowExpected(e: u16, inputs: seq<Input>)
    requires AllBelow(inputs, e)
    ensures Run(State(true, e), inputs).0 == State(true, e)
    ensures |Run(State(true, e), inputs).1| == |inputs|
    ensures forall i :: 0 <= i < |inputs| ==>
      Run(State(true, e), inputs).1[i] == Stale(SequenceOf(inputs[i].event.bytes), e)
    decreases |inputs|
  {
    if |inputs| > 0 {
      assert AllBelow(inputs[1..], e) by {
        forall i | 0 <= i < |inputs[1..]|
          ensures inputs[1..][i] == inputs[i + 1]
        {
        }
      }
      var first := Step(State(true, e), inputs[0].event, inputs[0].write);
      assert first == (State(true, e), Stale(SequenceOf(inputs[0].event.bytes), e));
      RunUnfold(State(true, e), inputs);
      StallsBelowExpected(e, inputs[1..]);
      var rest := Run(State(true, e), inputs[1..]);
      assert Run(State(true, e), inputs) == (rest.0, [first.1] + rest.1);
      forall i | 0 < i < |inputs|
        ensures ([first.1] + rest.1)[i] == Stale(SequenceOf(inputs[i].event.bytes), e)
      {
        assert ([first.1] + rest.1)[i] == rest.1[i - 1];
        assert inputs[1..][i - 1] == inputs[i];
      }
    }
  }

  /** The inputs carry valid datagrams none of which is numbered 65535. */
  /** The inputs carry valid datagrams none of which is numbered 65535. */
  ghost predicate AvoidsLast(inputs: seq<Input>) {
    forall i :: 0 <= i < |inputs| ==>
      && inputs[i].event.Datagram?
      && Decode(Received(inputs[i].event.bytes)).Ok?
      && Decode(Received(inputs[i].event.bytes)).frame.header.sequence != 0xFFFF
  }

  /** The cost of the plain comparison: once 65535 is expected and the
      packet numbered 65535 never arrives, every later valid datagram is
      dropped as stale and nothing reaches the sink, although the stream
      continues at 0, 1, 2, ... */
  lemma MissedWrapDropsAll(inputs: seq<Input>)
    requires AvoidsLast(inputs)
    ensures Run(State(true, 0xFFFF), inputs).0 == State(true, 0xFFFF)
    ensures |Run(State(true, 0xFFFF), inputs).1| == |inputs|
    ensures forall i :: 0 <= i < |inputs| ==>
      Run(State(true, 0xFFFF), inputs).1[i] == Stale(SequenceOf(inputs[i].event.bytes), 0xFFFF)
  {
    assert AllBelow(inputs, 0xFFFF);
    StallsBelowExpected(0xFFFF, inputs);
  }
}
