// One end of an RDT connection: the state of a ReliableSocket, what starting each call does, and what a
// blocked call does with the next outcome of UnreliableSocket::receive (ReliableSocket.cpp).

module Sockets {
  import opened Prelude
  import opened Segments
  import Rtt

  // connection_status
  datatype Status =
    | Init | WaitHs2 | WaitHs3 | WaitSend | WaitData0 | WaitData1 | WaitAck0 | WaitAck1 | Closing | Closed

  // Where the socket's thread is: between calls, or blocked in one of the receive loops.
  datatype Call =
    | Idle
    | Accepting                        // accept_connection, waiting for CONN
    | AwaitingAck3                     // accept_connection, waiting for ACK 3
    | Connecting                       // connect_to_remote, waiting for ACK 2
    | Sending(segment: Segment)        // send_until_acked
    | Receiving(expected: byte)        // receive_data
    | Draining                         // close_connection of a receiver
    | Shut                             // the UDP socket is closed
    | Aborted                          // exit(EXIT_FAILURE) or an exception nobody catches
  {
    predicate Blocked() { Accepting? || AwaitingAck3? || Connecting? || Sending? || Receiving? || Draining? }
  }

  // A sample for which no int conversion and no sum of ints loses anything.
  type Millis = x: int | 0 <= x <= Rtt.MAX_SAMPLE

  // What one call of UnreliableSocket::receive ends in. The sample is the time since the last transmission.
  datatype Outcome = Arrived(segment: Segment, sample: Millis) | TimedOut | PeerClosed

  datatype Socket = Socket(status: Status, sequenceNumber: byte, rtt: Rtt.Estimator, timeout: int, call: Call)

  datatype Reaction = Reaction(socket: Socket, sent: seq<Segment>, delivered: Option<seq<byte>>)

  const FRESH := Socket(Init, 0, Rtt.INITIAL, 0, Idle)

  // 1 - x in a uint8_t
  function Flip(x: byte): byte { (1 - x) % 256 }

  function ExpectedAck(s: Segment): byte { if s.kind.Data? then s.sequenceNumber else 4 }

  predicate IsAck(s: Segment, number: byte) { s.kind.Ack? && s.ackNumber == number }

  // ----- starting a call

  function BeginAccept(s: Socket): Reaction {
    if !s.status.Init? then Reaction(s.(call := Aborted), [], None)
    else Reaction(s.(call := Accepting), [], None)
  }

  function BeginConnect(s: Socket): Reaction {
    if !s.status.Init? then Reaction(s.(call := Aborted), [], None)
    else Reaction(s.(status := WaitHs2, timeout := Rtt.Timeout(s.rtt), call := Connecting), [CONN_SEGMENT], None)
  }

  function BeginSend(s: Socket, payload: seq<byte>): Reaction {
    if !s.status.WaitSend? then Reaction(s, [], None)
    else
      var segment := DataSegment(s.sequenceNumber, payload);
      var status := if s.sequenceNumber == 0 then WaitAck0 else WaitAck1;
      Reaction(s.(status := status, call := Sending(segment)), [segment], None)
  }

  // A receive_data call that is not allowed returns 0 at once.
  function BeginReceive(s: Socket): Reaction {
    if s.status != WaitData0 && s.status != WaitData1 then Reaction(s, [], None)
    else Reaction(s.(timeout := 0, call := Receiving(if s.status.WaitData0? then 0 else 1)), [], None)
  }

  function BeginClose(s: Socket): Reaction {
    if s.status.WaitSend? then Reaction(s.(call := Sending(CLOSE_SEGMENT)), [CLOSE_SEGMENT], None)
    else if s.status.Closing? then Reaction(s.(timeout := 2000, call := Draining), [], None)
    else Reaction(s.(call := Shut), [], None)
  }

  // ----- a blocked call and the next outcome

  function OnArrival(s: Socket, segment: Segment, sample: Millis): Reaction {
    match s.call
    case Accepting =>
      if segment.kind.Conn?
      then Reaction(s.(timeout := Rtt.Timeout(s.rtt), call := AwaitingAck3), [AckSegment(2)], None)
      else Reaction(s, [], None)
    case AwaitingAck3 =>
      if IsAck(segment, 3) then Reaction(s.(status := WaitData0, call := Idle), [], None)
      else if segment.kind.Conn? then Reaction(s, [AckSegment(2)], None)
      else Reaction(s, [], None)
    case Connecting =>
      if IsAck(segment, 2) then Reaction(s.(status := WaitSend, call := Idle), [AckSegment(3)], None)
      else Reaction(s, [CONN_SEGMENT], None)
    case Sending(out) =>
      if !IsAck(segment, ExpectedAck(out)) then Reaction(s, [out], None)
      else if out.kind.Data? then
        var rtt := Rtt.Update(s.rtt, sample);
        Reaction(Socket(WaitSend, Flip(s.sequenceNumber), rtt, Rtt.Timeout(rtt), Idle), [], None)
      else Reaction(s.(status := Closed, call := Shut), [], None)
    case Receiving(expected) =>
      if segment.kind.Data? then
        if segment.sequenceNumber == expected
        then Reaction(s.(status := if s.status.WaitData0? then WaitData1 else WaitData0, call := Idle),
                      [AckSegment(expected)], Some(segment.payload))
        else Reaction(s, [AckSegment(Flip(expected))], None)
      else if segment.kind.Close? then Reaction(s.(status := Closing, call := Idle), [AckSegment(4)], None)
      else Reaction(s, [], None)
    case Draining =>
      if segment.kind.Close? then Reaction(s, [AckSegment(4)], None) else Reaction(s, [], None)
    case _ => Reaction(s, [], None)
  }

  // accept_connection's first loop and receive_data do not catch SocketTimeout; both wait with timeout 0.
  function OnTimeout(s: Socket): Reaction {
    match s.call
    case AwaitingAck3 => Reaction(s, [AckSegment(2)], None)
    case Connecting => Reaction(s, [CONN_SEGMENT], None)
    case Sending(out) => Reaction(s, [out], None)
    case Draining => Reaction(s.(status := Closed, call := Shut), [], None)
    case Accepting | Receiving(_) => Reaction(s.(call := Aborted), [], None)
    case _ => Reaction(s, [], None)
  }

  // ConnectionClosed ends a draining receiver normally and everything else badly.
  function OnPeerClosed(s: Socket): Reaction {
    if s.call.Draining? then Reaction(s.(status := Closed, call := Shut), [], None)
    else if s.call.Blocked() then Reaction(s.(call := Aborted), [], None)
    else Reaction(s, [], None)
  }

  function React(s: Socket, o: Outcome): Reaction {
    match o
    case Arrived(segment, sample) => OnArrival(s, segment, sample)
    case TimedOut => OnTimeout(s)
    case PeerClosed => OnPeerClosed(s)
  }

  // ----- running a call over the outcomes that are still to come

  // A call's whole effect: the socket it leaves, what it sent, the payload it returned, the outcomes left.
  // If the outcomes run out first, the call is still blocked in socket.call.
  datatype Effect = Effect(socket: Socket, sent: seq<Segment>, delivered: Option<seq<byte>>, rest: seq<Outcome>)

  function Drive(s: Socket, inbox: seq<Outcome>): Effect
    decreases |inbox|
  {
    if !s.call.Blocked() || inbox == [] then Effect(s, [], None, inbox)
    else
      var r := React(s, inbox[0]);
      var e := Drive(r.socket, inbox[1..]);
      Effect(e.socket, r.sent + e.sent, if r.delivered.Some? then r.delivered else e.delivered, e.rest)
  }

  function Complete(begun: Reaction, inbox: seq<Outcome>): Effect {
    var e := Drive(begun.socket, inbox);
    e.(sent := begun.sent + e.sent)
  }
}
