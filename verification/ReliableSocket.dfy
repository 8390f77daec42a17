// class ReliableSocket, method by method, over a script of receive outcomes. Each method is proved to have
// exactly the effect that module Sockets gives its call.

module ReliableSockets {
  import opened Prelude
  import opened Segments
  import opened Sockets
  import Rtt

  // From here on, a call at s with this inbox and outbox, having returned `got`, ends in `whole`, where the
  // whole call began with outbox `base`.
  ghost predicate Ahead(whole: Effect, base: seq<Segment>, s: Socket, inbox: seq<Outcome>, outbox: seq<Segment>,
                        got: Option<seq<byte>>) {
    var e := Drive(s, inbox);
    && whole.socket == e.socket && whole.rest == e.rest
    && base + whole.sent == outbox + e.sent
    && whole.delivered == (if got.Some? then got else e.delivered)
  }

  lemma AheadStarts(begun: Reaction, base: seq<Segment>, inbox: seq<Outcome>)
    ensures Ahead(Complete(begun, inbox), base, begun.socket, inbox, base + begun.sent, None)
  {
    var e := Drive(begun.socket, inbox);
    assert base + (begun.sent + e.sent) == base + begun.sent + e.sent;
  }

  lemma AheadSteps(whole: Effect, base: seq<Segment>, s: Socket, inbox: seq<Outcome>, outbox: seq<Segment>)
    requires Ahead(whole, base, s, inbox, outbox, None) && s.call.Blocked() && inbox != []
    ensures var r := React(s, inbox[0]);
            Ahead(whole, base, r.socket, inbox[1..], outbox + r.sent, r.delivered)
  {
    var r := React(s, inbox[0]);
    var e := Drive(r.socket, inbox[1..]);
    assert outbox + (r.sent + e.sent) == outbox + r.sent + e.sent;
  }

  lemma AheadEnds(whole: Effect, base: seq<Segment>, s: Socket, inbox: seq<Outcome>, outbox: seq<Segment>,
                  got: Option<seq<byte>>)
    requires Ahead(whole, base, s, inbox, outbox, got) && (!s.call.Blocked() || inbox == [])
    ensures s == whole.socket && inbox == whole.rest && got == whole.delivered && outbox == base + whole.sent
  {
  }

  // What the callers of send_until_acked do once it returns.
  function Finished(out: Segment, s: Socket): Socket {
    if out.kind.Data? then s.(status := WaitSend, sequenceNumber := Flip(s.sequenceNumber), call := Idle)
    else s.(status := Closed, call := Shut)
  }

  class ReliableSocket {
    var state: Status
    var sequenceNumber: byte
    var estimatedRtt: int
    var devRtt: int
    var timeoutLength: int      // of the UnreliableSocket
    var inbox: seq<Outcome>     // what UnreliableSocket::receive will produce
    var outbox: seq<Segment>    // what UnreliableSocket::send was given

    function Model(call: Call): Socket
      reads this
    { Socket(state, sequenceNumber, Rtt.Estimator(estimatedRtt, devRtt), timeoutLength, call) }

    ghost predicate Valid()
      reads this
    { Rtt.Bounded(Rtt.Estimator(estimatedRtt, devRtt)) }

    // The method left the socket, the outbox and the inbox as the call that began with `begun` does.
    twostate predicate Did(begun: Reaction, at: Call, new delivered: Option<seq<byte>>)
      reads this
    {
      var e := Complete(begun, old(inbox));
      Model(at) == e.socket && inbox == e.rest && delivered == e.delivered && outbox == old(outbox) + e.sent
    }

    constructor (script: seq<Outcome>)
      ensures Valid() && Model(Idle) == FRESH && inbox == script && outbox == []
    {
      state, sequenceNumber, estimatedRtt, devRtt, timeoutLength := Init, 0, 200, 10, 0;
      inbox, outbox := script, [];
    }

    // UnreliableSocket::receive
    method Receive() returns (o: Outcome)
      requires inbox != []
      modifies this`inbox
      ensures o == old(inbox)[0] && inbox == old(inbox)[1..]
    {
      o, inbox := inbox[0], inbox[1..];
    }

    method Transmit(segment: Segment)
      modifies this`outbox
      ensures outbox == old(outbox) + [segment]
    {
      outbox := outbox + [segment];
    }

    method SendAck(number: byte)
      modifies this`outbox
      ensures outbox == old(outbox) + [AckSegment(number)]
    {
      Transmit(Segment(0, number, Ack, []));
    }

    method UpdateRtt(sample: Millis)
      requires Valid()
      modifies this`estimatedRtt, this`devRtt, this`timeoutLength
      ensures Valid()
      ensures Rtt.Estimator(estimatedRtt, devRtt) == Rtt.Update(old(Rtt.Estimator(estimatedRtt, devRtt)), sample)
      ensures timeoutLength == estimatedRtt + 4 * devRtt && Rtt.IsInt32(timeoutLength)
    {
      ghost var before := Rtt.Estimator(estimatedRtt, devRtt);
      Rtt.MachineEstimate(before, sample);
      Rtt.MachineDeviation(before, sample);
      Rtt.UpdateStaysBounded(before, sample);
      estimatedRtt := Rtt.Truncate((1.0 - 0.125) * (estimatedRtt as real) + 0.125 * (sample as real));
      var deviation := Rtt.Abs(Rtt.ToInt32(Rtt.ToUint32(sample - estimatedRtt)));
      devRtt := Rtt.Truncate((1.0 - 0.25) * (devRtt as real) + 0.25 * (deviation as real));
      timeoutLength := estimatedRtt + 4 * devRtt;
    }

    // accept_connection's first loop; AwaitingAck3 means that a CONN has come.
    method WaitForConn(ghost whole: Effect, ghost base: seq<Segment>) returns (at: Call)
      requires Valid() && Ahead(whole, base, Model(Accepting), inbox, outbox, None)
      modifies this`inbox
      ensures Valid() && at in {Accepting, AwaitingAck3, Aborted} && (at.Accepting? ==> inbox == [])
      ensures !at.AwaitingAck3? ==> Ahead(whole, base, Model(at), inbox, outbox, None)
      ensures at.AwaitingAck3? ==>
        Ahead(whole, base, Model(at).(timeout := estimatedRtt + 4 * devRtt), inbox, outbox + [AckSegment(2)], None)
    {
      at := Accepting;
      while true
        invariant Ahead(whole, base, Model(Accepting), inbox, outbox, None) && at == Accepting
        decreases |inbox|
      {
        if inbox == [] { return; }
        AheadSteps(whole, base, Model(Accepting), inbox, outbox);
        var o := Receive();
        match o {
          case Arrived(segment, _) => if segment.kind == Conn { return AwaitingAck3; }
          case _ => return Aborted;
        }
      }
    }

    // accept_connection's second loop; Idle means that ACK 3 has come.
    method WaitForAck3(ghost whole: Effect, ghost base: seq<Segment>) returns (at: Call)
      requires Valid() && Ahead(whole, base, Model(AwaitingAck3), inbox, outbox, None)
      modifies this`inbox, this`outbox
      ensures Valid() && at in {AwaitingAck3, Idle, Aborted} && (at.AwaitingAck3? ==> inbox == [])
      ensures !at.Idle? ==> Ahead(whole, base, Model(at), inbox, outbox, None)
      ensures at.Idle? ==> Ahead(whole, base, Model(at).(status := WaitData0), inbox, outbox, None)
    {
      at := AwaitingAck3;
      while true
        invariant Ahead(whole, base, Model(AwaitingAck3), inbox, outbox, None) && at == AwaitingAck3
        decreases |inbox|
      {
        if inbox == [] { return; }
        AheadSteps(whole, base, Model(AwaitingAck3), inbox, outbox);
        var o := Receive();
        match o {
          case Arrived(segment, _) =>
            if segment.kind == Ack && segment.ackNumber == 3 { return Idle; }
            else if segment.kind == Conn { SendAck(2); }
          case TimedOut => SendAck(2);
          case PeerClosed => return Aborted;
        }
      }
    }

    // accept_connection after its state check.
    method AcceptHandshake(ghost whole: Effect, ghost base: seq<Segment>) returns (at: Call)
      requires Valid() && Ahead(whole, base, Model(Accepting), inbox, outbox, None)
      modifies this
      ensures Valid() && Model(at) == whole.socket && inbox == whole.rest && None == whole.delivered
      ensures outbox == base + whole.sent
    {
      at := WaitForConn(whole, base);
      if at == AwaitingAck3 {
        SendAck(2);
        timeoutLength := estimatedRtt + 4 * devRtt;
        at := WaitForAck3(whole, base);
        if at == Idle { state := WaitData0; }
      }
      AheadEnds(whole, base, Model(at), inbox, outbox, None);
    }

    method AcceptConnection() returns (at: Call)
      requires Valid()
      modifies this
      ensures Valid() && Did(old(BeginAccept(Model(Idle))), at, None)
    {
      if state != Init { return Aborted; }
      ghost var begun, base := BeginAccept(Model(Idle)), outbox;
      AheadStarts(begun, base, inbox);
      at := AcceptHandshake(Complete(begun, inbox), base);
    }

    // connect_to_remote's loop; Idle means that ACK 2 has come.
    method WaitForAck2(ghost whole: Effect, ghost base: seq<Segment>) returns (at: Call)
      requires Valid() && Ahead(whole, base, Model(Connecting), inbox, outbox + [CONN_SEGMENT], None)
      modifies this`inbox, this`outbox
      ensures Valid() && at in {Connecting, Idle, Aborted} && (at.Connecting? ==> inbox == [])
      ensures !at.Idle? ==> Ahead(whole, base, Model(at), inbox, outbox, None)
      ensures at.Idle? ==> Ahead(whole, base, Model(at).(status := WaitSend), inbox, outbox + [AckSegment(3)], None)
    {
      at := Connecting;
      while true
        invariant Ahead(whole, base, Model(Connecting), inbox, outbox + [CONN_SEGMENT], None) && at == Connecting
        decreases |inbox|
      {
        Transmit(CONN_SEGMENT);
        if inbox == [] { return; }
        AheadSteps(whole, base, Model(Connecting), inbox, outbox);
        var o := Receive();
        match o {
          case Arrived(segment, _) => if segment.kind == Ack && segment.ackNumber == 2 { return Idle; }
          case TimedOut =>
          case PeerClosed => return Aborted;
        }
      }
    }

    method ConnectToRemote() returns (at: Call)
      requires Valid()
      modifies this
      ensures Valid() && Did(old(BeginConnect(Model(Idle))), at, None)
    {
      if state != Init { return Aborted; }
      ghost var begun, base := BeginConnect(Model(Idle)), outbox;
      ghost var whole := Complete(begun, inbox);
      AheadStarts(begun, base, inbox);
      timeoutLength := estimatedRtt + 4 * devRtt;
      state := WaitHs2;
      at := WaitForAck2(whole, base);
      if at == Idle {
        state := WaitHs3;
        SendAck(3);
        state := WaitSend;
      }
      AheadEnds(whole, base, Model(at), inbox, outbox, None);
    }

    // What send_until_acked's loop makes of an outcome; still Sending means another transmission.
    method TakeAck(segment: Segment, expected: byte, o: Outcome) returns (at: Call)
      requires Valid() && (segment.kind.Data? || segment.kind.Close?) && expected == ExpectedAck(segment)
      modifies this`estimatedRtt, this`devRtt, this`timeoutLength
      ensures Valid() && at in {Sending(segment), Idle, Aborted}
      ensures React(old(Model(Sending(segment))), o) ==
              Reaction(if at.Idle? then Finished(segment, Model(at)) else Model(at),
                       if at.Sending? then [segment] else [], None)
    {
      at := Sending(segment);
      match o {
        case Arrived(answer, sample) =>
          if answer.kind == Ack && answer.ackNumber == expected {
            if segment.kind == Data { UpdateRtt(sample); }
            at := Idle;
          }
        case TimedOut =>
        case PeerClosed => at := Aborted;
      }
    }

    // Called only with DATA and CLOSE segments. Idle means acknowledged.
    method SendUntilAcked(segment: Segment) returns (at: Call)
      requires Valid() && (segment.kind.Data? || segment.kind.Close?)
      modifies this
      ensures Valid() && at in {Sending(segment), Idle, Aborted}
      ensures var e := Complete(Reaction(old(Model(Sending(segment))), [segment], None), old(inbox));
              && e.rest == inbox && e.delivered == None && outbox == old(outbox) + e.sent
              && e.socket == if at.Idle? then Finished(segment, Model(at)) else Model(at)
    {
      ghost var begun, base := Reaction(Model(Sending(segment)), [segment], None), outbox;
      ghost var whole := Complete(begun, inbox);
      AheadStarts(begun, base, inbox);
      var expected := if segment.kind == Data then segment.sequenceNumber else 4;
      at := Sending(segment);
      while at == Sending(segment)
        invariant Valid() && at in {Sending(segment), Idle, Aborted}
        invariant at.Sending? ==> Ahead(whole, base, Model(at), inbox, outbox + [segment], None)
        invariant at.Aborted? ==> Ahead(whole, base, Model(at), inbox, outbox, None)
        invariant at.Idle? ==> Ahead(whole, base, Finished(segment, Model(at)), inbox, outbox, None)
        decreases |inbox|, at == Sending(segment)
      {
        Transmit(segment);
        if inbox == [] {
          AheadEnds(whole, base, Model(at), inbox, outbox, None);
          return;
        }
        AheadSteps(whole, base, Model(at), inbox, outbox);
        var o := Receive();
        at := TakeAck(segment, expected, o);
      }
      AheadEnds(whole, base, if at.Idle? then Finished(segment, Model(at)) else Model(at), inbox, outbox, None);
    }

    method SendData(data: seq<byte>) returns (at: Call)
      requires Valid()
      modifies this
      ensures Valid() && Did(old(BeginSend(Model(Idle), data)), at, None)
    {
      if state != WaitSend { return Idle; }
      var segment := DataSegment(sequenceNumber, data);
      if sequenceNumber == 0 { state := WaitAck0; } else { state := WaitAck1; }
      at := SendUntilAcked(segment);
      if at == Idle {
        sequenceNumber := (1 - sequenceNumber) % 256;
        state := WaitSend;
      }
    }

    // The body of receive_data's loop; still Receiving means that the loop goes on.
    method TakeSegment(expected: byte, segment: Segment, ghost sample: Millis)
      returns (at: Call, delivered: Option<seq<byte>>)
      requires expected == 0 || expected == 1
      modifies this`outbox, this`state
      ensures var r := OnArrival(old(Model(Receiving(expected))), segment, sample);
              Model(at) == r.socket && outbox == old(outbox) + r.sent && delivered == r.delivered
    {
      at, delivered := Receiving(expected), None;
      if segment.kind == Data && segment.sequenceNumber == expected {
        SendAck(expected);
        state := if state == WaitData0 then WaitData1 else WaitData0;
        at, delivered := Idle, Some(segment.payload);
      } else if segment.kind == Data {
        SendAck((1 - expected) % 256);
      } else if segment.kind == Close {
        SendAck(4);
        state := Closing;
        at := Idle;
      }
    }

    // receive_data's loop; the result is None unless a data segment was accepted.
    method WaitForData(expected: byte, ghost whole: Effect, ghost base: seq<Segment>)
      returns (at: Call, delivered: Option<seq<byte>>)
      requires Valid() && (expected == 0 || expected == 1)
      requires Ahead(whole, base, Model(Receiving(expected)), inbox, outbox, None)
      modifies this`inbox, this`outbox, this`state
      ensures Valid() && (at.Blocked() ==> inbox == [])
      ensures Ahead(whole, base, Model(at), inbox, outbox, delivered)
    {
      at, delivered := Receiving(expected), None;
      while at == Receiving(expected)
        invariant Valid() && (at == Receiving(expected) ==> delivered.None?)
        invariant at.Blocked() ==> at == Receiving(expected)
        invariant Ahead(whole, base, Model(at), inbox, outbox, delivered)
        decreases |inbox|, at == Receiving(expected)
      {
        if inbox == [] { return; }
        AheadSteps(whole, base, Model(at), inbox, outbox);
        var o := Receive();
        if !o.Arrived? { return Aborted, None; }
        at, delivered := TakeSegment(expected, o.segment, o.sample);
      }
    }

    // The payload stands for the buffer's first `return value` bytes; an empty one is a return value of 0.
    method ReceiveData() returns (at: Call, payload: seq<byte>, ghost delivered: Option<seq<byte>>)
      requires Valid()
      modifies this
      ensures Valid() && Did(old(BeginReceive(Model(Idle))), at, delivered)
      ensures payload == match delivered case Some(p) => p case None => []
    {
      if state != WaitData0 && state != WaitData1 { return Idle, [], None; }
      ghost var begun, base := BeginReceive(Model(Idle)), outbox;
      AheadStarts(begun, base, inbox);
      ghost var whole := Complete(begun, inbox);
      timeoutLength := 0;
      var result;
      at, result := WaitForData(if state == WaitData0 then 0 else 1, whole, base);
      delivered := result;
      payload := if result.Some? then result.value else [];
    }

    // close_connection's loop for a receiver; Shut means that the wait is over.
    method Drain(ghost whole: Effect, ghost base: seq<Segment>) returns (at: Call)
      requires Valid() && Ahead(whole, base, Model(Draining), inbox, outbox, None)
      modifies this`inbox, this`outbox
      ensures Valid() && at in {Draining, Shut} && (at.Draining? ==> inbox == [])
      ensures at.Draining? ==> Ahead(whole, base, Model(at), inbox, outbox, None)
      ensures at.Shut? ==> Ahead(whole, base, Model(at).(status := Closed), inbox, outbox, None)
    {
      at := Draining;
      while at == Draining
        invariant at in {Draining, Shut}
        invariant at.Draining? ==> Ahead(whole, base, Model(at), inbox, outbox, None)
        invariant at.Shut? ==> Ahead(whole, base, Model(at).(status := Closed), inbox, outbox, None)
        decreases |inbox|, at == Draining
      {
        if inbox == [] { return; }
        AheadSteps(whole, base, Model(Draining), inbox, outbox);
        var o := Receive();
        match o {
          case Arrived(segment, _) => if segment.kind == Close { SendAck(4); }
          case _ => at := Shut;
        }
      }
    }

    method CloseConnection() returns (at: Call)
      requires Valid()
      modifies this
      ensures Valid() && Did(old(BeginClose(Model(Idle))), at, None)
    {
      at := Shut;
      if state == WaitSend {
        at := SendUntilAcked(CLOSE_SEGMENT);
        if at == Idle { state, at := Closed, Shut; }
      } else if state == Closing {
        ghost var begun, base := BeginClose(Model(Idle)), outbox;
        AheadStarts(begun, base, inbox);
        ghost var whole := Complete(begun, inbox);
        timeoutLength := 2000;
        at := Drain(whole, base);
        if at == Shut { state := Closed; }
        AheadEnds(whole, base, Model(at), inbox, outbox, None);
      }
    }
  }
}
