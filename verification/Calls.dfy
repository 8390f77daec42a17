// What each call of a ReliableSocket does over every sequence of receive outcomes, said outright: which outcome
// ends it, what it has transmitted by then, and the socket it leaves.

module Calls {
  import opened Prelude
  import opened Segments
  import opened Sockets
  import Rtt

  // i is the index of the first outcome with a property, or the length of the inbox.
  ghost predicate FirstAt(p: Outcome -> bool, inbox: seq<Outcome>, i: nat) {
    && i <= |inbox| && (i < |inbox| ==> p(inbox[i]))
    && forall j :: 0 <= j < i ==> !p(inbox[j])
  }

  function Count(p: Outcome -> bool, inbox: seq<Outcome>): nat
    decreases |inbox|
  { if inbox == [] then 0 else (if p(inbox[0]) then 1 else 0) + Count(p, inbox[1..]) }

  // What is left after the outcome at i.
  function After(inbox: seq<Outcome>, i: nat): seq<Outcome>
    requires i <= |inbox|
  { if i == |inbox| then [] else inbox[i + 1..] }

  function Repeat<T>(x: T, n: nat): (r: seq<T>)
    ensures |r| == n && forall i :: 0 <= i < n ==> r[i] == x
  { seq(n, i => x) }

  predicate IsConn(o: Outcome) { o.Arrived? && o.segment.kind.Conn? }
  predicate IsData(o: Outcome) { o.Arrived? && o.segment.kind.Data? }
  predicate IsClose(o: Outcome) { o.Arrived? && o.segment.kind.Close? }
  predicate AckArrived(o: Outcome, number: byte) {
    o.Arrived? && o.segment.kind.Ack? && o.segment.ackNumber == number
  }

  lemma Repeats(x: Segment, n: nat, last: seq<Segment>)
    ensures [x] + (Repeat(x, n) + last) == Repeat(x, n + 1) + last && Repeat(x, 0) + last == last
  {
  }

  lemma RepeatsAdd(x: Segment, m: nat, n: nat, last: seq<Segment>)
    ensures Repeat(x, m) + (Repeat(x, n) + last) == Repeat(x, m + n) + last
  {
  }

  // An outcome at the head of the inbox that leaves the call waiting.
  lemma Waits(p: Outcome -> bool, q: Outcome -> bool, inbox: seq<Outcome>, i: nat)
    requires FirstAt(p, inbox, i) && 0 < i
    ensures !p(inbox[0]) && FirstAt(p, inbox[1..], i - 1) && After(inbox, i) == After(inbox[1..], i - 1)
    ensures Count(q, inbox[..i]) == (if q(inbox[0]) then 1 else 0) + Count(q, inbox[1..][..i - 1])
  {
    assert inbox[..i][1..] == inbox[1..][..i - 1];
  }

  // An outcome that leaves a blocked call as it was, and one that ends it.
  lemma GoesOn(s: Socket, inbox: seq<Outcome>, sent: seq<Segment>)
    requires s.call.Blocked() && inbox != [] && React(s, inbox[0]) == Reaction(s, sent, None)
    ensures var e := Drive(s, inbox[1..]); Drive(s, inbox) == e.(sent := sent + e.sent)
  {
  }

  lemma Ends(s: Socket, inbox: seq<Outcome>)
    requires s.call.Blocked() && inbox != [] && !React(s, inbox[0]).socket.call.Blocked()
    ensures var r := React(s, inbox[0]); Drive(s, inbox) == Effect(r.socket, r.sent, r.delivered, inbox[1..])
  {
    var r := React(s, inbox[0]);
    assert r.sent + [] == r.sent;
  }

  lemma {:induction false} HasFirst(p: Outcome -> bool, inbox: seq<Outcome>) returns (i: nat)
    ensures FirstAt(p, inbox, i)
    decreases |inbox|
  {
    i := 0;
    if inbox != [] && !p(inbox[0]) {
      var k := HasFirst(p, inbox[1..]);
      i := k + 1;
    }
  }

  // ----- connect_to_remote

  predicate EndsConnecting(o: Outcome) { o.PeerClosed? || AckArrived(o, 2) }

  function Ack3If(inbox: seq<Outcome>, i: nat): seq<Segment>
  { if i < |inbox| && inbox[i].Arrived? then [AckSegment(3)] else [] }

  lemma {:induction false} ConnectingExact(s: Socket, inbox: seq<Outcome>, i: nat)
    requires s.call.Connecting? && FirstAt(EndsConnecting, inbox, i)
    ensures Drive(s, inbox) == Effect(
              if i == |inbox| then s
              else if inbox[i].PeerClosed? then s.(call := Aborted)
              else s.(status := WaitSend, call := Idle),
              Repeat(CONN_SEGMENT, i) + Ack3If(inbox, i), None, After(inbox, i))
    decreases i
  {
    if i == 0 {
      Repeats(CONN_SEGMENT, 0, Ack3If(inbox, i));
      if inbox != [] { Ends(s, inbox); }
    } else {
      Waits(EndsConnecting, IsConn, inbox, i);
      ConnectingExact(s, inbox[1..], i - 1);
      GoesOn(s, inbox, [CONN_SEGMENT]);
      Repeats(CONN_SEGMENT, i - 1, Ack3If(inbox, i));
    }
  }

  // CONN once, and once more for every outcome that is not ACK 2, wrong segment or timeout alike; then ACK 3,
  // once.
  lemma ConnectExact(s: Socket, inbox: seq<Outcome>, i: nat)
    requires s.status.Init? && FirstAt(EndsConnecting, inbox, i)
    ensures var waiting := s.(timeout := s.rtt.estimated + 4 * s.rtt.dev);
            Complete(BeginConnect(s), inbox) == Effect(
              if i == |inbox| then waiting.(status := WaitHs2, call := Connecting)
              else if inbox[i].PeerClosed? then waiting.(status := WaitHs2, call := Aborted)
              else waiting.(status := WaitSend, call := Idle),
              Repeat(CONN_SEGMENT, i + 1) + Ack3If(inbox, i), None, After(inbox, i))
  {
    var begun := BeginConnect(s);
    ConnectingExact(begun.socket, inbox, i);
    Repeats(CONN_SEGMENT, i, Ack3If(inbox, i));
  }

  // ----- accept_connection

  predicate EndsListening(o: Outcome) { !o.Arrived? || IsConn(o) }
  predicate EndsAwaiting(o: Outcome) { o.PeerClosed? || AckArrived(o, 3) }
  predicate AsksForAck2(o: Outcome) { o.TimedOut? || IsConn(o) }

  lemma {:induction false} AwaitingExact(s: Socket, inbox: seq<Outcome>, k: nat)
    requires s.call.AwaitingAck3? && FirstAt(EndsAwaiting, inbox, k)
    ensures Drive(s, inbox) == Effect(
              if k == |inbox| then s
              else if inbox[k].PeerClosed? then s.(call := Aborted)
              else s.(status := WaitData0, call := Idle),
              Repeat(AckSegment(2), Count(AsksForAck2, inbox[..k])), None, After(inbox, k))
    decreases k
  {
    if k == 0 {
      assert inbox[..0] == [];
      Repeats(AckSegment(2), 0, []);
      if inbox != [] { Ends(s, inbox); }
    } else {
      Waits(EndsAwaiting, AsksForAck2, inbox, k);
      AwaitingExact(s, inbox[1..], k - 1);
      var n := if AsksForAck2(inbox[0]) then 1 else 0;
      GoesOn(s, inbox, Repeat(AckSegment(2), n));
      RepeatsAdd(AckSegment(2), n, Count(AsksForAck2, inbox[1..][..k - 1]), []);
    }
  }

  // Until the first CONN nothing is answered, and a timeout or a closed connection is caught by nobody.
  lemma {:induction false} ListeningExact(s: Socket, inbox: seq<Outcome>, c: nat)
    requires s.call.Accepting? && FirstAt(EndsListening, inbox, c)
    ensures c == |inbox| ==> Drive(s, inbox) == Effect(s, [], None, [])
    ensures c < |inbox| && !IsConn(inbox[c]) ==>
              Drive(s, inbox) == Effect(s.(call := Aborted), [], None, inbox[c + 1..])
    ensures c < |inbox| && IsConn(inbox[c]) ==>
              var e := Drive(s.(timeout := s.rtt.estimated + 4 * s.rtt.dev, call := AwaitingAck3), inbox[c + 1..]);
              Drive(s, inbox) == e.(sent := [AckSegment(2)] + e.sent)
    decreases c
  {
    if 0 < c {
      Waits(EndsListening, IsConn, inbox, c);
      ListeningExact(s, inbox[1..], c - 1);
      assert c < |inbox| ==> inbox[1..][c..] == inbox[c + 1..];
      assert [] + Drive(s, inbox[1..]).sent == Drive(s, inbox[1..]).sent;
    }
  }

  // A call that never saw a CONN.
  lemma AcceptNoneExact(s: Socket, inbox: seq<Outcome>, c: nat)
    requires FirstAt(EndsListening, inbox, c) && (c < |inbox| ==> !IsConn(inbox[c]))
    ensures Complete(BeginAccept(s), inbox) ==
              if !s.status.Init? then Effect(s.(call := Aborted), [], None, inbox)
              else Effect(s.(call := if c == |inbox| then Accepting else Aborted), [], None, After(inbox, c))
  {
    if s.status.Init? { ListeningExact(s.(call := Accepting), inbox, c); }
  }

  // One ACK 2 for the first CONN, at c, and one more for each later CONN and each timeout before ACK 3, and
  // nothing else; the first ACK 3 ends the call.
  lemma AcceptExact(s: Socket, inbox: seq<Outcome>, c: nat, k: nat)
    requires s.status.Init? && FirstAt(EndsListening, inbox, c) && c < |inbox| && IsConn(inbox[c])
    requires FirstAt(EndsAwaiting, inbox[c + 1..], k)
    ensures var later := inbox[c + 1..];
            var waiting := s.(timeout := s.rtt.estimated + 4 * s.rtt.dev);
            Complete(BeginAccept(s), inbox) == Effect(
              if k == |later| then waiting.(call := AwaitingAck3)
              else if later[k].PeerClosed? then waiting.(call := Aborted)
              else waiting.(status := WaitData0, call := Idle),
              Repeat(AckSegment(2), Count(AsksForAck2, later[..k]) + 1), None, After(later, k))
  {
    var later := inbox[c + 1..];
    var waiting := s.(timeout := s.rtt.estimated + 4 * s.rtt.dev, call := AwaitingAck3);
    ListeningExact(s.(call := Accepting), inbox, c);
    AwaitingExact(waiting, later, k);
    Repeats(AckSegment(2), Count(AsksForAck2, later[..k]), []);
  }

  // ----- send_data, and close_connection of a sender

  function EndsSending(number: byte): Outcome -> bool { (o: Outcome) => o.PeerClosed? || AckArrived(o, number) }

  // DATA carries its sequence number as the ACK awaited, CLOSE 4.
  lemma {:induction false} SendingExact(s: Socket, number: byte, inbox: seq<Outcome>, i: nat)
    requires s.call.Sending? && FirstAt(EndsSending(number), inbox, i)
    requires number == if s.call.segment.kind.Data? then s.call.segment.sequenceNumber else 4
    ensures Drive(s, inbox) == Effect(
              if i == |inbox| then s
              else if inbox[i].PeerClosed? then s.(call := Aborted)
              else if s.call.segment.kind.Data? then
                var rtt := Rtt.Update(s.rtt, inbox[i].sample);
                Socket(WaitSend, (1 - s.sequenceNumber) % 256, rtt, rtt.estimated + 4 * rtt.dev, Idle)
              else s.(status := Closed, call := Shut),
              Repeat(s.call.segment, i), None, After(inbox, i))
    decreases i
  {
    if i == 0 {
      Repeats(s.call.segment, 0, []);
      if inbox != [] { Ends(s, inbox); }
    } else {
      Waits(EndsSending(number), IsData, inbox, i);
      SendingExact(s, number, inbox[1..], i - 1);
      GoesOn(s, inbox, [s.call.segment]);
      Repeats(s.call.segment, i - 1, []);
    }
  }

  // The data segment once, and once more for every outcome before its ACK; then the estimator takes that
  // ACK's sample, and the bit is flipped. In any other state nothing happens.
  lemma SendExact(s: Socket, payload: seq<byte>, inbox: seq<Outcome>, i: nat)
    requires s.call.Idle? && FirstAt(EndsSending(s.sequenceNumber), inbox, i)
    ensures var out := DataSegment(s.sequenceNumber, payload);
            var sending := s.(status := if s.sequenceNumber == 0 then WaitAck0 else WaitAck1);
            Complete(BeginSend(s, payload), inbox) ==
              if !s.status.WaitSend? then Effect(s, [], None, inbox)
              else Effect(
                if i == |inbox| then sending.(call := Sending(out))
                else if inbox[i].PeerClosed? then sending.(call := Aborted)
                else
                  var rtt := Rtt.Update(s.rtt, inbox[i].sample);
                  Socket(WaitSend, (1 - s.sequenceNumber) % 256, rtt, rtt.estimated + 4 * rtt.dev, Idle),
                Repeat(out, i + 1), None, After(inbox, i))
  {
    if s.status.WaitSend? {
      SendingExact(BeginSend(s, payload).socket, s.sequenceNumber, inbox, i);
      Repeats(DataSegment(s.sequenceNumber, payload), i, []);
    }
  }

  // ----- receive_data

  function EndsReceiving(bit: byte): Outcome -> bool {
    (o: Outcome) => !o.Arrived? || IsClose(o) || (IsData(o) && o.segment.sequenceNumber == bit)
  }

  // The ACK that goes with the end of a receive_data.
  function LastAck(bit: byte, inbox: seq<Outcome>, i: nat): seq<Segment> {
    if |inbox| <= i || !inbox[i].Arrived? then []
    else if IsClose(inbox[i]) then [AckSegment(4)] else [AckSegment(bit)]
  }

  // receive_data and one outcome.
  lemma ReceivingReacts(s: Socket, bit: byte, o: Outcome)
    requires bit < 2 && s.call == Receiving(bit) && s.status == (if bit == 0 then WaitData0 else WaitData1)
    ensures React(s, o) == Reaction(
              if !EndsReceiving(bit)(o) then s
              else if !o.Arrived? then s.(call := Aborted)
              else if IsClose(o) then s.(status := Closing, call := Idle)
              else s.(status := if bit == 0 then WaitData1 else WaitData0, call := Idle),
              if !EndsReceiving(bit)(o) then Repeat(AckSegment(1 - bit), if IsData(o) then 1 else 0)
              else LastAck(bit, [o], 0),
              if EndsReceiving(bit)(o) && IsData(o) then Some(o.segment.payload) else None)
  {
  }

  lemma {:induction false} ReceivingExact(s: Socket, bit: byte, inbox: seq<Outcome>, i: nat)
    requires bit < 2 && s.call == Receiving(bit) && s.status == (if bit == 0 then WaitData0 else WaitData1)
    requires FirstAt(EndsReceiving(bit), inbox, i)
    ensures Drive(s, inbox) == Effect(
              if i == |inbox| then s
              else if !inbox[i].Arrived? then s.(call := Aborted)
              else if IsClose(inbox[i]) then s.(status := Closing, call := Idle)
              else s.(status := if bit == 0 then WaitData1 else WaitData0, call := Idle),
              Repeat(AckSegment(1 - bit), Count(IsData, inbox[..i])) + LastAck(bit, inbox, i),
              if i < |inbox| && IsData(inbox[i]) then Some(inbox[i].segment.payload) else None,
              After(inbox, i))
    decreases i
  {
    var last := LastAck(bit, inbox, i);
    if inbox != [] { ReceivingReacts(s, bit, inbox[0]); }
    if i == 0 {
      assert inbox[..0] == [];
      Repeats(AckSegment(1 - bit), 0, last);
      if inbox != [] { Ends(s, inbox); }
    } else {
      Waits(EndsReceiving(bit), IsData, inbox, i);
      ReceivingExact(s, bit, inbox[1..], i - 1);
      GoesOn(s, inbox, Repeat(AckSegment(1 - bit), if IsData(inbox[0]) then 1 else 0));
      RepeatsAdd(AckSegment(1 - bit), if IsData(inbox[0]) then 1 else 0, Count(IsData, inbox[1..][..i - 1]), last);
    }
  }

  // It waits without a timeout, for a data segment with the expected bit or a CLOSE. Data segments before that
  // are answered with the other bit, and everything else is ignored. In any other state nothing happens.
  lemma ReceiveExact(s: Socket, bit: byte, inbox: seq<Outcome>, i: nat)
    requires s.call.Idle? && bit == (if s.status.WaitData0? then 0 else 1) && FirstAt(EndsReceiving(bit), inbox, i)
    ensures var waiting := s.(timeout := 0);
            Complete(BeginReceive(s), inbox) ==
              if !s.status.WaitData0? && !s.status.WaitData1? then Effect(s, [], None, inbox)
              else Effect(
                if i == |inbox| then waiting.(call := Receiving(bit))
                else if !inbox[i].Arrived? then waiting.(call := Aborted)
                else if IsClose(inbox[i]) then waiting.(status := Closing)
                else waiting.(status := if bit == 0 then WaitData1 else WaitData0),
                Repeat(AckSegment(1 - bit), Count(IsData, inbox[..i])) + LastAck(bit, inbox, i),
                if i < |inbox| && IsData(inbox[i]) then Some(inbox[i].segment.payload) else None,
                After(inbox, i))
  {
    if s.status.WaitData0? || s.status.WaitData1? {
      ReceivingExact(BeginReceive(s).socket, bit, inbox, i);
      assert [] + Drive(BeginReceive(s).socket, inbox).sent == Drive(BeginReceive(s).socket, inbox).sent;
    }
  }

  // ----- close_connection

  predicate EndsDraining(o: Outcome) { !o.Arrived? }

  lemma {:induction false} DrainingExact(s: Socket, inbox: seq<Outcome>, i: nat)
    requires s.call.Draining? && FirstAt(EndsDraining, inbox, i)
    ensures Drive(s, inbox) == Effect(
              if i == |inbox| then s else s.(status := Closed, call := Shut),
              Repeat(AckSegment(4), Count(IsClose, inbox[..i])), None, After(inbox, i))
    decreases i
  {
    if i == 0 {
      assert inbox[..0] == [];
      Repeats(AckSegment(4), 0, []);
      if inbox != [] { Ends(s, inbox); }
    } else {
      Waits(EndsDraining, IsClose, inbox, i);
      DrainingExact(s, inbox[1..], i - 1);
      var n := if IsClose(inbox[0]) then 1 else 0;
      GoesOn(s, inbox, Repeat(AckSegment(4), n));
      RepeatsAdd(AckSegment(4), n, Count(IsClose, inbox[1..][..i - 1]), []);
    }
  }

  // A sender transmits CLOSE until ACK 4 comes.
  lemma CloseSenderExact(s: Socket, inbox: seq<Outcome>, i: nat)
    requires s.call.Idle? && s.status.WaitSend? && FirstAt(EndsSending(4), inbox, i)
    ensures Complete(BeginClose(s), inbox) == Effect(
              if i == |inbox| then s.(call := Sending(CLOSE_SEGMENT))
              else if inbox[i].PeerClosed? then s.(call := Aborted)
              else s.(status := Closed, call := Shut),
              Repeat(CLOSE_SEGMENT, i + 1), None, After(inbox, i))
  {
    SendingExact(BeginClose(s).socket, 4, inbox, i);
    Repeats(CLOSE_SEGMENT, i, []);
  }

  // A receiver that has seen the CLOSE answers every further one with ACK 4 until two seconds pass without any
  // segment. Anybody else but a sender is done at once.
  lemma CloseOtherExact(s: Socket, inbox: seq<Outcome>, i: nat)
    requires s.call.Idle? && !s.status.WaitSend? && FirstAt(EndsDraining, inbox, i)
    ensures Complete(BeginClose(s), inbox) ==
              if s.status.Closing? then Effect(
                if i == |inbox| then s.(timeout := 2000, call := Draining)
                else s.(status := Closed, timeout := 2000, call := Shut),
                Repeat(AckSegment(4), Count(IsClose, inbox[..i])), None, After(inbox, i))
              else Effect(s.(call := Shut), [], None, inbox)
  {
    if s.status.Closing? { DrainingExact(BeginClose(s).socket, inbox, i); }
  }
}
