// Two ReliableSockets joined by two channels, as one step relation, and what every run keeps.
//
// The channels are those of mock_network.py: the proxy takes one datagram at a time, drops it or sleeps and
// forwards it, so it loses segments and keeps their order. A segment may also be duplicated in place.

module Transport {
  import opened Prelude
  import opened Segments
  import opened Sockets
  import Rtt

  type Payload = seq<byte>

  // History counters, which no step reads.
  datatype Ledger = Ledger(timeouts: nat, drops: nat, dups: nat, dataSent: nat, ack3Sent: nat)

  datatype Net = Net(
    a: Socket, b: Socket,              // the sender and the receiver
    toB: seq<Segment>, toA: seq<Segment>,
    offered: seq<Payload>,             // payloads passed to send_data
    acked: nat,                        // send_data calls that have returned
    delivered: seq<Payload>,           // payloads receive_data has returned
    ledger: Ledger)

  datatype Event =
    | Connect | Send(payload: Payload) | CloseA            // calls of the sending program
    | Accept | Receive | CloseB                            // calls of the receiving program
    | ArriveA(sample: Millis) | ArriveB                    // receive() yields the oldest segment
    | TimeoutA | TimeoutB
    | DropToA(i: nat) | DropToB(i: nat) | DupToA(i: nat) | DupToB(i: nat)

  const START := Net(FRESH, FRESH, [], [], [], 0, [], Ledger(0, 0, 0, 0, 0))

  function One(b: bool): nat { if b then 1 else 0 }

  function Put(ch: seq<Segment>, sent: seq<Segment>): seq<Segment> { if sent == [] then ch else ch + sent }

  function ActA(n: Net, r: Reaction): Net {
    var l := n.ledger;
    n.(a := r.socket, toB := Put(n.toB, r.sent),
       ledger := l.(dataSent := l.dataSent + One(|r.sent| == 1 && r.sent[0].kind.Data?),
                    ack3Sent := l.ack3Sent + One(|r.sent| == 1 && IsAck(r.sent[0], 3))))
  }

  function ActB(n: Net, r: Reaction): Net {
    n.(b := r.socket, toA := Put(n.toA, r.sent),
       delivered := if r.delivered.Some? then n.delivered + [r.delivered.value] else n.delivered)
  }

  function Tick(n: Net): Net { n.(ledger := n.ledger.(timeouts := n.ledger.timeouts + 1)) }

  function Remove<T>(s: seq<T>, i: nat): (r: seq<T>)
    requires i < |s|
  { s[..i] + s[i + 1..] }

  function Duplicate<T>(s: seq<T>, i: nat): (r: seq<T>)
    requires i < |s|
  { s[..i + 1] + s[i..] }

  predicate AwaitsDataAck(s: Socket) { s.call.Sending? && s.call.segment.kind.Data? }

  // None: the event cannot happen now. A timeout of 0 means that receive() waits forever.
  function Step(n: Net, e: Event): Option<Net> {
    match e
    case Connect => if n.a.call.Idle? && n.a.status.Init? then Some(ActA(n, BeginConnect(n.a))) else None
    case Accept => if n.b.call.Idle? && n.b.status.Init? then Some(ActB(n, BeginAccept(n.b))) else None
    case Send(payload) =>
      if n.a.call.Idle? && n.a.status.WaitSend? && |payload| <= MAX_DATA_SIZE
      then Some(ActA(n, BeginSend(n.a, payload)).(offered := n.offered + [payload])) else None
    case Receive =>
      if n.b.call.Idle? && (n.b.status.WaitData0? || n.b.status.WaitData1?)
      then Some(ActB(n, BeginReceive(n.b))) else None
    case CloseA => if n.a.call.Idle? then Some(ActA(n, BeginClose(n.a))) else None
    case CloseB => if n.b.call.Idle? then Some(ActB(n, BeginClose(n.b))) else None
    case ArriveA(sample) =>
      if n.a.call.Blocked() && n.toA != [] then
        var r := OnArrival(n.a, n.toA[0], sample);
        var m := ActA(n.(toA := n.toA[1..]), r);
        Some(m.(acked := n.acked + One(AwaitsDataAck(n.a) && r.socket.call.Idle?)))
      else None
    case ArriveB =>
      if n.b.call.Blocked() && n.toB != [] then
        var r := OnArrival(n.b, n.toB[0], 0);
        Some(ActB(n.(toB := n.toB[1..]), r))
      else None
    case TimeoutA =>
      if n.a.call.Blocked() && n.a.timeout != 0 then Some(Tick(ActA(n, OnTimeout(n.a)))) else None
    case TimeoutB =>
      if n.b.call.Blocked() && n.b.timeout != 0 then Some(Tick(ActB(n, OnTimeout(n.b)))) else None
    case DropToA(i) =>
      if i < |n.toA|
      then Some(n.(toA := Remove(n.toA, i), ledger := n.ledger.(drops := n.ledger.drops + 1))) else None
    case DropToB(i) =>
      if i < |n.toB|
      then Some(n.(toB := Remove(n.toB, i), ledger := n.ledger.(drops := n.ledger.drops + 1))) else None
    case DupToA(i) =>
      if i < |n.toA|
      then Some(n.(toA := Duplicate(n.toA, i), ledger := n.ledger.(dups := n.ledger.dups + 1))) else None
    case DupToB(i) =>
      if i < |n.toB|
      then Some(n.(toB := Duplicate(n.toB, i), ledger := n.ledger.(dups := n.ledger.dups + 1))) else None
  }

  function Run(n: Net, es: seq<Event>): Option<Net>
    decreases |es|
  {
    if es == [] then Some(n)
    else
      var m := Step(n, es[0]);
      if m.None? then None else Run(m.value, es[1..])
  }

  lemma {:induction false} RunAppend(n: Net, es: seq<Event>, fs: seq<Event>)
    requires Run(n, es).Some?
    ensures Run(n, es + fs) == Run(Run(n, es).value, fs)
    decreases |es|
  {
    if es == [] {
      assert es + fs == fs;
    } else {
      assert (es + fs)[1..] == es[1..] + fs;
      RunAppend(Step(n, es[0]).value, es[1..], fs);
    }
  }

  // One more event at the end of a run.
  lemma RunThen(n: Net, es: seq<Event>, e: Event)
    requires Run(n, es).Some?
    ensures Run(n, es + [e]) == Step(Run(n, es).value, e)
  {
    RunAppend(n, es, [e]);
    var m := Run(n, es).value;
    assert [e][1..] == [];
    assert Run(m, [e]) == if Step(m, e).None? then None else Run(Step(m, e).value, []);
  }

  // ----- where each side is

  predicate Connected(n: Net) { !n.a.status.Init? && !n.a.status.WaitHs2? }   // the sender has seen ACK 2

  predicate ClosingA(n: Net) { n.a.status.Closed? || (n.a.call.Sending? && n.a.call.segment.kind.Close?) }

  predicate SawConn(n: Net) { n.b.call.AwaitingAck3? || !n.b.status.Init? }

  predicate Established(n: Net) { !n.b.status.Init? }                         // the receiver has seen ACK 3

  predicate SawClose(n: Net) { n.b.status.Closing? || n.b.status.Closed? }

  function DataStatus(d: nat): Status { if d % 2 == 0 then WaitData0 else WaitData1 }

  ghost predicate SenderOk(n: Net) {
    var k, total := n.acked, |n.offered|;
    && (k == 0 ==> n.a.rtt == Rtt.INITIAL)
    && (!n.a.status.Init? ==> n.a.timeout == Rtt.Timeout(n.a.rtt))
    && match n.a.call
    case Idle =>
      total == k && n.a.sequenceNumber == k % 2 && (n.a.status.WaitSend? || (n.a.status.Init? && k == 0))
    case Connecting => n.a.status.WaitHs2? && total == k == 0 && n.a.sequenceNumber == 0
    case Sending(s) =>
      n.a.sequenceNumber == k % 2
      && if s.kind.Data?
         then total == k + 1 && s == DataSegment(k % 2, n.offered[k])
              && n.a.status == (if k % 2 == 0 then WaitAck0 else WaitAck1)
         else total == k && s == CLOSE_SEGMENT && n.a.status.WaitSend?
    case Shut => total == k && (n.a.status.Closed? || (n.a.status.Init? && k == 0))
    case _ => false
  }

  ghost predicate ReceiverOk(n: Net) {
    var d := |n.delivered|;
    && n.b.rtt == Rtt.INITIAL
    && match n.b.call
    case Idle => n.b.status == DataStatus(d) || n.b.status.Closing?
                 || (n.b.status.Init? && d == 0 && n.b.timeout == 0)
    case Accepting => n.b.status.Init? && d == 0 && n.b.timeout == 0
    case AwaitingAck3 => n.b.status.Init? && d == 0 && n.b.timeout == 240
    case Receiving(expected) => n.b.status == DataStatus(d) && expected == d % 2 && n.b.timeout == 0
    case Draining => n.b.status.Closing? && n.b.timeout == 2000
    case Shut => n.b.status == DataStatus(d) || n.b.status.Closed? || (n.b.status.Init? && d == 0)
    case _ => false
  }

  ghost predicate Linked(n: Net) {
    && n.acked <= |n.delivered| <= |n.offered|
    && n.delivered == n.offered[..|n.delivered|]
    && (Connected(n) ==> SawConn(n))
    && (Established(n) ==> Connected(n))
    && (SawClose(n) ==> ClosingA(n) && |n.delivered| == |n.offered|)
    && (n.a.status.Closed? ==> SawClose(n))
  }

  // ----- what is in flight
  //
  // Every segment has a level: the order in which the protocol first needs it. With one sequence bit, a data
  // segment or its ACK can only belong to the newest payload or to the one before it. Along each channel
  // levels never fall, and nothing in flight is below what its reader has already passed.

  // Of the last two of `total` payloads, the one whose number has this bit.
  function DataIndex(total: nat, bit: byte): int { if (total - 1) % 2 == bit then total - 1 else total - 2 }

  function LevelB(total: nat, s: Segment): int {
    match s.kind
    case Conn => 0
    case Ack => 1
    case Data => DataIndex(total, s.sequenceNumber) + 2
    case Close => total + 2
  }

  function LevelA(total: nat, s: Segment): int {
    if s.ackNumber == 2 then 0 else if s.ackNumber == 4 then total + 2 else DataIndex(total, s.ackNumber) + 2
  }

  ghost predicate ItemB(offered: seq<Payload>, connected: bool, closing: bool, s: Segment) {
    match s.kind
    case Conn => s == CONN_SEGMENT
    case Ack => connected && s == AckSegment(3)
    case Data =>
      var k := DataIndex(|offered|, s.sequenceNumber);
      0 <= k < |offered| && s == DataSegment(k % 2, offered[k])
    case Close => closing && s == CLOSE_SEGMENT
  }

  ghost predicate ItemA(total: nat, d: nat, sawConn: bool, sawClose: bool, s: Segment) {
    && s == AckSegment(s.ackNumber)
    && (s.ackNumber == 2 ==> sawConn)
    && (s.ackNumber == 4 ==> sawClose)
    && (s.ackNumber != 2 && s.ackNumber != 4 ==> s.ackNumber < 2 && 0 <= DataIndex(total, s.ackNumber) < d)
  }

  // On a channel that keeps its order every segment has its rank. Some reordering does no harm: in a loose
  // channel only the segments that a sequence bit could confuse are ranked.
  predicate RankedB(fifo: bool, s: Segment) { fifo || s.kind.Data? }

  predicate RankedA(fifo: bool, s: Segment) { fifo || s.ackNumber < 2 }

  ghost predicate ChannelB(fifo: bool, offered: seq<Payload>, connected: bool, closing: bool, low: int,
                           ch: seq<Segment>) {
    && (forall i :: 0 <= i < |ch| ==>
          ItemB(offered, connected, closing, ch[i]) && (RankedB(fifo, ch[i]) ==> low <= LevelB(|offered|, ch[i])))
    && (forall i, j :: 0 <= i < j < |ch| && RankedB(fifo, ch[i]) && RankedB(fifo, ch[j]) ==>
          LevelB(|offered|, ch[i]) <= LevelB(|offered|, ch[j]))
  }

  ghost predicate ChannelA(fifo: bool, total: nat, d: nat, sawConn: bool, sawClose: bool, low: int,
                           ch: seq<Segment>) {
    && (forall i :: 0 <= i < |ch| ==>
          ItemA(total, d, sawConn, sawClose, ch[i]) && (RankedA(fifo, ch[i]) ==> low <= LevelA(total, ch[i])))
    && (forall i, j :: 0 <= i < j < |ch| && RankedA(fifo, ch[i]) && RankedA(fifo, ch[j]) ==>
          LevelA(total, ch[i]) <= LevelA(total, ch[j]))
  }

  // The level the receiver has passed, and the level whose ACK the sender has passed.
  function LowB(fifo: bool, n: Net): int {
    if fifo && SawClose(n) then |n.offered| + 2 else if Established(n) then |n.delivered| + 1 else 0
  }

  function LowA(n: Net): int { if n.acked == 0 then 0 else n.acked + 1 }

  // Once the receiver's socket is closed it does not matter what a loose channel brings to it.
  ghost predicate InFlightB(fifo: bool, n: Net) {
    (!fifo && n.b.call.Shut?) || ChannelB(fifo, n.offered, Connected(n), ClosingA(n), LowB(fifo, n), n.toB)
  }

  ghost predicate InFlightA(fifo: bool, n: Net) {
    ChannelA(fifo, |n.offered|, |n.delivered|, SawConn(n), SawClose(n), LowA(n), n.toA)
  }

  ghost predicate InvOver(fifo: bool, n: Net) {
    SenderOk(n) && ReceiverOk(n) && Linked(n) && InFlightB(fifo, n) && InFlightA(fifo, n)
  }

  ghost predicate Inv(n: Net) { InvOver(true, n) }

  // ----- channel lemmas

  lemma PopB(fifo: bool, offered: seq<Payload>, connected: bool, closing: bool, low: int, ch: seq<Segment>)
    requires ChannelB(fifo, offered, connected, closing, low, ch) && ch != []
    ensures ChannelB(fifo, offered, connected, closing,
                     if RankedB(fifo, ch[0]) then LevelB(|offered|, ch[0]) else low, ch[1..])
    ensures RankedB(fifo, ch[0]) ==> low <= LevelB(|offered|, ch[0])
    ensures ItemB(offered, connected, closing, ch[0])
  {
  }

  lemma PopA(fifo: bool, total: nat, d: nat, sawConn: bool, sawClose: bool, low: int, ch: seq<Segment>)
    requires ChannelA(fifo, total, d, sawConn, sawClose, low, ch) && ch != []
    ensures ChannelA(fifo, total, d, sawConn, sawClose,
                     if RankedA(fifo, ch[0]) then LevelA(total, ch[0]) else low, ch[1..])
    ensures RankedA(fifo, ch[0]) ==> low <= LevelA(total, ch[0])
    ensures ItemA(total, d, sawConn, sawClose, ch[0])
  {
  }

  lemma LowerB(fifo: bool, offered: seq<Payload>, connected: bool, closing: bool, low: int, low': int,
               ch: seq<Segment>)
    requires ChannelB(fifo, offered, connected, closing, low, ch) && low' <= low
    ensures ChannelB(fifo, offered, connected, closing, low', ch)
  {
  }

  lemma PushB(fifo: bool, offered: seq<Payload>, connected: bool, closing: bool, low: int, ch: seq<Segment>,
              s: Segment)
    requires ChannelB(fifo, offered, connected, closing, low, ch) && ItemB(offered, connected, closing, s)
    requires RankedB(fifo, s) ==>
      low <= LevelB(|offered|, s)
      && forall i :: 0 <= i < |ch| && RankedB(fifo, ch[i]) ==> LevelB(|offered|, ch[i]) <= LevelB(|offered|, s)
    ensures ChannelB(fifo, offered, connected, closing, low, ch + [s])
  {
  }

  lemma PushA(fifo: bool, total: nat, d: nat, sawConn: bool, sawClose: bool, low: int, ch: seq<Segment>, s: Segment)
    requires ChannelA(fifo, total, d, sawConn, sawClose, low, ch) && ItemA(total, d, sawConn, sawClose, s)
    requires RankedA(fifo, s) ==>
      low <= LevelA(total, s)
      && forall i :: 0 <= i < |ch| && RankedA(fifo, ch[i]) ==> LevelA(total, ch[i]) <= LevelA(total, s)
    ensures ChannelA(fifo, total, d, sawConn, sawClose, low, ch + [s])
  {
  }

  lemma RemoveB(fifo: bool, offered: seq<Payload>, connected: bool, closing: bool, low: int,
                ch: seq<Segment>, i: nat)
    requires ChannelB(fifo, offered, connected, closing, low, ch) && i < |ch|
    ensures ChannelB(fifo, offered, connected, closing, low, Remove(ch, i))
  {
    var r := Remove(ch, i);
    forall j | 0 <= j < |r| ensures r[j] == ch[if j < i then j else j + 1] { }
  }

  lemma DuplicateB(fifo: bool, offered: seq<Payload>, connected: bool, closing: bool, low: int,
                   ch: seq<Segment>, i: nat)
    requires ChannelB(fifo, offered, connected, closing, low, ch) && i < |ch|
    ensures ChannelB(fifo, offered, connected, closing, low, Duplicate(ch, i))
  {
    var r := Duplicate(ch, i);
    forall j | 0 <= j < |r| ensures r[j] == ch[if j <= i then j else j - 1] { }
  }

  lemma RemoveA(fifo: bool, total: nat, d: nat, sawConn: bool, sawClose: bool, low: int, ch: seq<Segment>, i: nat)
    requires ChannelA(fifo, total, d, sawConn, sawClose, low, ch) && i < |ch|
    ensures ChannelA(fifo, total, d, sawConn, sawClose, low, Remove(ch, i))
  {
    var r := Remove(ch, i);
    forall j | 0 <= j < |r| ensures r[j] == ch[if j < i then j else j + 1] { }
  }

  lemma DuplicateA(fifo: bool, total: nat, d: nat, sawConn: bool, sawClose: bool, low: int,
                   ch: seq<Segment>, i: nat)
    requires ChannelA(fifo, total, d, sawConn, sawClose, low, ch) && i < |ch|
    ensures ChannelA(fifo, total, d, sawConn, sawClose, low, Duplicate(ch, i))
  {
    var r := Duplicate(ch, i);
    forall j | 0 <= j < |r| ensures r[j] == ch[if j <= i then j else j - 1] { }
  }

  // ----- every step keeps the invariant, in both forms

  // Whatever the sender's blocked call retransmits may be put behind what is in flight.
  lemma Retransmit(fifo: bool, n: Net)
    requires InvOver(fifo, n) && n.a.call.Blocked()
    ensures var s := if n.a.call.Connecting? then CONN_SEGMENT else n.a.call.segment;
            InFlightB(fifo, n.(toB := n.toB + [s]))
  {
    if fifo || !n.b.call.Shut? {
      var s := if n.a.call.Connecting? then CONN_SEGMENT else n.a.call.segment;
      PushB(fifo, n.offered, Connected(n), ClosingA(n), LowB(fifo, n), n.toB, s);
    }
  }

  // The ACKs a receiver may repeat.
  lemma Reacknowledge(fifo: bool, n: Net, number: byte)
    requires InvOver(fifo, n) && SawConn(n)
    requires if SawClose(n) then number == 4
             else if |n.delivered| == 0 then number == 2 && !Established(n)
             else number == (|n.delivered| - 1) % 2
    ensures InFlightA(fifo, n.(toA := n.toA + [AckSegment(number)]))
  {
    PushA(fifo, |n.offered|, |n.delivered|, SawConn(n), SawClose(n), LowA(n), n.toA, AckSegment(number));
  }

  // When the sender is between calls, nothing in flight is older than the payload acknowledged last, so one
  // more payload renumbers nothing.
  lemma RenumberB(fifo: bool, n: Net, payload: Payload)
    requires InvOver(fifo, n) && n.a.call.Idle? && n.a.status.WaitSend? && (fifo || !n.b.call.Shut?)
    ensures ChannelB(fifo, n.offered + [payload], true, false, LowB(fifo, n), n.toB)
    ensures forall i :: 0 <= i < |n.toB| ==> LevelB(|n.offered| + 1, n.toB[i]) <= |n.offered| + 1
  {
    var total := |n.offered|;
    forall i | 0 <= i < |n.toB|
      ensures LevelB(total + 1, n.toB[i]) == LevelB(total, n.toB[i]) <= total + 1
      ensures ItemB(n.offered + [payload], true, false, n.toB[i])
    {
      if n.toB[i].kind.Data? { assert LowB(fifo, n) == total + 1; }
    }
  }

  lemma RenumberA(fifo: bool, n: Net)
    requires InvOver(fifo, n) && n.a.call.Idle? && n.a.status.WaitSend?
    ensures ChannelA(fifo, |n.offered| + 1, |n.delivered|, SawConn(n), false, LowA(n), n.toA)
  {
    var total := |n.offered|;
    forall i | 0 <= i < |n.toA|
      ensures LevelA(total + 1, n.toA[i]) == LevelA(total, n.toA[i])
      ensures ItemA(total + 1, |n.delivered|, SawConn(n), false, n.toA[i])
    {
    }
  }

  lemma SendKeepsInv(fifo: bool, n: Net, payload: Payload)
    requires InvOver(fifo, n) && Step(n, Send(payload)).Some?
    ensures InvOver(fifo, Step(n, Send(payload)).value)
  {
    var n' := Step(n, Send(payload)).value;
    RenumberA(fifo, n);
    if fifo || !n.b.call.Shut? {
      RenumberB(fifo, n, payload);
      PushB(fifo, n'.offered, true, false, LowB(fifo, n'), n.toB, DataSegment(n.a.sequenceNumber, payload));
    }
  }

  lemma ConnectKeepsInv(fifo: bool, n: Net)
    requires InvOver(fifo, n) && Step(n, Connect).Some?
    ensures InvOver(fifo, Step(n, Connect).value)
  {
    var n' := Step(n, Connect).value;
    assert n'.toB == n.toB + [CONN_SEGMENT];
    if fifo || !n.b.call.Shut? {
      PushB(fifo, n'.offered, Connected(n'), ClosingA(n'), LowB(fifo, n'), n.toB, CONN_SEGMENT);
    }
  }

  lemma CloseAKeepsInv(fifo: bool, n: Net)
    requires InvOver(fifo, n) && Step(n, CloseA).Some?
    ensures InvOver(fifo, Step(n, CloseA).value)
  {
    var n' := Step(n, CloseA).value;
    if !n.a.status.WaitSend? {
      assert n'.toB == n.toB;
    } else if fifo || !n.b.call.Shut? {
      assert ChannelB(fifo, n'.offered, Connected(n'), ClosingA(n'), LowB(fifo, n'), n.toB);
      PushB(fifo, n'.offered, Connected(n'), ClosingA(n'), LowB(fifo, n'), n.toB, CLOSE_SEGMENT);
    }
  }

  lemma ReceiverCallKeepsInv(fifo: bool, n: Net, e: Event)
    requires InvOver(fifo, n) && Step(n, e).Some? && (e.Accept? || e.Receive? || e.CloseB?)
    ensures InvOver(fifo, Step(n, e).value)
  {
    var n' := Step(n, e).value;
    assert n'.toA == n.toA && n'.delivered == n.delivered;
  }

  lemma Ack2ArrivalKeepsInv(fifo: bool, n: Net, sample: Millis)
    requires InvOver(fifo, n) && Step(n, ArriveA(sample)).Some? && n.a.call.Connecting? && n.toA[0].ackNumber == 2
    ensures InvOver(fifo, Step(n, ArriveA(sample)).value)
  {
    var n' := Step(n, ArriveA(sample)).value;
    PopA(fifo, |n.offered|, |n.delivered|, SawConn(n), SawClose(n), LowA(n), n.toA);
    assert n'.toB == n.toB + [AckSegment(3)];
    if fifo || !n.b.call.Shut? {
      assert ChannelB(fifo, n'.offered, Connected(n'), ClosingA(n'), LowB(fifo, n'), n.toB);
      PushB(fifo, n'.offered, Connected(n'), ClosingA(n'), LowB(fifo, n'), n.toB, AckSegment(3));
    }
  }

  lemma ExpectedAckKeepsInv(fifo: bool, n: Net, sample: Millis)
    requires InvOver(fifo, n) && Step(n, ArriveA(sample)).Some?
    requires n.a.call.Sending? && n.toA[0].ackNumber == ExpectedAck(n.a.call.segment)
    ensures InvOver(fifo, Step(n, ArriveA(sample)).value)
  {
    PopA(fifo, |n.offered|, |n.delivered|, SawConn(n), SawClose(n), LowA(n), n.toA);
  }

  lemma WrongAckKeepsInv(fifo: bool, n: Net, sample: Millis)
    requires InvOver(fifo, n) && Step(n, ArriveA(sample)).Some?
    requires n.toA[0].ackNumber != if n.a.call.Sending? then ExpectedAck(n.a.call.segment) else 2
    ensures InvOver(fifo, Step(n, ArriveA(sample)).value)
  {
    PopA(fifo, |n.offered|, |n.delivered|, SawConn(n), SawClose(n), LowA(n), n.toA);
    Retransmit(fifo, n);
    assert Step(n, ArriveA(sample)).value.a == n.a;
  }

  lemma ArriveAKeepsInv(fifo: bool, n: Net, sample: Millis)
    requires InvOver(fifo, n) && Step(n, ArriveA(sample)).Some?
    ensures InvOver(fifo, Step(n, ArriveA(sample)).value)
  {
    if n.a.call.Connecting? && n.toA[0].ackNumber == 2 {
      Ack2ArrivalKeepsInv(fifo, n, sample);
    } else if n.a.call.Sending? && n.toA[0].ackNumber == ExpectedAck(n.a.call.segment) {
      ExpectedAckKeepsInv(fifo, n, sample);
    } else {
      WrongAckKeepsInv(fifo, n, sample);
    }
  }

  lemma HandshakeArrivalKeepsInv(fifo: bool, n: Net)
    requires InvOver(fifo, n) && Step(n, ArriveB).Some? && (n.b.call.Accepting? || n.b.call.AwaitingAck3?)
    ensures InvOver(fifo, Step(n, ArriveB).value)
  {
    var n' := Step(n, ArriveB).value;
    PopB(fifo, n.offered, Connected(n), ClosingA(n), LowB(fifo, n), n.toB);
    if n.toB[0].kind.Conn? {
      LowerB(fifo, n.offered, Connected(n), ClosingA(n), 0, LowB(fifo, n'), n.toB[1..]);
      assert n'.toA == n.toA + [AckSegment(2)];
      assert ChannelA(fifo, |n'.offered|, |n'.delivered|, SawConn(n'), SawClose(n'), LowA(n'), n.toA);
      PushA(fifo, |n'.offered|, |n'.delivered|, SawConn(n'), SawClose(n'), LowA(n'), n.toA, AckSegment(2));
    } else {
      LowerB(fifo, n.offered, Connected(n), ClosingA(n), LevelB(|n.offered|, n.toB[0]), LowB(fifo, n'), n.toB[1..]);
      assert n'.toA == n.toA;
    }
  }

  // The bit tells the one payload that may be new from the one that was delivered last.
  lemma DataInFlight(fifo: bool, n: Net)
    requires InvOver(fifo, n) && n.b.call.Receiving? && n.toB != [] && n.toB[0].kind.Data?
    ensures var d, k := |n.delivered|, DataIndex(|n.offered|, n.toB[0].sequenceNumber);
            && (k == d || k == d - 1) && 0 <= k < |n.offered| && n.toB[0] == DataSegment(k % 2, n.offered[k])
            && ChannelB(fifo, n.offered, Connected(n), ClosingA(n), k + 2, n.toB[1..])
            && !SawClose(n)
  {
    PopB(fifo, n.offered, Connected(n), ClosingA(n), LowB(fifo, n), n.toB);
  }

  lemma NewDataExtends(fifo: bool, n: Net)
    requires InvOver(fifo, n) && Step(n, ArriveB).Some? && n.b.call.Receiving? && n.toB[0].kind.Data?
    requires n.toB[0].sequenceNumber == n.b.call.expected
    ensures var n', d := Step(n, ArriveB).value, |n.delivered|;
            && d < |n.offered| && n'.delivered == n.delivered + [n.offered[d]] == n.offered[..d + 1]
            && n'.toA == n.toA + [AckSegment(d % 2)] && n'.toB == n.toB[1..]
            && n'.b.status == DataStatus(d + 1) && n'.b.call.Idle?
            && ChannelB(fifo, n.offered, Connected(n), ClosingA(n), d + 2, n'.toB)
  {
    DataInFlight(fifo, n);
  }

  lemma NewDataKeepsInv(fifo: bool, n: Net)
    requires InvOver(fifo, n) && Step(n, ArriveB).Some? && n.b.call.Receiving? && n.toB[0].kind.Data?
    requires n.toB[0].sequenceNumber == n.b.call.expected
    ensures InvOver(fifo, Step(n, ArriveB).value)
  {
    var n', d := Step(n, ArriveB).value, |n.delivered|;
    NewDataExtends(fifo, n);
    assert n'.a == n.a && n'.offered == n.offered && n'.acked == n.acked;
    assert ChannelA(fifo, |n.offered|, d + 1, true, false, LowA(n), n.toA);
    PushA(fifo, |n.offered|, d + 1, true, false, LowA(n), n.toA, AckSegment(d % 2));
  }

  lemma OldDataKeepsInv(fifo: bool, n: Net)
    requires InvOver(fifo, n) && Step(n, ArriveB).Some? && n.b.call.Receiving? && n.toB[0].kind.Data?
    requires n.toB[0].sequenceNumber != n.b.call.expected
    ensures InvOver(fifo, Step(n, ArriveB).value)
  {
    var n', again := Step(n, ArriveB).value, Flip(|n.delivered| % 2);
    DataInFlight(fifo, n);
    assert |n.delivered| != 0 && again == (|n.delivered| - 1) % 2;
    Reacknowledge(fifo, n, again);
    assert n' == n.(toB := n.toB[1..], toA := n.toA + [AckSegment(again)]);
  }

  lemma CloseArrivalKeepsInv(fifo: bool, n: Net)
    requires InvOver(fifo, n) && Step(n, ArriveB).Some? && n.b.call.Receiving? && n.toB[0].kind.Close?
    ensures InvOver(fifo, Step(n, ArriveB).value)
  {
    var n' := Step(n, ArriveB).value;
    PopB(fifo, n.offered, Connected(n), ClosingA(n), LowB(fifo, n), n.toB);
    assert n'.toA == n.toA + [AckSegment(4)];
    assert ChannelA(fifo, |n'.offered|, |n'.delivered|, SawConn(n'), SawClose(n'), LowA(n'), n.toA);
    PushA(fifo, |n'.offered|, |n'.delivered|, SawConn(n'), SawClose(n'), LowA(n'), n.toA, AckSegment(4));
  }

  lemma OtherArrivalKeepsInv(fifo: bool, n: Net)
    requires InvOver(fifo, n) && Step(n, ArriveB).Some?
    requires n.b.call.Draining? || (n.b.call.Receiving? && !n.toB[0].kind.Data? && !n.toB[0].kind.Close?)
    ensures InvOver(fifo, Step(n, ArriveB).value)
  {
    var n' := Step(n, ArriveB).value;
    PopB(fifo, n.offered, Connected(n), ClosingA(n), LowB(fifo, n), n.toB);
    var low := if RankedB(fifo, n.toB[0]) then LevelB(|n.offered|, n.toB[0]) else LowB(fifo, n);
    LowerB(fifo, n.offered, Connected(n), ClosingA(n), low, LowB(fifo, n), n.toB[1..]);
    if n.b.call.Draining? && n.toB[0].kind.Close? {
      Reacknowledge(fifo, n, 4);
    } else {
      assert n'.toA == n.toA;
    }
  }

  lemma TimeoutAKeepsInv(fifo: bool, n: Net)
    requires InvOver(fifo, n) && Step(n, TimeoutA).Some?
    ensures InvOver(fifo, Step(n, TimeoutA).value)
  {
    Retransmit(fifo, n);
    assert Step(n, TimeoutA).value.toA == n.toA;
  }

  lemma TimeoutBKeepsInv(fifo: bool, n: Net)
    requires InvOver(fifo, n) && Step(n, TimeoutB).Some?
    ensures InvOver(fifo, Step(n, TimeoutB).value)
  {
    var n' := Step(n, TimeoutB).value;
    if n.b.call.AwaitingAck3? {
      Reacknowledge(fifo, n, 2);
    } else {
      assert n'.toA == n.toA && n'.toB == n.toB;
    }
  }

  // Only one channel and the history change.
  lemma OtherToAKeepsInv(fifo: bool, n: Net, ch: seq<Segment>, l: Ledger)
    requires InvOver(fifo, n) && InFlightA(fifo, n.(toA := ch))
    ensures InvOver(fifo, n.(toA := ch, ledger := l))
  {
  }

  lemma OtherToBKeepsInv(fifo: bool, n: Net, ch: seq<Segment>, l: Ledger)
    requires InvOver(fifo, n) && InFlightB(fifo, n.(toB := ch))
    ensures InvOver(fifo, n.(toB := ch, ledger := l))
  {
  }

  lemma DamageToAKeepsInv(fifo: bool, n: Net, e: Event)
    requires InvOver(fifo, n) && Step(n, e).Some? && (e.DropToA? || e.DupToA?)
    ensures InvOver(fifo, Step(n, e).value)
  {
    var n' := Step(n, e).value;
    if e.DropToA? { RemoveA(fifo, |n.offered|, |n.delivered|, SawConn(n), SawClose(n), LowA(n), n.toA, e.i); }
    else { DuplicateA(fifo, |n.offered|, |n.delivered|, SawConn(n), SawClose(n), LowA(n), n.toA, e.i); }
    OtherToAKeepsInv(fifo, n, n'.toA, n'.ledger);
  }

  lemma DamageToBKeepsInv(fifo: bool, n: Net, e: Event)
    requires InvOver(fifo, n) && Step(n, e).Some? && (e.DropToB? || e.DupToB?)
    ensures InvOver(fifo, Step(n, e).value)
  {
    var n' := Step(n, e).value;
    if fifo || !n.b.call.Shut? {
      if e.DropToB? { RemoveB(fifo, n.offered, Connected(n), ClosingA(n), LowB(fifo, n), n.toB, e.i); }
      else { DuplicateB(fifo, n.offered, Connected(n), ClosingA(n), LowB(fifo, n), n.toB, e.i); }
    }
    OtherToBKeepsInv(fifo, n, n'.toB, n'.ledger);
  }

  lemma StepKeepsInv(fifo: bool, n: Net, e: Event)
    requires InvOver(fifo, n) && Step(n, e).Some?
    ensures InvOver(fifo, Step(n, e).value)
  {
    match e
    case Connect => ConnectKeepsInv(fifo, n);
    case Send(payload) => SendKeepsInv(fifo, n, payload);
    case CloseA => CloseAKeepsInv(fifo, n);
    case Accept | Receive | CloseB => ReceiverCallKeepsInv(fifo, n, e);
    case ArriveA(sample) => ArriveAKeepsInv(fifo, n, sample);
    case ArriveB =>
      if n.b.call.Accepting? || n.b.call.AwaitingAck3? { HandshakeArrivalKeepsInv(fifo, n); }
      else if n.b.call.Draining? { OtherArrivalKeepsInv(fifo, n); }
      else if n.toB[0].kind.Data? {
        if n.toB[0].sequenceNumber == n.b.call.expected { NewDataKeepsInv(fifo, n); } else { OldDataKeepsInv(fifo, n); }
      }
      else if n.toB[0].kind.Close? { CloseArrivalKeepsInv(fifo, n); }
      else { OtherArrivalKeepsInv(fifo, n); }
    case TimeoutA => TimeoutAKeepsInv(fifo, n);
    case TimeoutB => TimeoutBKeepsInv(fifo, n);
    case DropToA(_) | DupToA(_) => DamageToAKeepsInv(fifo, n, e);
    case DropToB(_) | DupToB(_) => DamageToBKeepsInv(fifo, n, e);
  }

  lemma {:induction false} RunKeepsInv(fifo: bool, n: Net, es: seq<Event>)
    requires InvOver(fifo, n) && Run(n, es).Some?
    ensures InvOver(fifo, Run(n, es).value)
    decreases |es|
  {
    if es != [] {
      StepKeepsInv(fifo, n, es[0]);
      RunKeepsInv(fifo, Step(n, es[0]).value, es[1..]);
    }
  }

  // ----- the promises

  // In every run, handshake included, what receive_data returned is a prefix of what send_data was given, and
  // the sender's count of completed calls is never ahead of the receiver and at most one behind.
  lemma DeliversInOrder(es: seq<Event>)
    requires Run(START, es).Some?
    ensures var n := Run(START, es).value;
            && n.delivered <= n.offered
            && n.acked <= |n.delivered| <= n.acked + 1
            && n.acked <= |n.offered| <= n.acked + 1
  {
    RunKeepsInv(true, START, es);
  }

  // A CLOSE only gets through after everything else: once the receiver has seen it, or the sender's
  // close_connection has returned, the whole of what was sent has been delivered.
  lemma CloseMeansComplete(es: seq<Event>)
    requires Run(START, es).Some?
    ensures var n := Run(START, es).value;
            && (n.b.status.Closing? || n.b.status.Closed? ==> n.delivered == n.offered && n.acked == |n.offered|)
            && (n.a.status.Closed? ==> n.delivered == n.offered && (n.b.status.Closing? || n.b.status.Closed?))
  {
    RunKeepsInv(true, START, es);
  }

  // No run takes either socket to exit() or to an exception nobody catches: neither through its state, nor by a
  // timeout, nor by an empty datagram, which receive() would turn into ConnectionClosed.
  lemma NeverAborts(es: seq<Event>)
    requires Run(START, es).Some?
    ensures var n := Run(START, es).value;
            && !n.a.call.Aborted? && !n.b.call.Aborted?
            && forall s: Segment, padding: byte :: s in n.toA + n.toB ==> Wire(s, padding) != []
  {
    RunKeepsInv(true, START, es);
    var n := Run(START, es).value;
    assert SenderOk(n) && ReceiverOk(n);
  }
}
