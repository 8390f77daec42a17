// The main loops of sender.cpp and receiver.cpp over a ReliableSocket.

module Programs {
  import opened Prelude
  import opened Segments
  import opened Sockets
  import opened Calls
  import opened ReliableSockets
  import opened Chunking

  // ----- what the sending program does to a socket

  // send_data for each chunk, then close_connection, as far as the outcomes reach.
  function SendAll(s: Socket, chunks: seq<seq<byte>>, inbox: seq<Outcome>): Effect
    decreases |chunks|
  {
    if chunks == [] then Complete(BeginClose(s), inbox)
    else
      var e := Complete(BeginSend(s, chunks[0]), inbox);
      if !e.socket.call.Idle? then e
      else
        var f := SendAll(e.socket, chunks[1..], e.rest);
        f.(sent := e.sent + f.sent)
  }

  function SendFile(s: Socket, file: seq<byte>, inbox: seq<Outcome>): Effect {
    var e := Complete(BeginConnect(s), inbox);
    if !e.socket.call.Idle? then e
    else
      var f := SendAll(e.socket, Chunks(file), e.rest);
      f.(sent := e.sent + f.sent)
  }

  // A program whose whole effect is `whole` and whose outbox was `base` still has `e` to do.
  ghost predicate Remains(whole: Effect, base: seq<Segment>, e: Effect, outbox: seq<Segment>) {
    && whole.socket == e.socket && whole.rest == e.rest && whole.delivered == e.delivered
    && base + whole.sent == outbox + e.sent
  }

  // One more call done, from outbox to outbox + e.sent, with f still to come.
  lemma RemainsAfter(whole: Effect, base: seq<Segment>, e: Effect, f: Effect, outbox: seq<Segment>)
    requires Remains(whole, base, f.(sent := e.sent + f.sent), outbox)
    ensures Remains(whole, base, f, outbox + e.sent)
  {
    assert outbox + (e.sent + f.sent) == outbox + e.sent + f.sent;
  }

  // The program's whole effect, reached.
  ghost predicate Ended(whole: Effect, base: seq<Segment>, s: Socket, inbox: seq<Outcome>, outbox: seq<Segment>) {
    whole == Effect(s, whole.sent, None, inbox) && outbox == base + whole.sent
  }

  method OpenSending(socket: ReliableSocket, file: seq<byte>, ghost whole: Effect, ghost base: seq<Segment>)
    returns (at: Call)
    requires socket.Valid() && whole == SendFile(socket.Model(Idle), file, socket.inbox) && base == socket.outbox
    modifies socket
    ensures socket.Valid()
    ensures at.Idle? ==> Remains(whole, base, SendAll(socket.Model(Idle), Chunks(file), socket.inbox), socket.outbox)
    ensures !at.Idle? ==> Ended(whole, base, socket.Model(at), socket.inbox, socket.outbox)
  {
    ghost var e := Complete(BeginConnect(socket.Model(Idle)), socket.inbox);
    at := socket.ConnectToRemote();
    if at.Idle? { RemainsAfter(whole, base, e, SendAll(e.socket, Chunks(file), e.rest), base); }
  }

  method CloseSending(socket: ReliableSocket, ghost whole: Effect, ghost base: seq<Segment>) returns (at: Call)
    requires socket.Valid()
    requires Remains(whole, base, SendAll(socket.Model(Idle), [], socket.inbox), socket.outbox)
    modifies socket
    ensures socket.Valid() && Ended(whole, base, socket.Model(at), socket.inbox, socket.outbox)
  {
    at := socket.CloseConnection();
  }

  // One turn of the sending loop.
  method SendNext(socket: ReliableSocket, buff: seq<byte>, ghost later: seq<seq<byte>>,
                  ghost whole: Effect, ghost base: seq<Segment>) returns (at: Call)
    requires socket.Valid()
    requires Remains(whole, base, SendAll(socket.Model(Idle), [buff] + later, socket.inbox), socket.outbox)
    modifies socket
    ensures socket.Valid()
    ensures at.Idle? ==> Remains(whole, base, SendAll(socket.Model(Idle), later, socket.inbox), socket.outbox)
    ensures !at.Idle? ==> Ended(whole, base, socket.Model(at), socket.inbox, socket.outbox)
  {
    ghost var s, inbox, outbox := socket.Model(Idle), socket.inbox, socket.outbox;
    ghost var e := Complete(BeginSend(s, buff), inbox);
    ghost var f := SendAll(e.socket, later, e.rest);
    assert ([buff] + later)[1..] == later;
    assert SendAll(s, [buff] + later, inbox) == if !e.socket.call.Idle? then e else f.(sent := e.sent + f.sent);
    at := socket.SendData(buff);
    if at.Idle? { RemainsAfter(whole, base, e, f, outbox); }
  }

  // sender.cpp, main
  method SenderMain(socket: ReliableSocket, file: seq<byte>) returns (at: Call)
    requires socket.Valid()
    modifies socket
    ensures socket.Valid()
    ensures var whole := SendFile(old(socket.Model(Idle)), file, old(socket.inbox));
            && socket.Model(at) == whole.socket && socket.inbox == whole.rest
            && socket.outbox == old(socket.outbox) + whole.sent
  {
    ghost var whole, base := SendFile(socket.Model(Idle), file, socket.inbox), socket.outbox;
    at := OpenSending(socket, file, whole, base);
    var position, eof := 0, false;
    while !eof && at == Idle
      invariant socket.Valid() && 0 <= position <= |file|
      invariant at.Idle? ==>
        Remains(whole, base,
                SendAll(socket.Model(Idle), if eof then [] else Chunks(file[position..]), socket.inbox), socket.outbox)
      invariant !at.Idle? ==> Ended(whole, base, socket.Model(at), socket.inbox, socket.outbox)
      decreases |file| - position, !eof
    {
      // input_file.read(...) and gcount()
      var count := MAX_DATA_SIZE;
      if |file| - position < count {
        count := |file| - position;
        eof := true;
      }
      var buff := file[position..position + count];
      ghost var later := if eof then [] else Chunks(file[position + count..]);
      NextChunk(file, position);
      at := SendNext(socket, buff, later, whole, base);
      position := position + count;
    }
    if at == Idle { at := CloseSending(socket, whole, base); }
  }

  lemma NextChunk(file: seq<byte>, position: nat)
    requires position <= |file|
    ensures var rest := |file| - position;
            Chunks(file[position..]) ==
              if rest < MAX_DATA_SIZE then [file[position..position + rest]] + []
              else [file[position..position + MAX_DATA_SIZE]] + Chunks(file[position + MAX_DATA_SIZE..])
  {
    var left := file[position..];
    if MAX_DATA_SIZE <= |left| {
      assert left[..MAX_DATA_SIZE] == file[position..position + MAX_DATA_SIZE];
      assert left[MAX_DATA_SIZE..] == file[position + MAX_DATA_SIZE..];
    } else {
      assert left == file[position..position + |left|];
    }
  }

  // ----- what the sending program puts on the wire

  // Immediate repetitions removed.
  function Collapse(s: seq<Segment>): seq<Segment>
    decreases |s|
  {
    if |s| < 2 then s
    else if s[0] == s[1] then Collapse(s[1..]) else [s[0]] + Collapse(s[1..])
  }

  // The alternating-bit numbering of a list of payloads, and a CLOSE.
  function Script(bit: byte, chunks: seq<seq<byte>>): seq<Segment>
    decreases |chunks|
  {
    if chunks == [] then [CLOSE_SEGMENT]
    else [DataSegment(bit, chunks[0])] + Script(Flip(bit), chunks[1..])
  }

  lemma {:induction false} CollapseRun(x: Segment, m: nat, rest: seq<Segment>)
    requires 1 <= m && (rest != [] ==> rest[0] != x)
    ensures Collapse(Repeat(x, m) + rest) == [x] + Collapse(rest)
    decreases m
  {
    var s := Repeat(x, m) + rest;
    if m == 1 {
      assert s == [x] + rest && s[1..] == rest;
    } else {
      assert s[1..] == Repeat(x, m - 1) + rest;
      CollapseRun(x, m - 1, rest);
    }
  }

  // What send_data transmits is one segment, a positive number of times.
  lemma SendRepeats(s: Socket, payload: seq<byte>, inbox: seq<Outcome>) returns (m: nat)
    requires s.status.WaitSend? && s.call.Idle?
    ensures var e := Complete(BeginSend(s, payload), inbox);
            && 1 <= m && e.sent == Repeat(DataSegment(s.sequenceNumber, payload), m) && !e.socket.call.Shut?
            && (e.socket.call.Idle? ==> e.socket.status.WaitSend? && e.socket.sequenceNumber == Flip(s.sequenceNumber))
  {
    var i := HasFirst(EndsSending(s.sequenceNumber), inbox);
    SendExact(s, payload, inbox, i);
    m := i + 1;
  }

  lemma {:induction false} SendAllTranscript(s: Socket, chunks: seq<seq<byte>>, inbox: seq<Outcome>)
    requires s.status.WaitSend? && s.sequenceNumber < 2 && s.call.Idle?
    ensures var e := SendAll(s, chunks, inbox);
            && e.sent != [] && e.sent[0] == Script(s.sequenceNumber, chunks)[0]
            && (e.socket.call.Shut? ==> e.socket.status.Closed? && Collapse(e.sent) == Script(s.sequenceNumber, chunks))
    decreases |chunks|
  {
    if chunks == [] {
      var i := HasFirst(EndsSending(4), inbox);
      CloseSenderExact(s, inbox, i);
      CollapseRun(CLOSE_SEGMENT, i + 1, []);
      assert Repeat(CLOSE_SEGMENT, i + 1) + [] == Repeat(CLOSE_SEGMENT, i + 1);
    } else {
      var m := SendRepeats(s, chunks[0], inbox);
      var e := Complete(BeginSend(s, chunks[0]), inbox);
      if e.socket.call.Idle? {
        SendAllTranscript(e.socket, chunks[1..], e.rest);
        var f := SendAll(e.socket, chunks[1..], e.rest);
        CollapseRun(DataSegment(s.sequenceNumber, chunks[0]), m, f.sent);
      }
    }
  }

  lemma CollapseApart(x: Segment, rest: seq<Segment>)
    requires rest != [] && rest[0] != x
    ensures Collapse([x] + rest) == [x] + Collapse(rest)
  {
    assert ([x] + rest)[1..] == rest;
  }

  lemma Regrouped(a: seq<Segment>, b: seq<Segment>, c: seq<Segment>)
    ensures a + b + c == a + (b + c)
  {
  }

  lemma CollapseOpening(m: nat, rest: seq<Segment>)
    requires 1 <= m && rest != [] && rest[0] != AckSegment(3)
    ensures Collapse(Repeat(CONN_SEGMENT, m) + [AckSegment(3)] + rest)
            == [CONN_SEGMENT] + ([AckSegment(3)] + Collapse(rest))
  {
    var conns, tail := Repeat(CONN_SEGMENT, m), [AckSegment(3)] + rest;
    assert Collapse(conns + tail) == [CONN_SEGMENT] + Collapse(tail) by { CollapseRun(CONN_SEGMENT, m, tail); }
    assert Collapse(tail) == [AckSegment(3)] + Collapse(rest) by { CollapseApart(AckSegment(3), rest); }
    Regrouped(conns, [AckSegment(3)], rest);
  }

  lemma OpeningTranscript(inbox: seq<Outcome>) returns (m: nat)
    ensures var e := Complete(BeginConnect(FRESH), inbox);
            && 1 <= m && !e.socket.call.Shut?
            && (e.socket.call.Idle? ==> e.sent == Repeat(CONN_SEGMENT, m) + [AckSegment(3)]
                                        && e.socket.status.WaitSend? && e.socket.sequenceNumber == 0)
  {
    var i := HasFirst(EndsConnecting, inbox);
    ConnectExact(FRESH, inbox, i);
    m := i + 1;
  }

  // Whatever is lost, late or repeated: when the sending program ends, what it transmitted is, apart from
  // immediate repetitions, CONN, ACK 3, the file's chunks with alternating bits, and CLOSE.
  lemma SenderTranscript(file: seq<byte>, inbox: seq<Outcome>)
    ensures var e := SendFile(FRESH, file, inbox);
            e.socket.call.Shut? ==>
              e.socket.status.Closed? && Collapse(e.sent) == [CONN_SEGMENT, AckSegment(3)] + Script(0, Chunks(file))
  {
    var m := OpeningTranscript(inbox);
    var e := Complete(BeginConnect(FRESH), inbox);
    if e.socket.call.Idle? {
      SendAllTranscript(e.socket, Chunks(file), e.rest);
      var f := SendAll(e.socket, Chunks(file), e.rest);
      assert f.sent[0] == DataSegment(0, Chunks(file)[0]);
      CollapseOpening(m, f.sent);
      Regrouped([CONN_SEGMENT], [AckSegment(3)], Script(0, Chunks(file)));
      assert [CONN_SEGMENT] + [AckSegment(3)] == [CONN_SEGMENT, AckSegment(3)];
    }
  }

  // These ACKs arrive one after the other, whatever else arrives between them, while the connection is open.
  predicate Serves(inbox: seq<Outcome>, acks: seq<byte>)
    decreases |inbox|
  {
    || acks == []
    || (inbox != [] && !inbox[0].PeerClosed?
        && Serves(inbox[1..], if AckArrived(inbox[0], acks[0]) then acks[1..] else acks))
  }

  // The ACKs of n payloads, from one bit on, and of CLOSE.
  function AcksFor(bit: byte, n: nat): seq<byte>
    decreases n
  { if n == 0 then [4] else [bit] + AcksFor(Flip(bit), n - 1) }

  lemma {:induction false} ServesFrom(p: Outcome -> bool, inbox: seq<Outcome>, i: nat, acks: seq<byte>)
    requires acks != [] && FirstAt(p, inbox, i)
    requires forall o :: p(o) <==> o.PeerClosed? || AckArrived(o, acks[0])
    ensures Serves(inbox, acks) <==> i < |inbox| && inbox[i].Arrived? && Serves(inbox[i + 1..], acks[1..])
    decreases i
  {
    if 0 < i {
      Waits(p, IsData, inbox, i);
      ServesFrom(p, inbox[1..], i - 1, acks);
      assert i < |inbox| ==> inbox[1..][i..] == inbox[i + 1..];
    }
  }

  lemma {:induction false} SendAllEndsIff(s: Socket, chunks: seq<seq<byte>>, inbox: seq<Outcome>)
    requires s.status.WaitSend? && s.sequenceNumber < 2 && s.call.Idle?
    ensures SendAll(s, chunks, inbox).socket.call.Shut? <==> Serves(inbox, AcksFor(s.sequenceNumber, |chunks|))
    decreases |chunks|
  {
    var acks := AcksFor(s.sequenceNumber, |chunks|);
    if chunks == [] {
      var i := HasFirst(EndsSending(4), inbox);
      CloseSenderExact(s, inbox, i);
      ServesFrom(EndsSending(4), inbox, i, acks);
    } else {
      var i := HasFirst(EndsSending(s.sequenceNumber), inbox);
      SendExact(s, chunks[0], inbox, i);
      ServesFrom(EndsSending(s.sequenceNumber), inbox, i, acks);
      var e := Complete(BeginSend(s, chunks[0]), inbox);
      if e.socket.call.Idle? {
        SendAllEndsIff(e.socket, chunks[1..], e.rest);
        assert acks[1..] == AcksFor(Flip(s.sequenceNumber), |chunks| - 1);
      }
    }
  }

  // The sending program ends if and only if it is served ACK 2, an ACK for each chunk with alternating bits, and
  // ACK 4, in this order.
  lemma SenderEndsIff(file: seq<byte>, inbox: seq<Outcome>)
    ensures SendFile(FRESH, file, inbox).socket.call.Shut? <==> Serves(inbox, [2] + AcksFor(0, |Chunks(file)|))
  {
    var acks := [2] + AcksFor(0, |Chunks(file)|);
    var i := HasFirst(EndsConnecting, inbox);
    ConnectExact(FRESH, inbox, i);
    ServesFrom(EndsConnecting, inbox, i, acks);
    var e := Complete(BeginConnect(FRESH), inbox);
    if e.socket.call.Idle? {
      SendAllEndsIff(e.socket, Chunks(file), e.rest);
      assert acks[1..] == AcksFor(0, |Chunks(file)|);
    }
  }

  // ----- what the receiving program does to a socket

  function PayloadOf(delivered: Option<seq<byte>>): seq<byte> {
    match delivered case Some(p) => p case None => []
  }

  lemma {:induction false} DriveConsumes(s: Socket, inbox: seq<Outcome>)
    ensures var e := Drive(s, inbox);
            |e.rest| <= |inbox| && (e.delivered.Some? ==> |e.rest| < |inbox|)
    decreases |inbox|
  {
    if s.call.Blocked() && inbox != [] { DriveConsumes(React(s, inbox[0]).socket, inbox[1..]); }
  }

  // receive_data until it returns 0, then close_connection; and the bytes written meanwhile.
  function ReceiveLoop(s: Socket, inbox: seq<Outcome>): (Effect, seq<byte>)
    decreases |inbox|
  {
    DriveConsumes(BeginReceive(s).socket, inbox);
    var e := Complete(BeginReceive(s), inbox);
    if !e.socket.call.Idle? then (e.(delivered := None), [])
    else if PayloadOf(e.delivered) == [] then
      var f := Complete(BeginClose(e.socket), e.rest);
      (f.(sent := e.sent + f.sent), [])
    else
      var (f, output) := ReceiveLoop(e.socket, e.rest);
      (f.(sent := e.sent + f.sent), PayloadOf(e.delivered) + output)
  }

  function ReceiveFile(s: Socket, inbox: seq<Outcome>): (Effect, seq<byte>) {
    var e := Complete(BeginAccept(s), inbox);
    if !e.socket.call.Idle? then (e, [])
    else
      var (f, output) := ReceiveLoop(e.socket, e.rest);
      (f.(sent := e.sent + f.sent), output)
  }

  // As Remains, with what has been written and what is still to be.
  ghost predicate RemainsReceived(whole: (Effect, seq<byte>), base: seq<Segment>, e: Effect, more: seq<byte>,
                                  outbox: seq<Segment>, written: seq<byte>) {
    && whole.0.socket == e.socket && whole.0.rest == e.rest
    && base + whole.0.sent == outbox + e.sent && whole.1 == written + more
  }

  ghost predicate LoopRemains(whole: (Effect, seq<byte>), base: seq<Segment>, s: Socket, inbox: seq<Outcome>,
                              outbox: seq<Segment>, written: seq<byte>) {
    var loop := ReceiveLoop(s, inbox);
    RemainsReceived(whole, base, loop.0, loop.1, outbox, written)
  }

  ghost predicate EndedReceived(whole: (Effect, seq<byte>), base: seq<Segment>, s: Socket, inbox: seq<Outcome>,
                                outbox: seq<Segment>, written: seq<byte>) {
    whole.0.socket == s && whole.0.rest == inbox && outbox == base + whole.0.sent && written == whole.1
  }

  lemma RemainsReceivedAfter(whole: (Effect, seq<byte>), base: seq<Segment>, e: Effect, p: seq<byte>, f: Effect,
                             more: seq<byte>, outbox: seq<Segment>, written: seq<byte>)
    requires RemainsReceived(whole, base, f.(sent := e.sent + f.sent), p + more, outbox, written)
    ensures RemainsReceived(whole, base, f, more, outbox + e.sent, written + p)
  {
    assert outbox + (e.sent + f.sent) == outbox + e.sent + f.sent;
    assert written + (p + more) == written + p + more;
  }

  method OpenReceiving(socket: ReliableSocket, ghost whole: (Effect, seq<byte>), ghost base: seq<Segment>)
    returns (at: Call)
    requires socket.Valid() && whole == ReceiveFile(socket.Model(Idle), socket.inbox) && base == socket.outbox
    modifies socket
    ensures socket.Valid()
    ensures at.Idle? ==> LoopRemains(whole, base, socket.Model(Idle), socket.inbox, socket.outbox, [])
    ensures !at.Idle? ==> EndedReceived(whole, base, socket.Model(at), socket.inbox, socket.outbox, [])
  {
    ghost var e := Complete(BeginAccept(socket.Model(Idle)), socket.inbox);
    at := socket.AcceptConnection();
    if at.Idle? {
      ghost var loop := ReceiveLoop(e.socket, e.rest);
      RemainsReceivedAfter(whole, base, e, [], loop.0, loop.1, base, []);
    }
  }

  // One receive_data of the receiving program.
  method ReceiveNext(socket: ReliableSocket, ghost whole: (Effect, seq<byte>), ghost base: seq<Segment>,
                     ghost written: seq<byte>) returns (at: Call, payload: seq<byte>)
    requires socket.Valid() && LoopRemains(whole, base, socket.Model(Idle), socket.inbox, socket.outbox, written)
    modifies socket
    ensures socket.Valid() && |socket.inbox| <= |old(socket.inbox)|
    ensures at.Idle? && payload != [] ==>
      && LoopRemains(whole, base, socket.Model(Idle), socket.inbox, socket.outbox, written + payload)
      && |socket.inbox| < |old(socket.inbox)|
    ensures at.Idle? && payload == [] ==>
      RemainsReceived(whole, base, Complete(BeginClose(socket.Model(Idle)), socket.inbox), [], socket.outbox, written)
    ensures !at.Idle? ==> EndedReceived(whole, base, socket.Model(at), socket.inbox, socket.outbox, written)
  {
    ghost var s, inbox, outbox := socket.Model(Idle), socket.inbox, socket.outbox;
    ghost var e := Complete(BeginReceive(s), inbox);
    DriveConsumes(BeginReceive(s).socket, inbox);
    ghost var delivered;
    at, payload, delivered := socket.ReceiveData();
    if at.Idle? {
      if payload != [] {
        ghost var loop := ReceiveLoop(e.socket, e.rest);
        RemainsReceivedAfter(whole, base, e, payload, loop.0, loop.1, outbox, written);
      } else {
        RemainsReceivedAfter(whole, base, e, [], Complete(BeginClose(e.socket), e.rest), [], outbox, written);
      }
    }
  }

  method CloseReceiving(socket: ReliableSocket, ghost whole: (Effect, seq<byte>), ghost base: seq<Segment>,
                        ghost written: seq<byte>) returns (at: Call)
    requires socket.Valid()
    requires RemainsReceived(whole, base, Complete(BeginClose(socket.Model(Idle)), socket.inbox), [],
                             socket.outbox, written)
    modifies socket
    ensures socket.Valid() && EndedReceived(whole, base, socket.Model(at), socket.inbox, socket.outbox, written)
  {
    at := socket.CloseConnection();
  }

  // receiver.cpp, main
  method ReceiverMain(socket: ReliableSocket) returns (at: Call, output: seq<byte>)
    requires socket.Valid()
    modifies socket
    ensures socket.Valid()
    ensures var whole := ReceiveFile(old(socket.Model(Idle)), old(socket.inbox));
            && socket.Model(at) == whole.0.socket && socket.inbox == whole.0.rest
            && socket.outbox == old(socket.outbox) + whole.0.sent && output == whole.1
  {
    ghost var whole, base := ReceiveFile(socket.Model(Idle), socket.inbox), socket.outbox;
    output := [];
    at := OpenReceiving(socket, whole, base);
    if at != Idle { return; }
    var payload;
    at, payload := ReceiveNext(socket, whole, base, output);
    while at == Idle && payload != []
      invariant socket.Valid()
      invariant at.Idle? && payload != [] ==>
        LoopRemains(whole, base, socket.Model(Idle), socket.inbox, socket.outbox, output + payload)
      invariant at.Idle? && payload == [] ==>
        RemainsReceived(whole, base, Complete(BeginClose(socket.Model(Idle)), socket.inbox), [], socket.outbox, output)
      invariant !at.Idle? ==> EndedReceived(whole, base, socket.Model(at), socket.inbox, socket.outbox, output)
      decreases |socket.inbox|, at == Idle && payload != []
    {
      output := output + payload;
      at, payload := ReceiveNext(socket, whole, base, output);
    }
    if at == Idle { at := CloseReceiving(socket, whole, base, output); }
  }

  // ----- what the receiving program makes of the arrivals

  // Why the receiving loop ended: no more outcomes, one that nobody catches, the CLOSE, or an empty payload.
  datatype Ending = Starved | Uncaught | OnClose | OnEmpty

  datatype Pass = Pass(payloads: seq<seq<byte>>, acks: seq<Segment>, ending: Ending, rest: seq<Outcome>)

  // The receiving loop as one pass over the arrivals. The payloads with alternating bits are accepted, up to the
  // first empty one or the CLOSE; every data segment is answered with its bit if that was expected and with the
  // other one if not, and the CLOSE with 4.
  function OnePass(inbox: seq<Outcome>, bit: byte): Pass
    requires bit < 2
    decreases |inbox|
  {
    if inbox == [] then Pass([], [], Starved, [])
    else
      var o, rest := inbox[0], inbox[1..];
      if !o.Arrived? then Pass([], [], Uncaught, rest)
      else if IsClose(o) then Pass([], [AckSegment(4)], OnClose, rest)
      else if !IsData(o) then OnePass(rest, bit)
      else if o.segment.sequenceNumber != bit then
        var p := OnePass(rest, bit);
        p.(acks := [AckSegment(1 - bit)] + p.acks)
      else if o.segment.payload == [] then Pass([[]], [AckSegment(bit)], OnEmpty, rest)
      else
        var p := OnePass(rest, 1 - bit);
        p.(payloads := [o.segment.payload] + p.payloads, acks := [AckSegment(bit)] + p.acks)
  }

  function Stale(bit: byte, n: nat): seq<Segment>
    requires bit < 2
  { Repeat(AckSegment(1 - bit), n) }

  lemma PassSkips(inbox: seq<Outcome>, bit: byte)
    requires bit < 2 && inbox != [] && !EndsReceiving(bit)(inbox[0])
    ensures var p := OnePass(inbox[1..], bit);
            OnePass(inbox, bit) == p.(acks := Stale(bit, if IsData(inbox[0]) then 1 else 0) + p.acks)
  {
    var p := OnePass(inbox[1..], bit);
    assert Stale(bit, 1) == [AckSegment(1 - bit)] && Stale(bit, 0) + p.acks == p.acks;
  }

  // What a receive_data that is ended by the outcome at i, and the rest of the loop, make of the arrivals from
  // there on.
  function FromHere(inbox: seq<Outcome>, bit: byte, i: nat): Pass
    requires bit < 2 && i <= |inbox| && (i < |inbox| ==> EndsReceiving(bit)(inbox[i]))
  {
    if i == |inbox| then Pass([], [], Starved, [])
    else
      var o, rest := inbox[i], inbox[i + 1..];
      if !o.Arrived? then Pass([], [], Uncaught, rest)
      else if IsClose(o) then Pass([], [AckSegment(4)], OnClose, rest)
      else if o.segment.payload == [] then Pass([[]], [AckSegment(bit)], OnEmpty, rest)
      else
        var p := OnePass(rest, 1 - bit);
        p.(payloads := [o.segment.payload] + p.payloads, acks := [AckSegment(bit)] + p.acks)
  }

  lemma FromHereSkips(inbox: seq<Outcome>, bit: byte, i: nat)
    requires bit < 2 && 0 < i && FirstAt(EndsReceiving(bit), inbox, i)
    ensures FirstAt(EndsReceiving(bit), inbox[1..], i - 1)
    ensures FromHere(inbox, bit, i) == FromHere(inbox[1..], bit, i - 1)
  {
    Waits(EndsReceiving(bit), IsData, inbox, i);
    assert i < |inbox| ==> inbox[1..][i..] == inbox[i + 1..];
  }

  lemma {:induction false} OneCallPasses(inbox: seq<Outcome>, bit: byte, i: nat)
    requires bit < 2 && FirstAt(EndsReceiving(bit), inbox, i)
    ensures var p := FromHere(inbox, bit, i);
            OnePass(inbox, bit) == p.(acks := Stale(bit, Count(IsData, inbox[..i])) + p.acks)
    decreases i
  {
    var p := FromHere(inbox, bit, i);
    if i == 0 {
      assert inbox[..0] == [] && Stale(bit, 0) + p.acks == p.acks;
    } else {
      var rest := inbox[1..];
      FromHereSkips(inbox, bit, i);
      OneCallPasses(rest, bit, i - 1);
      PassSkips(inbox, bit);
      Waits(EndsReceiving(bit), IsData, inbox, i);
      RepeatsAdd(AckSegment(1 - bit), if IsData(inbox[0]) then 1 else 0, Count(IsData, rest[..i - 1]), p.acks);
    }
  }

  // The loop's effect, and that of the close_connection after it: there the `j`th outcome ends the waiting.
  ghost predicate LoopDoes(e: Effect, p: Pass, j: nat) {
    match p.ending
    case Starved => e.socket.call.Receiving? && e.sent == p.acks && e.rest == []
    case Uncaught => e.socket.call.Aborted? && e.sent == p.acks && e.rest == p.rest
    case OnEmpty => e.socket.call.Shut? && !e.socket.status.Closed? && e.sent == p.acks && e.rest == p.rest
    case OnClose =>
      && j <= |p.rest| && e.sent == p.acks + Repeat(AckSegment(4), Count(IsClose, p.rest[..j]))
      && (if j == |p.rest| then e.socket.call.Draining? else e.socket.call.Shut? && e.socket.status.Closed?)
      && e.rest == After(p.rest, j)
  }

  lemma LoopDoesMore(first: seq<Segment>, f: Effect, p: Pass, payloads: seq<seq<byte>>, j: nat)
    requires LoopDoes(f, p, j)
    ensures LoopDoes(f.(sent := first + f.sent), p.(acks := first + p.acks, payloads := payloads), j)
  {
    if p.ending.OnClose? {
      var more := Repeat(AckSegment(4), Count(IsClose, p.rest[..j]));
      assert first + (p.acks + more) == first + p.acks + more;
    }
  }

  // One receive_data and what the loop does next.
  lemma LoopUnfolds(s: Socket, inbox: seq<Outcome>, e: Effect)
    requires e == Complete(BeginReceive(s), inbox)
    ensures !e.socket.call.Idle? ==> ReceiveLoop(s, inbox) == (e.(delivered := None), [])
    ensures e.socket.call.Idle? && PayloadOf(e.delivered) == [] ==>
              var f := Complete(BeginClose(e.socket), e.rest);
              ReceiveLoop(s, inbox) == (f.(sent := e.sent + f.sent), [])
    ensures e.socket.call.Idle? && PayloadOf(e.delivered) != [] ==>
              var (f, output) := ReceiveLoop(e.socket, e.rest);
              ReceiveLoop(s, inbox) == (f.(sent := e.sent + f.sent), PayloadOf(e.delivered) + output)
  {
    DriveConsumes(BeginReceive(s).socket, inbox);
  }

  // The call itself, by ReceiveExact, and the part of the pass that it accounts for.
  lemma CallDoes(s: Socket, inbox: seq<Outcome>, bit: byte, i: nat) returns (e: Effect)
    requires bit < 2 && s.call.Idle? && s.status == (if bit == 0 then WaitData0 else WaitData1)
    requires FirstAt(EndsReceiving(bit), inbox, i)
    ensures e == Complete(BeginReceive(s), inbox) && e.rest == After(inbox, i)
    ensures e.sent == Stale(bit, Count(IsData, inbox[..i])) + LastAck(bit, inbox, i)
    ensures e.delivered == if i < |inbox| && IsData(inbox[i]) then Some(inbox[i].segment.payload) else None
    ensures if i == |inbox| then e.socket.call.Receiving?
            else if !inbox[i].Arrived? then e.socket.call.Aborted?
            else e.socket.call.Idle? && e.socket.status == (if IsClose(inbox[i]) then Closing
                                                            else if bit == 0 then WaitData1 else WaitData0)
  {
    ReceiveExact(s, bit, inbox, i);
    e := Complete(BeginReceive(s), inbox);
  }

  // A receive_data of the loop that is not the last one.
  lemma MiddleCall(s: Socket, inbox: seq<Outcome>, bit: byte, i: nat) returns (e: Effect)
    requires bit < 2 && s.call.Idle? && s.status == (if bit == 0 then WaitData0 else WaitData1)
    requires FirstAt(EndsReceiving(bit), inbox, i)
    requires i < |inbox| && IsData(inbox[i]) && inbox[i].segment.payload != []
    ensures e.rest == inbox[i + 1..]
    ensures e.socket.call.Idle? && e.socket.status == (if bit == 0 then WaitData1 else WaitData0)
    ensures var (f, output) := ReceiveLoop(e.socket, e.rest);
            ReceiveLoop(s, inbox) == (f.(sent := e.sent + f.sent), inbox[i].segment.payload + output)
    ensures var p := OnePass(e.rest, 1 - bit);
            OnePass(inbox, bit) ==
              p.(payloads := [inbox[i].segment.payload] + p.payloads, acks := e.sent + p.acks)
  {
    e := CallDoes(s, inbox, bit, i);
    LoopUnfolds(s, inbox, e);
    OneCallPasses(inbox, bit, i);
    var stale, p := Stale(bit, Count(IsData, inbox[..i])), OnePass(e.rest, 1 - bit);
    assert stale + ([AckSegment(bit)] + p.acks) == stale + [AckSegment(bit)] + p.acks;
  }

  // The last one.
  lemma LastCall(s: Socket, inbox: seq<Outcome>, bit: byte, i: nat) returns (e: Effect)
    requires bit < 2 && s.call.Idle? && s.status == (if bit == 0 then WaitData0 else WaitData1)
    requires FirstAt(EndsReceiving(bit), inbox, i)
    requires i < |inbox| && IsData(inbox[i]) ==> inbox[i].segment.payload == []
    ensures var p := OnePass(inbox, bit);
            && e.sent == p.acks && e.rest == p.rest == After(inbox, i) && Flatten(p.payloads) == []
            && match p.ending
               case Starved => p.rest == [] && e.socket.call.Receiving? && ReceiveLoop(s, inbox) == (e, [])
               case Uncaught => e.socket.call.Aborted? && ReceiveLoop(s, inbox) == (e, [])
               case _ =>
                 && e.socket.call.Idle? && (if p.ending.OnClose? then e.socket.status.Closing?
                                            else e.socket.status.WaitData0? || e.socket.status.WaitData1?)
                 && var f := Complete(BeginClose(e.socket), e.rest);
                    ReceiveLoop(s, inbox) == (f.(sent := e.sent + f.sent), [])
  {
    e := CallDoes(s, inbox, bit, i);
    LoopUnfolds(s, inbox, e);
    OneCallPasses(inbox, bit, i);
    assert LastAck(bit, inbox, i) == FromHere(inbox, bit, i).acks;
    e := e.(delivered := None);
  }

  lemma LoopCloses(e: Effect, p: Pass, j: nat)
    requires e.socket.call.Idle? && e.sent == p.acks && e.rest == p.rest && FirstAt(EndsDraining, p.rest, j)
    requires if p.ending.OnClose? then e.socket.status.Closing?
             else p.ending.OnEmpty? && (e.socket.status.WaitData0? || e.socket.status.WaitData1?)
    ensures var f := Complete(BeginClose(e.socket), e.rest); LoopDoes(f.(sent := e.sent + f.sent), p, j)
  {
    CloseOtherExact(e.socket, e.rest, j);
    assert e.sent + [] == e.sent;
  }

  // What the receiving program does to its socket and writes, after accept_connection: over every script of
  // outcomes, what the one pass says.
  lemma {:induction false} ReceiverLoopExact(s: Socket, inbox: seq<Outcome>, bit: byte, j: nat)
    requires bit < 2 && s.call.Idle? && s.status == (if bit == 0 then WaitData0 else WaitData1)
    requires FirstAt(EndsDraining, OnePass(inbox, bit).rest, j)
    ensures LoopDoes(ReceiveLoop(s, inbox).0, OnePass(inbox, bit), j)
    ensures ReceiveLoop(s, inbox).1 == Flatten(OnePass(inbox, bit).payloads)
    decreases |inbox|
  {
    var i := HasFirst(EndsReceiving(bit), inbox);
    if i < |inbox| && IsData(inbox[i]) && inbox[i].segment.payload != [] {
      var e := MiddleCall(s, inbox, bit, i);
      var p := OnePass(e.rest, 1 - bit);
      ReceiverLoopExact(e.socket, e.rest, 1 - bit, j);
      LoopDoesMore(e.sent, ReceiveLoop(e.socket, e.rest).0, p, [inbox[i].segment.payload] + p.payloads, j);
      assert ([inbox[i].segment.payload] + p.payloads)[1..] == p.payloads;
    } else {
      var e := LastCall(s, inbox, bit, i);
      if OnePass(inbox, bit).ending.OnClose? || OnePass(inbox, bit).ending.OnEmpty? {
        LoopCloses(e, OnePass(inbox, bit), j);
      }
    }
  }

  // The whole receiving program, once its accept_connection has ended with the outcome at k after the CONN at c.
  lemma ReceiverExact(inbox: seq<Outcome>, c: nat, k: nat, j: nat)
    requires FirstAt(EndsListening, inbox, c) && c < |inbox| && IsConn(inbox[c])
    requires FirstAt(EndsAwaiting, inbox[c + 1..], k)
    requires k < |inbox| - c - 1 && AckArrived(inbox[c + 1..][k], 3)
    requires FirstAt(EndsDraining, OnePass(inbox[c + 1..][k + 1..], 0).rest, j)
    ensures var later := inbox[c + 1..];
            var p := OnePass(later[k + 1..], 0);
            && ReceiveFile(FRESH, inbox).1 == Flatten(p.payloads)
            && LoopDoes(ReceiveFile(FRESH, inbox).0,
                        p.(acks := Repeat(AckSegment(2), Count(AsksForAck2, later[..k]) + 1) + p.acks), j)
  {
    var later := inbox[c + 1..];
    var p := OnePass(later[k + 1..], 0);
    AcceptExact(FRESH, inbox, c, k);
    var e := Complete(BeginAccept(FRESH), inbox);
    ReceiverLoopExact(e.socket, e.rest, 0, j);
    LoopDoesMore(e.sent, ReceiveLoop(e.socket, e.rest).0, p, p.payloads, j);
  }
}
