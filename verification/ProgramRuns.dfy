// The runs of FileTransfer are runs of the two programs: between them, its events make each socket do exactly
// what the main loop of sender.cpp or receiver.cpp does over the outcomes it meets.

module ProgramRuns {
  import opened Prelude
  import opened Segments
  import opened Sockets
  import opened Transport
  import opened Chunking
  import opened FileTransfer
  import opened Correspondence
  import opened Programs

  // ----- receiver.cpp

  function Then(e: Effect, next: (Effect, seq<byte>)): (Effect, seq<byte>) {
    (next.0.(sent := e.sent + next.0.sent), next.1)
  }

  // What the receiving program still does, from a receive_data that has returned.
  function AfterReceive(e: Effect): (Effect, seq<byte>) {
    if !e.socket.call.Idle? then (e.(delivered := None), [])
    else
      var p := PayloadOf(e.delivered);
      var (f, output) := if p == [] then (Complete(BeginClose(e.socket), e.rest), [])
                         else ReceiveLoop(e.socket, e.rest);
      (f.(sent := e.sent + f.sent), p + output)
  }

  function AfterAccept(e: Effect): (Effect, seq<byte>) {
    if !e.socket.call.Idle? then (e, [])
    else
      var (f, output) := ReceiveLoop(e.socket, e.rest);
      (f.(sent := e.sent + f.sent), output)
  }

  // What it still does with a socket in the middle of a run; `got`: receive_data has returned 0.
  function ReceiverRest(b: Socket, got: bool, inbox: seq<Outcome>): (Effect, seq<byte>) {
    match b.call
    case Idle =>
      if b.status.Init? then ReceiveFile(b, inbox)
      else if got then (Complete(BeginClose(b), inbox), [])
      else ReceiveLoop(b, inbox)
    case Accepting | AwaitingAck3 => AfterAccept(Drive(b, inbox))
    case Receiving(_) => AfterReceive(Drive(b, inbox))
    case _ => (Drive(b, inbox), [])
  }

  lemma NoMore(s: Socket)
    ensures Drive(s, []) == Effect(s, [], None, [])
  {
  }

  lemma ReceiverRestDone(file: seq<byte>, n: Net)
    requires FileInv(file, n)
    ensures var (e, output) := ReceiverRest(n.b, GotZero(n), []); e.sent == [] && output == [] && e.rest == []
  {
    NoMore(n.b);
    NoMore(BeginAccept(n.b).socket);
    NoMore(BeginReceive(n.b).socket);
    NoMore(BeginClose(n.b).socket);
    if n.b.call.Idle? && !n.b.status.Init? && !GotZero(n) {
      LoopUnfolds(n.b, [], Complete(BeginReceive(n.b), []));
    }
  }

  lemma BegunSilently(s: Socket, begun: Reaction, inbox: seq<Outcome>)
    requires begun.sent == []
    ensures Complete(begun, inbox) == Drive(begun.socket, inbox)
  {
    assert [] + Drive(begun.socket, inbox).sent == Drive(begun.socket, inbox).sent;
  }

  lemma AcceptIsNext(b: Socket, inbox: seq<Outcome>)
    requires b.call.Idle? && b.status.Init?
    ensures ReceiveFile(b, inbox) == AfterAccept(Drive(BeginAccept(b).socket, inbox))
  {
    BegunSilently(b, BeginAccept(b), inbox);
  }

  lemma ReceiveIsNext(b: Socket, inbox: seq<Outcome>)
    requires b.call.Idle? && (b.status.WaitData0? || b.status.WaitData1?)
    ensures ReceiveLoop(b, inbox) == AfterReceive(Drive(BeginReceive(b).socket, inbox))
  {
    BegunSilently(b, BeginReceive(b), inbox);
    var e := Complete(BeginReceive(b), inbox);
    LoopUnfolds(b, inbox, e);
    var p := PayloadOf(e.delivered);
    assert p == [] ==> p + [] == p;
  }

  // Starting a call is what the program does next, and transmits nothing.
  lemma ReceiverCalls(file: seq<byte>, n: Net, e: Event, inbox: seq<Outcome>)
    requires FileInv(file, n) && FileEvent(file, n, e) && ReceiverCall(e) && Step(n, e).Some?
    ensures var m := Step(n, e).value;
            && ReceiverRest(n.b, GotZero(n), inbox) == ReceiverRest(m.b, GotZero(m), inbox)
            && m.delivered == n.delivered && AddedToA(n, e) == []
  {
    var m := Step(n, e).value;
    ReceiverBegins(n, e);
    match e
    case Accept => AcceptIsNext(n.b, inbox);
    case Receive => ReceiveIsNext(n.b, inbox);
    case CloseB =>
      BegunSilently(n.b, BeginClose(n.b), inbox);
      assert !n.b.status.Init?;
  }

  lemma DriveUnfolds(b: Socket, o: Outcome, rest: seq<Outcome>)
    requires b.call.Blocked()
    ensures var r := React(b, o);
            var e := Drive(r.socket, rest);
            Drive(b, [o] + rest) == Effect(e.socket, r.sent + e.sent,
                                           if r.delivered.Some? then r.delivered else e.delivered, e.rest)
  {
    assert ([o] + rest)[1..] == rest;
  }

  // What comes before the rest.
  function Before(sent: seq<Segment>, written: seq<byte>, rest: (Effect, seq<byte>)): (Effect, seq<byte>) {
    (rest.0.(sent := sent + rest.0.sent), written + rest.1)
  }

  function Got(s: Socket, delivered: Option<seq<byte>>): bool { s.status.Closing? || delivered == Some([]) }

  lemma AfterReceiveLater(e: Effect, x: seq<Segment>)
    ensures AfterReceive(e.(sent := x + e.sent)) == Before(x, [], AfterReceive(e))
    ensures AfterAccept(e.(sent := x + e.sent)) == Before(x, [], AfterAccept(e))
  {
    var f, g := Complete(BeginClose(e.socket), e.rest).sent, ReceiveLoop(e.socket, e.rest).0.sent;
    assert x + e.sent + f == x + (e.sent + f);
    assert x + e.sent + g == x + (e.sent + g);
    assert [] + AfterReceive(e).1 == AfterReceive(e).1 && [] + AfterAccept(e).1 == AfterAccept(e).1;
  }

  lemma EndedDrive(s: Socket, rest: seq<Outcome>)
    requires !s.call.Blocked()
    ensures Drive(s, rest) == Effect(s, [], None, rest)
  {
  }

  // One outcome of receive_data that ends it, and the program after it.
  lemma ReceivingEnds(b: Socket, o: Outcome, rest: seq<Outcome>)
    requires b.call.Receiving? && (b.status.WaitData0? || b.status.WaitData1?) && !React(b, o).socket.call.Blocked()
    ensures var r := React(b, o);
            AfterReceive(Effect(r.socket, r.sent, r.delivered, rest)) ==
            Before(r.sent, PayloadOf(r.delivered), ReceiverRest(r.socket, Got(r.socket, r.delivered), rest))
  {
    var r := React(b, o);
    EndedDrive(r.socket, rest);
    assert r.sent + [] == r.sent;
    var p := PayloadOf(r.delivered);
    assert p == [] ==> p + [] == p;
  }

  lemma DriveEnds(b: Socket, o: Outcome, rest: seq<Outcome>)
    requires b.call.Blocked() && !React(b, o).socket.call.Blocked()
    ensures var r := React(b, o); Drive(b, [o] + rest) == Effect(r.socket, r.sent, r.delivered, rest)
  {
    var r := React(b, o);
    DriveUnfolds(b, o, rest);
    assert r.sent + [] == r.sent;
  }

  lemma ReceivingGoesOn(b: Socket, o: Outcome, rest: seq<Outcome>)
    requires b.call.Receiving? && (b.status.WaitData0? || b.status.WaitData1?)
    ensures var r := React(b, o);
            ReceiverRest(b, false, [o] + rest) ==
            Before(r.sent, PayloadOf(r.delivered), ReceiverRest(r.socket, Got(r.socket, r.delivered), rest))
  {
    var r := React(b, o);
    if r.socket.call.Blocked() {
      assert r.socket == b && r.delivered.None?;
      DriveUnfolds(b, o, rest);
      AfterReceiveLater(Drive(b, rest), r.sent);
    } else {
      DriveEnds(b, o, rest);
      ReceivingEnds(b, o, rest);
    }
  }

  lemma AcceptingGoesOn(b: Socket, o: Outcome, rest: seq<Outcome>)
    requires (b.call.Accepting? || b.call.AwaitingAck3?) && b.status.Init?
    ensures var r := React(b, o);
            && r.delivered.None?
            && ReceiverRest(b, false, [o] + rest) == Before(r.sent, [], ReceiverRest(r.socket, false, rest))
  {
    var r := React(b, o);
    DriveUnfolds(b, o, rest);
    if r.socket.call.Blocked() {
      AfterReceiveLater(Drive(r.socket, rest), r.sent);
    } else {
      EndedDrive(r.socket, rest);
      assert r.sent + [] == r.sent;
      AfterReceiveLater(Effect(r.socket, [], None, rest), r.sent);
      var loop := ReceiveLoop(r.socket, rest);
      assert [] + loop.0.sent == loop.0.sent;
    }
  }

  lemma DrainingGoesOn(b: Socket, got: bool, o: Outcome, rest: seq<Outcome>)
    requires b.call.Draining?
    ensures var r := React(b, o);
            && r.delivered.None?
            && ReceiverRest(b, got, [o] + rest) == Before(r.sent, [], ReceiverRest(r.socket, got, rest))
  {
    var r := React(b, o);
    DriveUnfolds(b, o, rest);
    var none: seq<byte> := [];
    assert none + none == none;
  }

  function OutcomeB(n: Net, e: Event): seq<Outcome>
    requires e.ArriveB? ==> n.toB != []
  { if e.ArriveB? then [Arrived(n.toB[0], 0)] else if e.TimeoutB? then [TimedOut] else [] }

  // What an event adds to the bytes written.
  function WrittenBy(n: Net, e: Event): seq<byte>
    requires e.ArriveB? ==> n.toB != []
  { if e.ArriveB? then PayloadOf(React(n.b, Arrived(n.toB[0], 0)).delivered) else [] }

  lemma UntouchedGoesOn(n: Net, m: Net, rest: seq<Outcome>)
    requires m.b == n.b && m.delivered == n.delivered
    ensures ReceiverRest(n.b, GotZero(n), [] + rest) == Before([], [], ReceiverRest(m.b, GotZero(m), rest))
  {
    assert [] + rest == rest;
    BeforeNothing(ReceiverRest(m.b, GotZero(m), rest));
  }

  // One event of a run.
  lemma ReceiverGoesOn(file: seq<byte>, n: Net, e: Event, rest: seq<Outcome>)
    requires FileInv(file, n) && FileEvent(file, n, e) && Step(n, e).Some?
    ensures var m := Step(n, e).value;
            ReceiverRest(n.b, GotZero(n), OutcomeB(n, e) + rest)
            == Before(AddedToA(n, e), WrittenBy(n, e), ReceiverRest(m.b, GotZero(m), rest))
  {
    var m := Step(n, e).value;
    if ReceiverCall(e) {
      ReceiverCalls(file, n, e, rest);
      assert [] + rest == rest;
      BeforeNothing(ReceiverRest(m.b, GotZero(m), rest));
    } else if e.ArriveB? || e.TimeoutB? {
      assert FileInv(file, m) by { FileStepKeepsInv(file, n, e); }
      ReceiverMeets(file, n, e, rest);
      TimeoutsDeliverNothing(n.b);
    } else {
      assert m.b == n.b && m.delivered == n.delivered by { ReceiverStep(n, e); }
      UntouchedGoesOn(n, m, rest);
    }
  }

  lemma TimeoutsDeliverNothing(b: Socket)
    ensures React(b, TimedOut).delivered.None?
  {
  }

  lemma BeforeNothing(rest: (Effect, seq<byte>))
    ensures Before([], [], rest) == rest
  {
    assert [] + rest.0.sent == rest.0.sent && [] + rest.1 == rest.1;
  }

  lemma GotZeroIs(file: seq<byte>, n: Net, m: Net, delivered: Option<Payload>)
    requires FileInv(file, n) && FileInv(file, m) && m.delivered == Extended(n.delivered, delivered)
    requires n.b.call.Receiving? && (m.b.status.Closing? ==> delivered.None?) && !m.b.status.Closed?
    ensures GotZero(m) == Got(m.b, delivered) && !GotZero(n)
  {
    EmptyIsLast(file, n);
  }

  lemma ReceiverMeets(file: seq<byte>, n: Net, e: Event, rest: seq<Outcome>)
    requires FileInv(file, n) && Step(n, e).Some? && FileInv(file, Step(n, e).value) && (e.ArriveB? || e.TimeoutB?)
    ensures var m := Step(n, e).value;
            var o := if e.ArriveB? then Arrived(n.toB[0], 0) else TimedOut;
            var p := PayloadOf(React(n.b, o).delivered);
            ReceiverRest(n.b, GotZero(n), [o] + rest) == Before(AddedToA(n, e), p, ReceiverRest(m.b, GotZero(m), rest))
  {
    var m := Step(n, e).value;
    var o := if e.ArriveB? then Arrived(n.toB[0], 0) else TimedOut;
    ReceiverStep(n, e);
    var r := React(n.b, o);
    if n.b.call.Receiving? {
      GotZeroIs(file, n, m, r.delivered);
      ReceivingGoesOn(n.b, o, rest);
    } else if n.b.call.Draining? {
      DrainingGoesOn(n.b, GotZero(n), o, rest);
    } else {
      AcceptingGoesOn(n.b, o, rest);
    }
  }

  function AllWrittenBy(n: Net, es: seq<Event>): seq<byte>
    requires Run(n, es).Some?
    decreases |es|
  { if es == [] then [] else WrittenBy(n, es[0]) + AllWrittenBy(Step(n, es[0]).value, es[1..]) }

  lemma BeforeBefore(x: seq<Segment>, p: seq<byte>, y: seq<Segment>, q: seq<byte>, rest: (Effect, seq<byte>))
    ensures Before(x, p, Before(y, q, rest)) == Before(x + y, p + q, rest)
  {
    assert x + (y + rest.0.sent) == x + y + rest.0.sent;
    assert p + (q + rest.1) == p + q + rest.1;
  }

  lemma OutcomesBUnfold(n: Net, es: seq<Event>)
    requires Run(n, es).Some? && es != []
    ensures OutcomesB(n, es) == OutcomeB(n, es[0]) + OutcomesB(Step(n, es[0]).value, es[1..])
  {
    var rest := OutcomesB(Step(n, es[0]).value, es[1..]);
    assert [] + rest == rest;
  }

  // What the receiving program still does in a state of the network.
  function RestOf(n: Net, inbox: seq<Outcome>): (Effect, seq<byte>) { ReceiverRest(n.b, GotZero(n), inbox) }

  lemma Prepend(first: (Effect, seq<byte>), x: seq<Segment>, p: seq<byte>, second: (Effect, seq<byte>),
                y: seq<Segment>, q: seq<byte>, rest: (Effect, seq<byte>))
    requires first == Before(x, p, second) && second == Before(y, q, rest)
    ensures first == Before(x + y, p + q, rest)
  {
    BeforeBefore(x, p, y, q, rest);
  }

  lemma {:induction false} ReceiverRuns(file: seq<byte>, n: Net, es: seq<Event>)
    requires FileInv(file, n) && FileRun(file, n, es) && Run(n, es).Some?
    ensures RestOf(n, OutcomesB(n, es)) ==
            Before(AllAddedToA(n, es), AllWrittenBy(n, es), RestOf(Run(n, es).value, []))
    decreases |es|
  {
    if es == [] {
      BeforeNothing(RestOf(n, []));
    } else {
      var e, later := es[0], es[1..];
      var m, last := Step(n, e).value, Run(n, es).value;
      var x, p, y, q := AddedToA(n, e), WrittenBy(n, e), AllAddedToA(m, later), AllWrittenBy(m, later);
      var first, second, rest := RestOf(n, OutcomesB(n, es)), RestOf(m, OutcomesB(m, later)), RestOf(last, []);
      assert first == Before(x, p, second) by {
        ReceiverGoesOn(file, n, e, OutcomesB(m, later));
        OutcomesBUnfold(n, es);
      }
      assert second == Before(y, q, rest) by {
        FileStepKeepsInv(file, n, e);
        ReceiverRuns(file, m, later);
      }
      assert first == Before(x + y, p + q, rest) by { Prepend(first, x, p, second, y, q, rest); }
    }
  }

  lemma DeliveredGrows(n: Net, e: Event)
    requires Step(n, e).Some?
    ensures Flatten(Step(n, e).value.delivered) == Flatten(n.delivered) + WrittenBy(n, e)
  {
    if e.ArriveB? || e.TimeoutB? {
      ReceiverStep(n, e);
      TimeoutsDeliverNothing(n.b);
      var r := React(n.b, if e.ArriveB? then Arrived(n.toB[0], 0) else TimedOut);
      if r.delivered.Some? { FlattenAppend(n.delivered, [r.delivered.value]); }
      assert r.delivered.Some? ==> Flatten([r.delivered.value]) == r.delivered.value + Flatten([]);
    } else {
      assert Step(n, e).value.delivered == n.delivered;
    }
    assert Flatten(n.delivered) + [] == Flatten(n.delivered);
  }

  lemma Joined(a: seq<byte>, b: seq<byte>, c: seq<byte>)
    ensures a + b + c == a + (b + c) && a + [] == a
  {
  }

  lemma {:induction false} WrittenIsDelivered(n: Net, es: seq<Event>)
    requires Run(n, es).Some?
    ensures Flatten(Run(n, es).value.delivered) == Flatten(n.delivered) + AllWrittenBy(n, es)
    decreases |es|
  {
    var before := Flatten(n.delivered);
    if es == [] {
      Joined(before, [], []);
    } else {
      var m, later := Step(n, es[0]).value, es[1..];
      var p, q := WrittenBy(n, es[0]), AllWrittenBy(m, later);
      assert Flatten(m.delivered) == before + p by { DeliveredGrows(n, es[0]); }
      assert Flatten(Run(m, later).value.delivered) == Flatten(m.delivered) + q by { WrittenIsDelivered(m, later); }
      assert AllWrittenBy(n, es) == p + q && Run(n, es) == Run(m, later);
      Joined(before, p, q);
    }
  }

  lemma ReceiverFrom(file: seq<byte>, n: Net, es: seq<Event>)
    requires FileInv(file, n) && FileRun(file, n, es) && Run(n, es).Some? && n.delivered == []
    ensures var m := Run(n, es).value;
            var (e, output) := RestOf(n, OutcomesB(n, es));
            && output == Output(m) && e.sent == AllAddedToA(n, es) && (!m.b.call.Idle? ==> e.socket == m.b)
  {
    var m := Run(n, es).value;
    var sent, written, rest := AllAddedToA(n, es), AllWrittenBy(n, es), RestOf(m, []);
    assert RestOf(n, OutcomesB(n, es)) == Before(sent, written, rest) by { ReceiverRuns(file, n, es); }
    assert rest.0.sent == [] && rest.1 == [] && (!m.b.call.Idle? ==> rest.0.socket == m.b) by {
      FileRunKeepsInv(file, n, es);
      ReceiverRestDone(file, m);
      if !m.b.call.Idle? { NoMore(m.b); }
    }
    assert Output(m) == written by {
      WrittenIsDelivered(n, es);
      assert Flatten([]) + written == written;
    }
    assert sent + [] == sent && written + [] == written;
  }

  // Over the outcomes that the receiver meets in a run, receiver.cpp's main loop writes what has been delivered,
  // transmits what the run has put on the channel, and leaves the socket of the run.
  lemma ReceiverCorresponds(file: seq<byte>, es: seq<Event>)
    requires FileRun(file, START, es)
    ensures Run(START, es).Some?
    ensures var n := Run(START, es).value;
            var (e, output) := ReceiveFile(FRESH, OutcomesB(START, es));
            && output == Output(n) && e.sent == AllAddedToA(START, es)
            && (!n.b.call.Idle? ==> e.socket == n.b)
  {
    FileRunKeepsInv(file, START, es);
    ReceiverFrom(file, START, es);
  }

  // ----- sender.cpp

  function AfterCall(e: Effect, later: seq<Payload>): Effect {
    if !e.socket.call.Idle? then e
    else
      var f := SendAll(e.socket, later, e.rest);
      f.(sent := e.sent + f.sent)
  }

  function Later(file: seq<byte>, n: Net): seq<Payload>
    requires |n.offered| <= |Chunks(file)|
  { Chunks(file)[|n.offered|..] }

  // What the sending program still does, with these chunks not yet passed to send_data.
  function SenderRest(a: Socket, later: seq<Payload>, inbox: seq<Outcome>): Effect {
    match a.call
    case Idle =>
      if a.status.Init? then AfterCall(Complete(BeginConnect(a), inbox), later) else SendAll(a, later, inbox)
    case Connecting | Sending(_) => AfterCall(Drive(a, inbox), later)
    case _ => Drive(a, inbox)
  }

  function Preceded(sent: seq<Segment>, e: Effect): Effect { e.(sent := sent + e.sent) }

  lemma PrecededTwice(x: seq<Segment>, y: seq<Segment>, e: Effect)
    ensures Preceded(x, Preceded(y, e)) == Preceded(x + y, e)
  {
    assert x + (y + e.sent) == x + y + e.sent;
  }

  lemma AfterCallLater(e: Effect, x: seq<Segment>, later: seq<Payload>)
    ensures AfterCall(Preceded(x, e), later) == Preceded(x, AfterCall(e, later))
  {
    var f := SendAll(e.socket, later, e.rest).sent;
    assert x + e.sent + f == x + (e.sent + f);
  }

  lemma PrecededByNothing(e: Effect)
    ensures Preceded([], e) == e
  {
    assert [] + e.sent == e.sent;
  }

  lemma BegunLoudly(begun: Reaction, inbox: seq<Outcome>)
    ensures Complete(begun, inbox) == Preceded(begun.sent, Drive(begun.socket, inbox))
  {
  }

  lemma ConnectIsNext(a: Socket, later: seq<Payload>, inbox: seq<Outcome>)
    requires a.call.Idle? && a.status.Init?
    ensures var begun := BeginConnect(a);
            SenderRest(a, later, inbox) == Preceded(begun.sent, SenderRest(begun.socket, later, inbox))
  {
    var begun := BeginConnect(a);
    BegunLoudly(begun, inbox);
    AfterCallLater(Drive(begun.socket, inbox), begun.sent, later);
  }

  lemma SendIsNext(a: Socket, payload: Payload, later: seq<Payload>, inbox: seq<Outcome>)
    requires a.call.Idle? && a.status.WaitSend?
    ensures var begun := BeginSend(a, payload);
            SenderRest(a, [payload] + later, inbox) == Preceded(begun.sent, SenderRest(begun.socket, later, inbox))
  {
    var begun := BeginSend(a, payload);
    BegunLoudly(begun, inbox);
    assert ([payload] + later)[1..] == later;
    assert SendAll(a, [payload] + later, inbox) == AfterCall(Complete(begun, inbox), later);
    AfterCallLater(Drive(begun.socket, inbox), begun.sent, later);
  }

  lemma CloseIsNext(a: Socket, inbox: seq<Outcome>)
    requires a.call.Idle? && a.status.WaitSend?
    ensures var begun := BeginClose(a);
            SenderRest(a, [], inbox) == Preceded(begun.sent, SenderRest(begun.socket, [], inbox))
  {
    BegunLoudly(BeginClose(a), inbox);
    ClosingIsLast(BeginClose(a).socket, inbox, []);
  }

  lemma SenderCalls(file: seq<byte>, n: Net, e: Event, inbox: seq<Outcome>)
    requires FileInv(file, n) && FileEvent(file, n, e) && SenderCall(e) && Step(n, e).Some?
    requires |Step(n, e).value.offered| <= |Chunks(file)|
    ensures var m := Step(n, e).value;
            SenderRest(n.a, Later(file, n), inbox)
            == Preceded(AddedToB(n, e), SenderRest(m.a, Later(file, m), inbox))
  {
    var m := Step(n, e).value;
    SenderBegins(n, e);
    match e
    case Connect =>
      assert m.offered == n.offered;
      ConnectIsNext(n.a, Later(file, n), inbox);
    case Send(payload) =>
      assert Later(file, n) == [payload] + Later(file, m);
      SendIsNext(n.a, payload, Later(file, m), inbox);
    case CloseA =>
      assert m.offered == n.offered && Later(file, n) == [];
      CloseIsNext(n.a, inbox);
  }

  // Nothing comes after the CLOSE.
  lemma {:induction false} ClosingIsLast(a: Socket, inbox: seq<Outcome>, later: seq<Payload>)
    requires (a.call.Sending? && !a.call.segment.kind.Data?) || a.call.Shut?
    ensures !Drive(a, inbox).socket.call.Idle? && SenderRest(a, later, inbox) == Drive(a, inbox)
    decreases |inbox|
  {
    if a.call.Sending? && inbox != [] {
      var r := React(a, inbox[0]);
      if r.socket.call.Sending? { ClosingIsLast(r.socket, inbox[1..], later); }
    }
  }

  lemma SenderMeets(a: Socket, o: Outcome, rest: seq<Outcome>, later: seq<Payload>)
    requires a.call.Connecting? || a.call.Sending?
    requires React(a, o).socket.call.Idle? ==> !React(a, o).socket.status.Init?
    ensures var r := React(a, o);
            SenderRest(a, later, [o] + rest) == Preceded(r.sent, SenderRest(r.socket, later, rest))
  {
    var r := React(a, o);
    DriveUnfolds(a, o, rest);
    if r.socket.call.Blocked() {
      AfterCallLater(Drive(r.socket, rest), r.sent, later);
    } else {
      EndedDrive(r.socket, rest);
      AfterCallLater(Effect(r.socket, [], None, rest), r.sent, later);
      if r.socket.call.Idle? { PrecededByNothing(SendAll(r.socket, later, rest)); }
    }
  }

  function OutcomeA(n: Net, e: Event): seq<Outcome>
    requires e.ArriveA? ==> n.toA != []
  { if e.ArriveA? then [Arrived(n.toA[0], e.sample)] else if e.TimeoutA? then [TimedOut] else [] }

  lemma SenderGoesOn(file: seq<byte>, n: Net, e: Event, rest: seq<Outcome>)
    requires FileInv(file, n) && FileEvent(file, n, e) && Step(n, e).Some? && FileInv(file, Step(n, e).value)
    ensures var m := Step(n, e).value;
            SenderRest(n.a, Later(file, n), OutcomeA(n, e) + rest)
            == Preceded(AddedToB(n, e), SenderRest(m.a, Later(file, m), rest))
  {
    var m := Step(n, e).value;
    if SenderCall(e) {
      SenderCalls(file, n, e, rest);
      assert [] + rest == rest;
    } else {
      SenderStep(n, e);
      assert m.offered == n.offered;
      if e.ArriveA? || e.TimeoutA? {
        SenderMeets(n.a, if e.ArriveA? then Arrived(n.toA[0], e.sample) else TimedOut, rest, Later(file, n));
      } else {
        assert [] + rest == rest;
        PrecededByNothing(SenderRest(m.a, Later(file, m), rest));
      }
    }
  }

  lemma OutcomesAUnfold(n: Net, es: seq<Event>)
    requires Run(n, es).Some? && es != []
    ensures OutcomesA(n, es) == OutcomeA(n, es[0]) + OutcomesA(Step(n, es[0]).value, es[1..])
  {
    var rest := OutcomesA(Step(n, es[0]).value, es[1..]);
    assert [] + rest == rest;
  }

  lemma {:induction false} SenderRuns(file: seq<byte>, n: Net, es: seq<Event>)
    requires FileInv(file, n) && FileRun(file, n, es) && Run(n, es).Some?
    ensures var m := Run(n, es).value;
            && FileInv(file, m)
            && SenderRest(n.a, Later(file, n), OutcomesA(n, es))
                 == Preceded(AllAddedToB(n, es), SenderRest(m.a, Later(file, m), []))
    decreases |es|
  {
    if es == [] {
      PrecededByNothing(SenderRest(n.a, Later(file, n), []));
    } else {
      var e, later := es[0], es[1..];
      var m := Step(n, e).value;
      assert FileInv(file, m) by { FileStepKeepsInv(file, n, e); }
      SenderRuns(file, m, later);
      var last := Run(m, later).value;
      SenderGoesOn(file, n, e, OutcomesA(m, later));
      OutcomesAUnfold(n, es);
      PrecededTwice(AddedToB(n, e), AllAddedToB(m, later), SenderRest(last.a, Later(file, last), []));
    }
  }

  lemma SenderFrom(file: seq<byte>, n: Net, es: seq<Event>)
    requires FileInv(file, n) && FileRun(file, n, es) && Run(n, es).Some?
    ensures var m := Run(n, es).value;
            var e := SenderRest(n.a, Later(file, n), OutcomesA(n, es));
            && AllAddedToB(n, es) <= e.sent
            && (!m.a.call.Idle? ==> e.socket == m.a && e.sent == AllAddedToB(n, es))
  {
    SenderRuns(file, n, es);
    var m, sent := Run(n, es).value, AllAddedToB(n, es);
    if !m.a.call.Idle? {
      NoMore(m.a);
      assert sent + [] == sent;
    }
  }

  // Likewise sender.cpp's: while it is in a call, its socket and everything it has transmitted; between two
  // calls, the segments of the next one come on top.
  lemma SenderCorresponds(file: seq<byte>, es: seq<Event>)
    requires FileRun(file, START, es)
    ensures Run(START, es).Some?
    ensures var n := Run(START, es).value;
            var e := SendFile(FRESH, file, OutcomesA(START, es));
            && AllAddedToB(START, es) <= e.sent
            && (!n.a.call.Idle? ==> e.socket == n.a && e.sent == AllAddedToB(START, es))
  {
    FileRunKeepsInv(file, START, es);
    SenderFrom(file, START, es);
    assert Later(file, START) == Chunks(file);
  }
}
