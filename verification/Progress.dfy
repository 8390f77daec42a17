// Progress of an established connection, its exact cost, and the timeout of 0 that ends it.

module Progress {
  import opened Prelude
  import opened Segments
  import opened Sockets
  import opened Transport
  import opened Handshake
  import Rtt

  // An established connection in which at most one segment is in flight: the newest data segment or its ACK.
  ghost predicate Calm(n: Net) {
    && Inv(n) && Established(n)
    && match n.a.call
       case Idle => n.toA == [] && n.toB == []
       case Sending(s) =>
         && s.kind.Data?
         && (|| (n.toB == [s] && n.toA == [])
             || (n.toB == [] && n.toA == [AckSegment(s.sequenceNumber)] && |n.delivered| == n.acked + 1)
             || (n.toB == [] && n.toA == []))
       case _ => false
  }

  // The sender awaits an ACK with nothing in flight: something was dropped and no timeout has fired since.
  predicate Waiting(n: Net) { n.a.call.Sending? && n.toA == [] && n.toB == [] }

  // A timeout fires only with nothing in flight, nothing is duplicated and nobody closes.
  ghost predicate CalmEvent(n: Net, e: Event) {
    match e
    case Send(_) | Receive | ArriveA(_) | ArriveB | DropToA(_) | DropToB(_) => true
    case TimeoutA => n.toA == [] && n.toB == []
    case _ => false
  }

  ghost predicate CalmRun(n: Net, es: seq<Event>)
    decreases |es|
  {
    es != [] ==> CalmEvent(n, es[0]) && Step(n, es[0]).Some? && CalmRun(Step(n, es[0]).value, es[1..])
  }

  // Grows with the data segments sent and shrinks with those accounted for.
  function Balance(n: Net): int {
    n.ledger.dataSent + One(Waiting(n)) - n.ledger.drops - |n.offered|
  }

  function Phase(n: Net): nat {
    2 * (if n.toA != [] then 0 else if n.toB != [] then 1 else 2) + One(n.b.call.Idle?)
  }

  // Six times the payloads not yet acknowledged and the drops still to come, then the place in the exchange.
  function Measure(n: Net, payloads: nat, drops: nat): int {
    6 * (payloads - n.acked) + 6 * (drops - n.ledger.drops) + Phase(n)
  }

  ghost predicate CalmStepOk(n: Net, e: Event) {
    Step(n, e).Some? &&
    var m := Step(n, e).value;
    && Calm(m) && Balance(m) == Balance(n)
    && (forall p: nat, d: nat :: Measure(m, p, d) < Measure(n, p, d))
  }

  lemma CalmSend(n: Net, payload: Payload)
    requires Calm(n) && Step(n, Send(payload)).Some?
    ensures CalmStepOk(n, Send(payload))
  {
    StepKeepsInv(true, n, Send(payload));
    assert Step(n, Send(payload)).value.toB == [DataSegment(n.a.sequenceNumber, payload)];
  }

  lemma CalmArriveB(n: Net)
    requires Calm(n) && Step(n, ArriveB).Some?
    ensures CalmStepOk(n, ArriveB)
  {
    StepKeepsInv(true, n, ArriveB);
    DataInFlight(true, n);
  }

  lemma CalmArriveA(n: Net, sample: Millis)
    requires Calm(n) && n.toA != []
    ensures CalmStepOk(n, ArriveA(sample))
  {
    StepKeepsInv(true, n, ArriveA(sample));
    assert Step(n, ArriveA(sample)).value.toA == [];
  }

  lemma CalmReceive(n: Net)
    requires Calm(n) && Step(n, Receive).Some?
    ensures CalmStepOk(n, Receive)
  {
    StepKeepsInv(true, n, Receive);
    assert Step(n, Receive).value.toA == n.toA;
  }

  lemma CalmDropToA(n: Net, i: nat)
    requires Calm(n) && Step(n, DropToA(i)).Some?
    ensures CalmStepOk(n, DropToA(i))
  {
    StepKeepsInv(true, n, DropToA(i));
    assert |n.toA| == 1 && n.toB == [] && Step(n, DropToA(i)).value.toA == [];
  }

  lemma CalmDropToB(n: Net, i: nat)
    requires Calm(n) && Step(n, DropToB(i)).Some?
    ensures CalmStepOk(n, DropToB(i))
  {
    StepKeepsInv(true, n, DropToB(i));
    assert |n.toB| == 1 && n.toA == [] && Step(n, DropToB(i)).value.toB == [];
  }

  lemma CalmTimeoutA(n: Net)
    requires Calm(n) && Step(n, TimeoutA).Some? && CalmEvent(n, TimeoutA)
    ensures CalmStepOk(n, TimeoutA)
  {
    StepKeepsInv(true, n, TimeoutA);
    assert Step(n, TimeoutA).value.toB == [n.a.call.segment];
  }

  lemma CalmStep(n: Net, e: Event)
    requires Calm(n) && CalmEvent(n, e) && Step(n, e).Some?
    ensures CalmStepOk(n, e)
  {
    match e
    case Send(payload) => CalmSend(n, payload);
    case Receive => CalmReceive(n);
    case ArriveB => CalmArriveB(n);
    case ArriveA(sample) => CalmArriveA(n, sample);
    case TimeoutA => CalmTimeoutA(n);
    case DropToA(i) => CalmDropToA(n, i);
    case DropToB(i) => CalmDropToB(n, i);
  }

  lemma {:induction false} CalmRunAccounts(n: Net, es: seq<Event>)
    requires Calm(n) && CalmRun(n, es)
    ensures Run(n, es).Some?
    ensures var m := Run(n, es).value;
            && Calm(m) && Balance(m) == Balance(n)
            && forall p: nat, d: nat :: Measure(m, p, d) + |es| <= Measure(n, p, d)
    decreases |es|
  {
    if es != [] {
      CalmStep(n, es[0]);
      CalmRunAccounts(Step(n, es[0]).value, es[1..]);
    }
  }

  // An established connection between two calls of the sending program, with nothing in flight.
  predicate Quiet(n: Net) { Established(n) && n.a.call.Idle? && n.toA == [] && n.toB == [] }

  // From any reachable quiet state, every calm run that has offered p payloads and lost d segments has sent
  // p + d data segments, one fewer while the last loss is still undetected; and it is no longer than a linear
  // bound in p and d.
  lemma ExactCost(pre: seq<Event>, es: seq<Event>)
    requires Run(START, pre).Some? && Quiet(Run(START, pre).value) && CalmRun(Run(START, pre).value, es)
    ensures Run(START, pre + es).Some?
    ensures var n, m := Run(START, pre).value, Run(START, pre + es).value;
            var p, d := |m.offered| - |n.offered|, m.ledger.drops - n.ledger.drops;
            && m.ledger.dataSent - n.ledger.dataSent == p + d - One(Waiting(m))
            && (m.a.call.Idle? ==> m.ledger.dataSent - n.ledger.dataSent == p + d)
            && |es| <= 6 * p + 6 * d + 5
  {
    RunKeepsInv(true, START, pre);
    RunAppend(START, pre, es);
    var n := Run(START, pre).value;
    CalmRunAccounts(n, es);
    var m := Run(n, es).value;
    assert Measure(m, |m.offered|, m.ledger.drops) + |es| <= Measure(n, |m.offered|, m.ledger.drops);
  }

  // Only a loss or a new send_data can happen.
  ghost predicate AtRest(n: Net) {
    forall e :: CalmEvent(n, e) && Step(n, e).Some? ==> e.DropToA? || e.DropToB? || e.Send?
  }

  // Every send_data has returned and the receiver has nothing left to take.
  predicate AllDone(n: Net) { n.a.call.Idle? && n.delivered == n.offered && n.acked == |n.offered| }

  // A loss was the last thing to happen, and no timeout is set.
  predicate WaitsForever(n: Net) { Waiting(n) && n.a.timeout == 0 }

  // The data segment reaches a closed socket.
  predicate Abandoned(n: Net) { n.b.call.Shut? && n.toB != [] }

  lemma AtRestIff(n: Net)
    requires Calm(n)
    ensures AtRest(n) <==> !n.b.call.Idle? && (AllDone(n) || WaitsForever(n) || Abandoned(n))
  {
    if n.b.call.Idle? {
      assert CalmEvent(n, Receive) && Step(n, Receive).Some?;
    } else if n.a.call.Sending? && !WaitsForever(n) && !Abandoned(n) {
      var e := if n.toA != [] then ArriveA(0) else if n.toB == [] then TimeoutA else ArriveB;
      assert CalmEvent(n, e) && Step(n, e).Some?;
    }
  }

  // A calm run comes to rest with everything delivered and acknowledged, or waiting for ever after a loss with
  // a timeout of 0, or at a receiver that has closed its socket; and nowhere else. By ExactCost every calm run
  // comes to rest or goes on sending or losing.
  lemma CalmRunsRestIff(pre: seq<Event>, es: seq<Event>)
    requires Run(START, pre).Some? && Quiet(Run(START, pre).value) && CalmRun(Run(START, pre).value, es)
    ensures Run(START, pre + es).Some?
    ensures var m := Run(START, pre + es).value;
            AtRest(m) <==> !m.b.call.Idle? && (AllDone(m) || WaitsForever(m) || Abandoned(m))
  {
    RunKeepsInv(true, START, pre);
    RunAppend(START, pre, es);
    CalmRunAccounts(Run(START, pre).value, es);
    AtRestIff(Run(START, pre + es).value);
  }

  // ----- one loss-free exchange

  // Between two calls of send_data, with nothing in flight and the receiver between two calls as well.
  ghost predicate Lockstep(n: Net) {
    && Inv(n) && Established(n) && n.a.call.Idle? && n.b.call.Idle? && !n.b.status.Closing?
    && n.toA == [] && n.toB == [] && n.a.timeout == Rtt.Timeout(n.a.rtt)
  }

  function ExchangeEvents(payload: Payload, sample: Millis): seq<Event> {
    [Send(payload), Receive, ArriveB, ArriveA(sample)]
  }

  function AfterExchange(n: Net, payload: Payload, sample: Millis): Net {
    var rtt := Rtt.Update(n.a.rtt, sample);
    var l := n.ledger;
    Net(Socket(WaitSend, Flip(n.a.sequenceNumber), rtt, Rtt.Timeout(rtt), Idle),
        n.b.(status := if n.b.status.WaitData0? then WaitData1 else WaitData0, timeout := 0),
        [], [], n.offered + [payload], n.acked + 1, n.delivered + [payload],
        l.(dataSent := l.dataSent + 1))
  }

  lemma LockstepFacts(n: Net)
    requires Lockstep(n)
    ensures n.a.status.WaitSend? && n.b.status == DataStatus(|n.delivered|)
    ensures n.acked == |n.offered| == |n.delivered| && n.delivered == n.offered
    ensures n.a.sequenceNumber == n.acked % 2
  {
  }

  // With the data segment on its way and the receiver waiting for it.
  function MidExchange(n: Net, payload: Payload): Net {
    n.(a := BeginSend(n.a, payload).socket, b := BeginReceive(n.b).socket,
       toB := [DataSegment(n.a.sequenceNumber, payload)], offered := n.offered + [payload],
       ledger := n.ledger.(dataSent := n.ledger.dataSent + 1))
  }

  lemma FirstHalf(n: Net, payload: Payload)
    requires Lockstep(n) && |payload| <= MAX_DATA_SIZE
    ensures Run(n, [Send(payload), Receive]) == Some(MidExchange(n, payload))
  {
    LockstepFacts(n);
    assert n.toB + [DataSegment(n.a.sequenceNumber, payload)] == [DataSegment(n.a.sequenceNumber, payload)];
    RunThen(n, [], Send(payload));
    assert [] + [Send(payload)] == [Send(payload)];
    RunThen(n, [Send(payload)], Receive);
    assert [Send(payload)] + [Receive] == [Send(payload), Receive];
  }

  // With the payload delivered and its ACK on the way.
  function LateExchange(n: Net, payload: Payload): Net {
    MidExchange(n, payload).(b := AfterExchange(n, payload, 0).b, toB := [], toA := [AckSegment(n.a.sequenceNumber)],
                             delivered := n.delivered + [payload])
  }

  lemma DataCrosses(n: Net, payload: Payload)
    requires Lockstep(n)
    ensures Step(MidExchange(n, payload), ArriveB) == Some(LateExchange(n, payload))
  {
    LockstepFacts(n);
    var m := MidExchange(n, payload);
    assert m.toB[1..] == [];
    assert m.toA + [AckSegment(n.a.sequenceNumber)] == [AckSegment(n.a.sequenceNumber)];
  }

  lemma AckCrosses(n: Net, payload: Payload, sample: Millis)
    requires Lockstep(n)
    ensures Step(LateExchange(n, payload), ArriveA(sample)) == Some(AfterExchange(n, payload, sample))
  {
    LockstepFacts(n);
    assert LateExchange(n, payload).toA[1..] == [];
  }

  lemma SecondHalf(n: Net, payload: Payload, sample: Millis)
    requires Lockstep(n)
    ensures Run(MidExchange(n, payload), [ArriveB, ArriveA(sample)]) == Some(AfterExchange(n, payload, sample))
  {
    var m := MidExchange(n, payload);
    DataCrosses(n, payload);
    AckCrosses(n, payload, sample);
    RunThen(m, [], ArriveB);
    assert [] + [ArriveB] == [ArriveB];
    RunThen(m, [ArriveB], ArriveA(sample));
    assert [ArriveB] + [ArriveA(sample)] == [ArriveB, ArriveA(sample)];
  }

  lemma Exchange(n: Net, payload: Payload, sample: Millis)
    requires Lockstep(n) && |payload| <= MAX_DATA_SIZE
    ensures Run(n, ExchangeEvents(payload, sample)) == Some(AfterExchange(n, payload, sample))
    ensures Lockstep(AfterExchange(n, payload, sample))
  {
    LockstepFacts(n);
    FirstHalf(n, payload);
    SecondHalf(n, payload, sample);
    RunAppend(n, [Send(payload), Receive], [ArriveB, ArriveA(sample)]);
    assert ExchangeEvents(payload, sample) == [Send(payload), Receive] + [ArriveB, ArriveA(sample)];
    RunKeepsInv(true, n, ExchangeEvents(payload, sample));
  }

  // After the loss-free handshake.
  const ESTABLISHED := ACK3_SENT.(
    b := Socket(WaitData0, 0, Rtt.INITIAL, 240, Idle), toB := [], ledger := Ledger(0, 0, 0, 0, 1))

  lemma ReachEstablished() returns (es: seq<Event>)
    ensures Run(START, es) == Some(ESTABLISHED) && Opening(es)
  {
    es := ReachAck3Sent();
    assert ACK3_SENT.toB[1..] == [];
    RunThen(START, es, ArriveB);
    es := es + [ArriveB];
  }

  lemma Establish() returns (es: seq<Event>)
    ensures Run(START, es) == Some(ESTABLISHED) && Opening(es) && Lockstep(ESTABLISHED)
  {
    es := ReachEstablished();
    RunKeepsInv(true, START, es);
  }

  // ----- the timeout of 0

  // With a data segment unacknowledged, nothing in flight and the receiver waiting, a socket is revived by its
  // timeout or not at all.
  lemma DeadlockIff(n: Net)
    requires Inv(n) && Waiting(n) && n.b.call.Receiving?
    ensures (exists e :: Step(n, e).Some?) <==> n.a.timeout != 0
  {
    if n.a.timeout != 0 {
      assert Step(n, TimeoutA).Some?;
    } else {
      forall e ensures Step(n, e).None? { }
    }
  }

  lemma {:induction false} ManyExchanges(n: Net, payload: Payload, sample: Millis, k: nat) returns (es: seq<Event>)
    requires Lockstep(n) && |payload| <= MAX_DATA_SIZE
    ensures Run(n, es).Some?
    ensures var m := Run(n, es).value;
            Lockstep(m) && m.a.rtt == Rtt.Iterate(n.a.rtt, sample, k) && m.ledger.drops == n.ledger.drops
    decreases k
  {
    if k == 0 {
      es := [];
    } else {
      Exchange(n, payload, sample);
      var rest := ManyExchanges(AfterExchange(n, payload, sample), payload, sample, k - 1);
      RunAppend(n, ExchangeEvents(payload, sample), rest);
      es := ExchangeEvents(payload, sample) + rest;
    }
  }

  lemma LossDeadlocks(n: Net, payload: Payload)
    requires Lockstep(n) && n.a.timeout == 0 && |payload| <= MAX_DATA_SIZE
    ensures var m := Run(n, [Send(payload), Receive] + [DropToB(0)]);
            && m.Some? && m.value.ledger.drops == n.ledger.drops + 1 && m.value.acked < |m.value.offered|
            && forall e :: Step(m.value, e).None?
  {
    LockstepFacts(n);
    FirstHalf(n, payload);
    RunThen(n, [Send(payload), Receive], DropToB(0));
    var m := Step(MidExchange(n, payload), DropToB(0)).value;
    assert m.toB == [];
    RunKeepsInv(true, n, [Send(payload), Receive] + [DropToB(0)]);
    DeadlockIff(m);
  }

  // When every acknowledgement comes back within its millisecond, the estimator settles at 0, the timeout
  // goes with it, and then one lost segment stops the connection for good: data is outstanding and no event
  // whatever is possible.
  lemma OneLossDeadlocks(payload: Payload) returns (es: seq<Event>)
    requires |payload| <= MAX_DATA_SIZE
    ensures Run(START, es).Some?
    ensures var n := Run(START, es).value;
            && n.ledger.drops == 1 && n.acked < |n.offered|
            && forall e :: Step(n, e).None?
  {
    var setup := Establish();
    var k := Rtt.FreshSocketSettles(0);
    var warm := ManyExchanges(ESTABLISHED, payload, 0, k);
    RunAppend(START, setup, warm);
    var fault := [Send(payload), Receive] + [DropToB(0)];
    LossDeadlocks(Run(START, setup + warm).value, payload);
    RunAppend(START, setup + warm, fault);
    es := setup + warm + fault;
  }
}
