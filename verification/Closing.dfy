// When the sender's close_connection can still return.

module ClosingDown {
  import opened Prelude
  import opened Segments
  import opened Sockets
  import opened Transport

  ghost predicate Ack4InFlight(n: Net) { exists i :: 0 <= i < |n.toA| && n.toA[i].ackNumber == 4 }

  // The sender is in close_connection, and the receiver has seen a CLOSE.
  ghost predicate HalfClosed(n: Net) { Inv(n) && SawClose(n) && n.a.call.Sending? }

  predicate Listening(n: Net) { n.b.call.Idle? || n.b.call.Draining? }

  // ACK 4 is on its way, or the receiver still listens and another CLOSE is on its way or will be sent: after
  // a timeout, or after a stale ACK.
  ghost predicate CanClose(n: Net) {
    Ack4InFlight(n) || (Listening(n) && (n.toB != [] || n.a.timeout != 0 || n.toA != []))
  }

  // By now only CLOSE segments can be on their way to the receiver.
  lemma HalfClosedFacts(n: Net)
    requires HalfClosed(n)
    ensures n.a.call == Sending(CLOSE_SEGMENT) && !n.a.status.Closed?
    ensures n.b.call.Idle? || n.b.call.Draining? || n.b.call.Shut?
    ensures forall i :: 0 <= i < |n.toB| ==> n.toB[i] == CLOSE_SEGMENT
  {
  }

  lemma {:induction false} ReachAck4(n: Net, i: nat) returns (es: seq<Event>)
    requires HalfClosed(n) && i < |n.toA| && n.toA[i].ackNumber == 4
    ensures Run(n, es).Some? && Run(n, es).value.a.status.Closed?
    decreases i
  {
    HalfClosedFacts(n);
    PopA(true, |n.offered|, |n.delivered|, SawConn(n), SawClose(n), LowA(n), n.toA);
    var m := Step(n, ArriveA(0)).value;
    StepKeepsInv(true, n, ArriveA(0));
    if n.toA[0].ackNumber == 4 {
      es := [ArriveA(0)];
      assert es[1..] == [] && Run(m, []) == Some(m);
    } else {
      assert m.toA == n.toA[1..] && m.a == n.a && m.b == n.b;
      var rest := ReachAck4(m, i - 1);
      es := [ArriveA(0)] + rest;
      assert es[1..] == rest;
    }
  }

  lemma AnswerClose(n: Net) returns (m: Net)
    requires HalfClosed(n) && n.b.call.Draining? && n.toB != []
    ensures Step(n, ArriveB) == Some(m) && HalfClosed(m) && Ack4InFlight(m)
  {
    HalfClosedFacts(n);
    m := Step(n, ArriveB).value;
    StepKeepsInv(true, n, ArriveB);
    assert m.toA[|m.toA| - 1] == AckSegment(4);
  }

  // Another CLOSE is transmitted.
  lemma Provoke(n: Net) returns (e: Event)
    requires HalfClosed(n) && !Ack4InFlight(n) && (n.a.timeout != 0 || n.toA != [])
    ensures Step(n, e).Some?
    ensures var m := Step(n, e).value; HalfClosed(m) && m.toB != [] && m.b == n.b
  {
    HalfClosedFacts(n);
    e := if n.a.timeout != 0 then TimeoutA else ArriveA(0);
    StepKeepsInv(true, n, e);
  }

  lemma Listen(n: Net) returns (es: seq<Event>, m: Net)
    requires HalfClosed(n) && Listening(n) && n.toB != []
    ensures Run(n, es) == Some(m) && HalfClosed(m) && m.b.call.Draining? && m.toB == n.toB
  {
    HalfClosedFacts(n);
    es, m := [], n;
    if n.b.call.Idle? {
      m := Step(n, CloseB).value;
      StepKeepsInv(true, n, CloseB);
      RunThen(n, es, CloseB);
      es := es + [CloseB];
    }
  }

  lemma Answer(n: Net) returns (es: seq<Event>)
    requires HalfClosed(n) && Listening(n) && n.toB != []
    ensures Run(n, es).Some? && Run(n, es).value.a.status.Closed?
  {
    var m;
    es, m := Listen(n);
    var k := AnswerClose(m);
    RunThen(n, es, ArriveB);
    var j :| 0 <= j < |k.toA| && k.toA[j].ackNumber == 4;
    var gs := ReachAck4(k, j);
    RunAppend(n, es + [ArriveB], gs);
    es := es + [ArriveB] + gs;
  }

  lemma HopelessShut(n: Net, e: Event)
    requires HalfClosed(n) && !Ack4InFlight(n) && n.b.call.Shut? && Step(n, e).Some?
    ensures var m := Step(n, e).value; m.b == n.b && !m.a.status.Closed? && !Ack4InFlight(m)
  {
    HalfClosedFacts(n);
    var m := Step(n, e).value;
    forall i | 0 <= i < |m.toA| ensures m.toA[i].ackNumber != 4 { assert m.toA[i] in n.toA; }
  }

  lemma HopelessQuiet(n: Net, e: Event)
    requires HalfClosed(n) && n.toA == [] && n.toB == [] && n.a.timeout == 0 && Step(n, e).Some?
    ensures var m := Step(n, e).value; m.a == n.a && m.toA == [] && m.toB == []
  {
    HalfClosedFacts(n);
  }

  // Once it cannot close it never can.
  lemma HopelessStep(n: Net, e: Event)
    requires HalfClosed(n) && !CanClose(n) && Step(n, e).Some?
    ensures HalfClosed(Step(n, e).value) && !CanClose(Step(n, e).value)
  {
    HalfClosedFacts(n);
    StepKeepsInv(true, n, e);
    if n.b.call.Shut? {
      HopelessShut(n, e);
    } else {
      HopelessQuiet(n, e);
    }
  }

  lemma {:induction false} Hopeless(n: Net, es: seq<Event>)
    requires HalfClosed(n) && !CanClose(n) && Run(n, es).Some?
    ensures !Run(n, es).value.a.status.Closed?
    decreases |es|
  {
    HalfClosedFacts(n);
    if es != [] {
      HopelessStep(n, es[0]);
      Hopeless(Step(n, es[0]).value, es[1..]);
    }
  }

  lemma CanCloseCloses(n: Net) returns (fs: seq<Event>)
    requires HalfClosed(n) && CanClose(n)
    ensures Run(n, fs).Some? && Run(n, fs).value.a.status.Closed?
  {
    if Ack4InFlight(n) {
      var i :| 0 <= i < |n.toA| && n.toA[i].ackNumber == 4;
      fs := ReachAck4(n, i);
    } else if n.toB != [] {
      fs := Answer(n);
    } else {
      var e := Provoke(n);
      var gs := Answer(Step(n, e).value);
      RunThen(n, [], e);
      RunAppend(n, [] + [e], gs);
      fs := [] + [e] + gs;
    }
  }

  // After the receiver has seen a CLOSE, the sender's close_connection can return if and only if ACK 4 is in
  // flight, or the receiver has not yet given up listening (its two seconds) and another CLOSE can reach it.
  lemma CloseCompletableIff(es: seq<Event>)
    requires Run(START, es).Some? && SawClose(Run(START, es).value) && Run(START, es).value.a.call.Sending?
    ensures var n := Run(START, es).value;
            (exists fs :: Run(n, fs).Some? && Run(n, fs).value.a.status.Closed?) <==> CanClose(n)
  {
    RunKeepsInv(true, START, es);
    var n := Run(START, es).value;
    if CanClose(n) {
      var fs := CanCloseCloses(n);
    } else {
      forall fs | Run(n, fs).Some? ensures !Run(n, fs).value.a.status.Closed? { Hopeless(n, fs); }
    }
  }

  // ----- the receiver's close_connection

  // The timeout of two seconds ends the waiting.
  lemma DrainEnds(n: Net) returns (m: Net)
    requires Inv(n) && n.b.call.Draining?
    ensures n.b.timeout == 2000 && Step(n, TimeoutB) == Some(m) && m.b.call.Shut? && m.b.status.Closed?
  {
    m := Step(n, TimeoutB).value;
  }

  lemma LetDrain(n: Net) returns (fs: seq<Event>, m: Net)
    requires Inv(n) && n.b.status.Closing?
    ensures Run(n, fs) == Some(m) && Inv(m) && m.b.call.Draining? && forall e <- fs :: e.CloseB?
  {
    fs, m := [], n;
    if n.b.call.Idle? {
      m := Step(n, CloseB).value;
      StepKeepsInv(true, n, CloseB);
      RunThen(n, fs, CloseB);
      fs := fs + [CloseB];
    }
  }

  // A receiver's close_connection waits for two seconds in every run, and then it returns; and from every
  // reachable state in which the CLOSE has been seen the receiver can close without another segment.
  lemma ReceiverAlwaysCloses(es: seq<Event>) returns (fs: seq<Event>)
    requires Run(START, es).Some? && Run(START, es).value.b.status.Closing?
    ensures var n := Run(START, es).value;
            && (n.b.call.Draining? ==> n.b.timeout == 2000)
            && Run(n, fs).Some? && Run(n, fs).value.b.status.Closed? && Run(n, fs).value.b.call.Shut?
            && forall e <- fs :: e.CloseB? || e.TimeoutB?
  {
    RunKeepsInv(true, START, es);
    var n, m := Run(START, es).value, Run(START, es).value;
    fs, m := LetDrain(n);
    var k := DrainEnds(m);
    RunThen(n, fs, TimeoutB);
    fs := fs + [TimeoutB];
  }

  lemma IdleReceiver(n: Net)
    requires Inv(n) && n.b.call.Idle? && !n.b.status.Closing?
    ensures !n.b.status.WaitSend?
  {
    assert ReceiverOk(n);
  }

  // A program that closes a socket that is not connected, or a receiver that has not seen the CLOSE, is done at
  // once, and nothing is transmitted.
  lemma OthersCloseAtOnce(es: seq<Event>)
    requires Run(START, es).Some?
    ensures var n := Run(START, es).value;
            && (n.a.call.Idle? && n.a.status.Init? ==> Step(n, CloseA) == Some(n.(a := n.a.(call := Shut))))
            && (n.b.call.Idle? && !n.b.status.Closing? ==> Step(n, CloseB) == Some(n.(b := n.b.(call := Shut))))
  {
    var n := Run(START, es).value;
    if n.b.call.Idle? && !n.b.status.Closing? {
      assert !n.b.status.WaitSend? by {
        RunKeepsInv(true, START, es);
        IdleReceiver(n);
      }
    }
  }
}
