// What every run of the transport keeps about the three-way handshake, and when the handshake can complete.

module Handshake {
  import opened Prelude
  import opened Segments
  import opened Sockets
  import opened Transport
  import Rtt

  ghost predicate Ack3InFlight(n: Net) { exists i :: 0 <= i < |n.toB| && n.toB[i].kind.Ack? }

  // The sender believes in the connection, the receiver waits for an ACK 3 that is not there.
  ghost predicate Stranded(n: Net) { Connected(n) && !Established(n) && !Ack3InFlight(n) }

  ghost predicate Ack3Counted(n: Net) { n.ledger.ack3Sent == One(Connected(n)) }

  lemma {:induction false} Ack3CountedAlways(n: Net, es: seq<Event>)
    requires Inv(n) && Ack3Counted(n) && Run(n, es).Some?
    ensures Ack3Counted(Run(n, es).value)
    decreases |es|
  {
    if es != [] {
      var m := Step(n, es[0]).value;
      StepKeepsInv(true, n, es[0]);
      assert Ack3Counted(m) by { Ack3CountedStep(n, es[0]); }
      Ack3CountedAlways(m, es[1..]);
    }
  }

  lemma Ack3CountedStep(n: Net, e: Event)
    requires Inv(n) && Ack3Counted(n) && Step(n, e).Some?
    ensures Ack3Counted(Step(n, e).value)
  {
  }

  // The receiver is established only after the sender is, and ACK 3 is transmitted once or never.
  lemma HandshakeAgreement(es: seq<Event>)
    requires Run(START, es).Some?
    ensures var n := Run(START, es).value;
            (Established(n) ==> Connected(n)) && n.ledger.ack3Sent <= 1
            && (n.ledger.ack3Sent == 1 <==> Connected(n))
  {
    RunKeepsInv(true, START, es);
    Ack3CountedAlways(START, es);
  }

  lemma StrandedStep(n: Net, e: Event)
    requires Inv(n) && Stranded(n) && Step(n, e).Some?
    ensures Stranded(Step(n, e).value)
  {
    var n' := Step(n, e).value;
    assert n.b.call.AwaitingAck3?;
    assert !n.a.call.Connecting?;
    forall i | 0 <= i < |n'.toB| ensures !n'.toB[i].kind.Ack? {
      assert n'.toB[i] in n.toB || (n.a.call.Sending? && n'.toB[i] == n.a.call.segment)
             || n'.toB[i].kind.Data? || n'.toB[i].kind.Close?;
    }
  }

  // Nobody ever leaves the stranded state: nothing is delivered and no send_data returns.
  lemma {:induction false} StrandedForever(n: Net, es: seq<Event>)
    requires Inv(n) && Stranded(n) && Run(n, es).Some?
    ensures var m := Run(n, es).value; Inv(m) && Stranded(m) && m.delivered == [] && m.acked == 0
    decreases |es|
  {
    if es != [] {
      StepKeepsInv(true, n, es[0]);
      StrandedStep(n, es[0]);
      StrandedForever(Step(n, es[0]).value, es[1..]);
    }
  }

  // Events that no program and no loss takes part in, but for the two opening calls.
  predicate Opening(es: seq<Event>) {
    forall e <- es :: e.Accept? || e.Connect? || e.ArriveA? || e.ArriveB? || e.TimeoutA?
  }

  // The receiver throws away what precedes ACK 3 and then takes it.
  lemma {:induction false} ReachAck3(n: Net, i: nat) returns (es: seq<Event>)
    requires Inv(n) && !Established(n) && n.b.call.AwaitingAck3? && i < |n.toB| && n.toB[i].kind.Ack?
    ensures Run(n, es).Some? && Established(Run(n, es).value) && Run(n, es).value.delivered == [] && Opening(es)
    decreases i
  {
    var m := Step(n, ArriveB).value;
    StepKeepsInv(true, n, ArriveB);
    PopB(true, n.offered, Connected(n), ClosingA(n), LowB(true, n), n.toB);
    if n.toB[0].kind.Ack? {
      es := [ArriveB];
    } else {
      assert m.toB == n.toB[1..] && m.b.call.AwaitingAck3?;
      var rest := ReachAck3(m, i - 1);
      es := [ArriveB] + rest;
      assert es[1..] == rest;
    }
  }

  ghost predicate Opened(n: Net) { Inv(n) && n.a.call.Connecting? && (n.b.call.Accepting? || n.b.call.AwaitingAck3?) }

  lemma RepeatConn(n: Net) returns (m: Net)
    requires Opened(n)
    ensures Step(n, TimeoutA) == Some(m) && Opened(m) && m.toB != []
  {
    m := Step(n, TimeoutA).value;
    StepKeepsInv(true, n, TimeoutA);
  }

  lemma AnswerConn(n: Net) returns (m: Net)
    requires Opened(n) && n.toB != []
    ensures Step(n, ArriveB) == Some(m) && Opened(m) && m.b.call.AwaitingAck3? && m.toA != []
  {
    assert ItemB(n.offered, false, false, n.toB[0]);
    m := Step(n, ArriveB).value;
    StepKeepsInv(true, n, ArriveB);
  }

  lemma TakeAck2(n: Net) returns (m: Net)
    requires Opened(n) && n.b.call.AwaitingAck3? && n.toA != []
    ensures Step(n, ArriveA(0)) == Some(m) && Inv(m) && m.b == n.b && m.toB != [] && m.toB[|m.toB| - 1].kind.Ack?
  {
    assert ItemA(0, 0, true, false, n.toA[0]);
    m := Step(n, ArriveA(0)).value;
    StepKeepsInv(true, n, ArriveA(0));
  }

  lemma OpenSteps(n: Net) returns (fs: seq<Event>, m: Net)
    requires Opened(n)
    ensures Run(n, fs) == Some(m) && Inv(m) && m.b.call.AwaitingAck3? && !Established(m) && Opening(fs)
    ensures m.toB != [] && m.toB[|m.toB| - 1].kind.Ack?
  {
    var n1 := RepeatConn(n);
    var n2 := AnswerConn(n1);
    m := TakeAck2(n2);
    fs := [];
    RunThen(n, fs, TimeoutA);   fs := fs + [TimeoutA];
    RunThen(n, fs, ArriveB);    fs := fs + [ArriveB];
    RunThen(n, fs, ArriveA(0)); fs := fs + [ArriveA(0)];
  }

  lemma OpenedCompletes(n: Net) returns (fs: seq<Event>)
    requires Opened(n)
    ensures Run(n, fs).Some? && Established(Run(n, fs).value) && Run(n, fs).value.delivered == [] && Opening(fs)
  {
    var m;
    fs, m := OpenSteps(n);
    var rest := ReachAck3(m, |m.toB| - 1);
    RunAppend(n, fs, rest);
    fs := fs + rest;
  }

  lemma LetAccept(n: Net) returns (fs: seq<Event>, m: Net)
    requires Inv(n) && !Connected(n) && n.b.status.Init? && !n.b.call.Shut?
    ensures Run(n, fs) == Some(m) && Inv(m) && m.a == n.a && (m.b.call.Accepting? || m.b.call.AwaitingAck3?)
    ensures Opening(fs)
  {
    fs, m := [], n;
    if n.b.call.Idle? {
      m := Step(n, Accept).value;
      StepKeepsInv(true, n, Accept);
      RunThen(n, fs, Accept);
      fs := fs + [Accept];
    }
  }

  lemma LetConnect(n: Net) returns (fs: seq<Event>, m: Net)
    requires Inv(n) && !Connected(n) && !n.a.call.Shut? && (n.b.call.Accepting? || n.b.call.AwaitingAck3?)
    ensures Run(n, fs) == Some(m) && Opened(m) && Opening(fs)
  {
    fs, m := [], n;
    if n.a.call.Idle? {
      m := Step(n, Connect).value;
      StepKeepsInv(true, n, Connect);
      RunThen(n, fs, Connect);
      fs := fs + [Connect];
    }
  }

  // Before the sender is through, CONN can be sent, repeated and answered as often as it takes.
  lemma UnconnectedCompletes(n: Net) returns (fs: seq<Event>)
    requires Inv(n) && !Connected(n) && !n.a.call.Shut? && !n.b.call.Shut?
    ensures Run(n, fs).Some? && Established(Run(n, fs).value) && Run(n, fs).value.delivered == [] && Opening(fs)
  {
    var gs, k := LetAccept(n);
    var hs, m := LetConnect(k);
    fs := OpenedCompletes(m);
    RunAppend(k, hs, fs);
    RunAppend(n, gs, hs + fs);
    fs := gs + (hs + fs);
  }

  // A socket that its program has closed before the handshake stays closed.
  lemma {:induction false} ShutForever(n: Net, es: seq<Event>)
    requires Inv(n) && !Connected(n) && (n.a.call.Shut? || n.b.call.Shut?) && Run(n, es).Some?
    ensures !Established(Run(n, es).value)
    decreases |es|
  {
    if es != [] {
      StepKeepsInv(true, n, es[0]);
      ShutStays(n, es[0]);
      ShutForever(Step(n, es[0]).value, es[1..]);
    }
  }

  lemma ShutStays(n: Net, e: Event)
    requires Inv(n) && Step(n, e).Some?
    ensures var m := Step(n, e).value; (n.a.call.Shut? ==> m.a == n.a) && (n.b.call.Shut? ==> m.b == n.b)
  {
  }

  ghost predicate CanEstablish(n: Net) {
    || Established(n)
    || (if Connected(n) then Ack3InFlight(n) else !n.a.call.Shut? && !n.b.call.Shut?)
  }

  lemma EstablishFrom(n: Net) returns (fs: seq<Event>)
    requires Inv(n) && CanEstablish(n)
    ensures Run(n, fs).Some? && Established(Run(n, fs).value)
    ensures !Established(n) ==> Run(n, fs).value.delivered == [] && Opening(fs)
  {
    if Established(n) {
      fs := [];
    } else if Connected(n) {
      var i :| 0 <= i < |n.toB| && n.toB[i].kind.Ack?;
      fs := ReachAck3(n, i);
    } else {
      fs := UnconnectedCompletes(n);
    }
  }

  lemma NeverEstablishes(n: Net, fs: seq<Event>)
    requires Inv(n) && !CanEstablish(n) && Run(n, fs).Some?
    ensures !Established(Run(n, fs).value)
  {
    if Connected(n) { StrandedForever(n, fs); } else { ShutForever(n, fs); }
  }

  // From any reachable state the handshake can still complete if and only if it has, or a copy of ACK 3 is in
  // flight, or the sender is not yet through and neither program has closed its socket.
  lemma HandshakeCompletableIff(es: seq<Event>)
    requires Run(START, es).Some?
    ensures var n := Run(START, es).value;
            (exists fs :: Run(n, fs).Some? && Established(Run(n, fs).value)) <==> CanEstablish(n)
  {
    RunKeepsInv(true, START, es);
    var n := Run(START, es).value;
    if CanEstablish(n) {
      var fs := EstablishFrom(n);
    } else {
      forall fs | Run(n, fs).Some? ensures !Established(Run(n, fs).value) { NeverEstablishes(n, fs); }
    }
  }

  function AckCount(s: seq<Segment>): nat
    decreases |s|
  { if s == [] then 0 else One(s[0].kind.Ack?) + AckCount(s[1..]) }

  lemma {:induction false} AckCountAppend(s: seq<Segment>, t: seq<Segment>)
    ensures AckCount(s + t) == AckCount(s) + AckCount(t)
    decreases |s|
  {
    if s == [] {
      assert s + t == t;
    } else {
      assert (s + t)[1..] == s[1..] + t;
      AckCountAppend(s[1..], t);
    }
  }

  lemma AckCountRemove(s: seq<Segment>, i: nat)
    requires i < |s|
    ensures AckCount(Remove(s, i)) + One(s[i].kind.Ack?) == AckCount(s)
  {
    AckCountAppend(s[..i], s[i + 1..]);
    AckCountAppend(s[..i], s[i..]);
    assert s == s[..i] + s[i..] && s[i..][1..] == s[i + 1..];
  }

  lemma {:induction false} AckCountZero(s: seq<Segment>)
    requires AckCount(s) == 0
    ensures forall i :: 0 <= i < |s| ==> !s[i].kind.Ack?
    decreases |s|
  {
    if s != [] { AckCountZero(s[1..]); }
  }

  // Without duplication there is one copy of ACK 3 at most, and none once the receiver has it.
  ghost predicate SingleAck3(n: Net) {
    n.ledger.dups == 0 ==> AckCount(n.toB) + One(Established(n)) <= One(Connected(n))
  }

  lemma SenderStepAppends(n: Net, e: Event)
    requires SenderOk(n) && Step(n, e).Some? && (e.Connect? || e.Send? || e.CloseA? || e.ArriveA? || e.TimeoutA?)
    ensures var n' := Step(n, e).value;
            && n'.toB == n.toB + n'.toB[|n.toB|..] && n'.b == n.b
            && AckCount(n'.toB[|n.toB|..]) == One(Connected(n')) - One(Connected(n))
  {
    if !e.ArriveA? { assert Connected(n) == Connected(Step(n, e).value); }
  }

  lemma SenderStepCountsAcks(n: Net, e: Event)
    requires SenderOk(n) && Step(n, e).Some? && (e.Connect? || e.Send? || e.CloseA? || e.ArriveA? || e.TimeoutA?)
    ensures var n' := Step(n, e).value;
            n'.b == n.b && AckCount(n'.toB) == AckCount(n.toB) + One(Connected(n')) - One(Connected(n))
  {
    SenderStepAppends(n, e);
    AckCountAppend(n.toB, Step(n, e).value.toB[|n.toB|..]);
  }

  lemma ArrivalEstablishes(n: Net)
    requires ReceiverOk(n) && Step(n, ArriveB).Some?
    ensures var n' := Step(n, ArriveB).value;
            n'.toB == n.toB[1..] && n'.a == n.a
            && (Established(n') && !Established(n) ==> n.b.call.AwaitingAck3? && n.toB[0].kind.Ack?)
  {
  }

  lemma ArrivalCountsAcks(n: Net)
    requires ReceiverOk(n) && Step(n, ArriveB).Some?
    ensures var n' := Step(n, ArriveB).value;
            n'.a == n.a && AckCount(n'.toB) + One(Established(n')) <= AckCount(n.toB) + One(Established(n))
  {
    ArrivalEstablishes(n);
    AckCountRemove(n.toB, 0);
    assert Remove(n.toB, 0) == n.toB[1..];
  }

  lemma SingleAck3Step(n: Net, e: Event)
    requires Inv(n) && SingleAck3(n) && Step(n, e).Some?
    ensures SingleAck3(Step(n, e).value)
  {
    if e.Connect? || e.Send? || e.CloseA? || e.ArriveA? || e.TimeoutA? {
      SenderStepCountsAcks(n, e);
    } else if e.ArriveB? {
      ArrivalCountsAcks(n);
    } else if e.DropToB? {
      AckCountRemove(n.toB, e.i);
    }
  }

  lemma {:induction false} SingleAck3Always(n: Net, es: seq<Event>)
    requires Inv(n) && SingleAck3(n) && Run(n, es).Some?
    ensures SingleAck3(Run(n, es).value)
    decreases |es|
  {
    if es != [] {
      StepKeepsInv(true, n, es[0]);
      SingleAck3Step(n, es[0]);
      SingleAck3Always(Step(n, es[0]).value, es[1..]);
    }
  }

  lemma DroppedAck3Strands(n: Net, i: nat)
    requires Inv(n) && SingleAck3(n) && n.ledger.dups == 0 && i < |n.toB| && n.toB[i].kind.Ack?
    ensures var m := Step(n, DropToB(i)); m.Some? && Inv(m.value) && Stranded(m.value)
  {
    StepKeepsInv(true, n, DropToB(i));
    AckCountRemove(n.toB, i);
    AckCountZero(Remove(n.toB, i));
  }

  // On a channel that only drops, losing ACK 3 loses the connection: whatever happens afterwards, nothing is
  // delivered and no send_data returns.
  lemma DroppedAck3IsFatal(es: seq<Event>, i: nat, fs: seq<Event>)
    requires Run(START, es).Some? && Run(START, es).value.ledger.dups == 0
    requires var n := Run(START, es).value; i < |n.toB| && n.toB[i].kind.Ack?
    requires Run(START, es + [DropToB(i)] + fs).Some?
    ensures var m := Run(START, es + [DropToB(i)] + fs).value; m.delivered == [] && m.acked == 0
  {
    var n := Run(START, es).value;
    RunKeepsInv(true, START, es);
    SingleAck3Always(START, es);
    DroppedAck3Strands(n, i);
    RunThen(START, es, DropToB(i));
    RunAppend(START, es + [DropToB(i)], fs);
    StrandedForever(Step(n, DropToB(i)).value, fs);
  }

  // After Accept, Connect, the CONN's arrival and the arrival of ACK 2.
  const ACK3_SENT := Net(
    Socket(WaitSend, 0, Rtt.INITIAL, 240, Idle), Socket(Init, 0, Rtt.INITIAL, 240, AwaitingAck3),
    [AckSegment(3)], [], [], 0, [], Ledger(0, 0, 0, 0, 1))

  lemma FourSteps() returns (n1: Net, n2: Net, n3: Net)
    ensures Step(START, Accept) == Some(n1) && Step(n1, Connect) == Some(n2)
    ensures Step(n2, ArriveB) == Some(n3) && Step(n3, ArriveA(0)) == Some(ACK3_SENT)
  {
    n1 := Step(START, Accept).value;
    n2 := Step(n1, Connect).value;
    n3 := Step(n2, ArriveB).value;
    assert n2.toB == [CONN_SEGMENT] && n3.toB == [] && n3.toA == [AckSegment(2)];
    var n4 := Step(n3, ArriveA(0)).value;
    assert n4.toB == [AckSegment(3)] && n4.toA == [];
  }

  lemma ReachAck3Sent() returns (es: seq<Event>)
    ensures Run(START, es) == Some(ACK3_SENT) && Opening(es)
  {
    var n1, n2, n3 := FourSteps();
    es := [];
    RunThen(START, es, Accept);     es := es + [Accept];
    RunThen(START, es, Connect);    es := es + [Connect];
    RunThen(START, es, ArriveB);    es := es + [ArriveB];
    RunThen(START, es, ArriveA(0)); es := es + [ArriveA(0)];
  }

  // So the handshake need not complete: one dropped datagram is enough.
  lemma HandshakeCanFail() returns (es: seq<Event>)
    ensures Run(START, es).Some? && Stranded(Run(START, es).value) && Run(START, es).value.ledger.drops == 1
  {
    es := ReachAck3Sent();
    RunThen(START, es, DropToB(0));
    assert Step(ACK3_SENT, DropToB(0)).value.toB == [];
    es := es + [DropToB(0)];
  }
}
