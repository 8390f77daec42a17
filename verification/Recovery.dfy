// From which states sender.cpp and receiver.cpp can still get a file across.

module Recovery {
  import opened Prelude
  import opened Segments
  import opened Sockets
  import opened Transport
  import opened Handshake
  import opened Chunking
  import opened FileTransfer

  predicate Complete(file: seq<byte>, n: Net) { n.delivered == Chunks(file) }

  // A data segment awaits its ACK, no ACK and no data segment is in flight, and no timeout is set.
  ghost predicate Deadlocked(n: Net) {
    && Established(n) && AwaitsDataAck(n.a) && n.a.timeout == 0 && n.toA == []
    && forall i :: 0 <= i < |n.toB| ==> !n.toB[i].kind.Data?
  }

  // ----- neither condition ever ends

  lemma DeadlockedStep(n: Net, e: Event)
    requires Inv(n) && Deadlocked(n) && Step(n, e).Some?
    ensures var m := Step(n, e).value; Deadlocked(m) && m.delivered == n.delivered
  {
    var m := Step(n, e).value;
    if e.ArriveB? { PopB(true, n.offered, Connected(n), ClosingA(n), LowB(true, n), n.toB); }
    assert m.a == n.a && m.toA == [];
    forall i | 0 <= i < |m.toB| ensures !m.toB[i].kind.Data? { assert m.toB[i] in n.toB; }
  }

  lemma {:induction false} DeadlockedForever(n: Net, es: seq<Event>)
    requires Inv(n) && Deadlocked(n) && Run(n, es).Some?
    ensures Run(n, es).value.delivered == n.delivered
    decreases |es|
  {
    if es != [] {
      StepKeepsInv(true, n, es[0]);
      DeadlockedStep(n, es[0]);
      DeadlockedForever(Step(n, es[0]).value, es[1..]);
    }
  }

  // ----- where the two programs can get to

  ghost predicate Leads(file: seq<byte>, n: Net, m: Net) { exists es :: FileRun(file, n, es) && Run(n, es) == Some(m) }

  lemma LeadsBy(file: seq<byte>, n: Net, es: seq<Event>)
    requires Opening(es) && Run(n, es).Some?
    ensures Leads(file, n, Run(n, es).value)
  {
    OpeningIsFileRun(file, n, es);
  }

  lemma Here(file: seq<byte>, n: Net)
    ensures Leads(file, n, n)
  {
    LeadsBy(file, n, []);
  }

  lemma Then(file: seq<byte>, n: Net, k: Net, m: Net)
    requires Leads(file, n, k) && Leads(file, k, m)
    ensures Leads(file, n, m)
  {
    var es :| FileRun(file, n, es) && Run(n, es) == Some(k);
    var fs :| FileRun(file, k, fs) && Run(k, fs) == Some(m);
    FileRunAppend(file, n, es, fs);
    RunAppend(n, es, fs);
  }

  // One more event.
  lemma ThenStep(file: seq<byte>, n: Net, k: Net, e: Event) returns (m: Net)
    requires Leads(file, n, k) && FileInv(file, k) && FileEvent(file, k, e) && Step(k, e).Some?
    ensures Step(k, e) == Some(m) && Leads(file, n, m) && FileInv(file, m)
  {
    m := Step(k, e).value;
    FileStepKeepsInv(file, k, e);
    var es: seq<Event> := [];
    FileRunStep(file, k, e, m, es);
    assert FileRun(file, k, [e] + es) && Run(k, [e] + es) == Some(m);
    Then(file, n, k, m);
  }

  // The network may lose what is in front of a segment.
  lemma {:induction false} LoseFrontB(file: seq<byte>, n: Net, i: nat) returns (m: Net)
    requires FileInv(file, n) && i <= |n.toB|
    ensures Leads(file, n, m) && FileInv(file, m) && m == n.(toB := n.toB[i..], ledger := m.ledger)
    decreases i
  {
    Here(file, n);
    if i == 0 {
      m := n;
      assert n.toB[0..] == n.toB;
    } else {
      var k := ThenStep(file, n, n, DropToB(0));
      assert k.toB == n.toB[1..];
      m := LoseFrontB(file, k, i - 1);
      Then(file, n, k, m);
    }
  }

  lemma {:induction false} LoseFrontA(file: seq<byte>, n: Net, i: nat) returns (m: Net)
    requires FileInv(file, n) && i <= |n.toA|
    ensures Leads(file, n, m) && FileInv(file, m) && m == n.(toA := n.toA[i..], ledger := m.ledger)
    decreases i
  {
    Here(file, n);
    if i == 0 {
      m := n;
      assert n.toA[0..] == n.toA;
    } else {
      var k := ThenStep(file, n, n, DropToA(0));
      assert k.toA == n.toA[1..];
      m := LoseFrontA(file, k, i - 1);
      Then(file, n, k, m);
    }
  }

  // ----- an established connection with something left to deliver

  ghost predicate Active(file: seq<byte>, n: Net) { FileInv(file, n) && Established(n) && !Complete(file, n) }

  lemma ActiveFacts(file: seq<byte>, n: Net)
    requires Active(file, n)
    ensures !GotZero(n) && (n.b.call.Idle? || n.b.call.Receiving?) && n.b.status == DataStatus(|n.delivered|)
    ensures AwaitsDataAck(n.a) || (n.a.call.Idle? && n.a.status.WaitSend? && |n.offered| < |Chunks(file)|)
  {
    EmptyIsLast(file, n);
    assert n.delivered <= n.offered <= Chunks(file);
    assert |n.delivered| == |Chunks(file)| ==> Complete(file, n);
  }

  // The receiver is made to wait.
  lemma Listens(file: seq<byte>, n: Net) returns (m: Net)
    requires Active(file, n)
    ensures Leads(file, n, m) && Active(file, m) && m == n.(b := m.b) && m.b.call.Receiving?
  {
    ActiveFacts(file, n);
    Here(file, n);
    m := n;
    if n.b.call.Idle? { m := ThenStep(file, n, n, Receive); }
  }

  // Whatever data segment arrives, its ACK is sent.
  lemma DataIsAcknowledged(n: Net)
    requires Inv(n) && n.b.call.Receiving? && n.toB != [] && n.toB[0].kind.Data?
    ensures Step(n, ArriveB).Some?
    ensures var m := Step(n, ArriveB).value;
            && m.a == n.a && m.offered == n.offered && m.acked == n.acked && !m.b.status.Init?
            && m.toA == n.toA + [AckSegment(n.toB[0].sequenceNumber)]
  {
    DataInFlight(true, n);
  }

  lemma DataArrives(file: seq<byte>, n: Net) returns (m: Net)
    requires Active(file, n) && n.b.call.Receiving? && n.toB != [] && n.toB[0].kind.Data?
    ensures Leads(file, n, m) && FileInv(file, m) && Established(m)
    ensures m.a == n.a && m.offered == n.offered && m.acked == n.acked
    ensures m.toA == n.toA + [AckSegment(n.toB[0].sequenceNumber)]
  {
    DataIsAcknowledged(n);
    Here(file, n);
    m := ThenStep(file, n, n, ArriveB);
  }

  lemma DeliverData(file: seq<byte>, n: Net, i: nat) returns (m: Net)
    requires Active(file, n) && i < |n.toB| && n.toB[i].kind.Data?
    ensures Leads(file, n, m) && FileInv(file, m) && Established(m)
    ensures m.a == n.a && m.offered == n.offered && m.acked == n.acked
    ensures m.toA == n.toA + [AckSegment(n.toB[i].sequenceNumber)]
  {
    var k := LoseFrontB(file, n, i);
    var l := Listens(file, k);
    Then(file, n, k, l);
    m := DataArrives(file, l);
    Then(file, n, l, m);
  }

  // The ACK awaited arrives.
  lemma AckArrives(file: seq<byte>, n: Net, j: nat) returns (m: Net)
    requires FileInv(file, n) && Established(n) && AwaitsDataAck(n.a)
    requires j < |n.toA| && IsAck(n.toA[j], ExpectedAck(n.a.call.segment))
    ensures Leads(file, n, m) && FileInv(file, m) && Established(m) && m.a.call.Idle? && m.acked == n.acked + 1
  {
    var k := LoseFrontA(file, n, j);
    m := ThenStep(file, n, k, ArriveA(0));
  }

  ghost predicate NewestInFlight(n: Net) { AwaitsDataAck(n.a) && n.a.call.segment in n.toB }

  // Either everything is delivered, or one more send_data has returned.
  ghost predicate Further(file: seq<byte>, n: Net, m: Net) {
    && Leads(file, n, m) && FileInv(file, m) && Established(m)
    && (Complete(file, m) || (m.a.call.Idle? && m.acked == n.acked + 1))
  }

  lemma Exchanges(file: seq<byte>, n: Net) returns (m: Net)
    requires Active(file, n) && NewestInFlight(n)
    ensures Further(file, n, m)
  {
    var i :| 0 <= i < |n.toB| && n.toB[i] == n.a.call.segment;
    var k := DeliverData(file, n, i);
    m := AckArrives(file, k, |k.toA| - 1);
    Then(file, n, k, m);
  }

  // A timeout, or an ACK that is not the one awaited.
  lemma Repeats(file: seq<byte>, n: Net, e: Event) returns (m: Net)
    requires Active(file, n) && AwaitsDataAck(n.a) && Step(n, e).Some?
    requires e.TimeoutA? || (e == ArriveA(0) && !IsAck(n.toA[0], ExpectedAck(n.a.call.segment)))
    ensures Leads(file, n, m) && Active(file, m) && NewestInFlight(m) && m.acked == n.acked
  {
    Here(file, n);
    m := ThenStep(file, n, n, e);
    assert m.a == n.a && m.b == n.b && m.toB[|m.toB| - 1] == n.a.call.segment;
  }

  lemma GoesOn(file: seq<byte>, n: Net, e: Event) returns (m: Net)
    requires Active(file, n) && AwaitsDataAck(n.a) && Step(n, e).Some?
    requires e.TimeoutA? || (e == ArriveA(0) && !IsAck(n.toA[0], ExpectedAck(n.a.call.segment)))
    ensures Further(file, n, m)
  {
    var k := Repeats(file, n, e);
    m := Exchanges(file, k);
    Then(file, n, k, m);
  }

  lemma AckWakes(file: seq<byte>, n: Net) returns (m: Net)
    requires Active(file, n) && AwaitsDataAck(n.a) && n.toA != []
    ensures Further(file, n, m)
  {
    if IsAck(n.toA[0], ExpectedAck(n.a.call.segment)) {
      m := AckArrives(file, n, 0);
    } else {
      m := GoesOn(file, n, ArriveA(0));
    }
  }

  lemma Wakes(file: seq<byte>, n: Net) returns (m: Net)
    requires Active(file, n) && AwaitsDataAck(n.a) && !Deadlocked(n)
    ensures Further(file, n, m)
  {
    if n.a.timeout != 0 {
      m := GoesOn(file, n, TimeoutA);
    } else if n.toA != [] {
      m := AckWakes(file, n);
    } else {
      var i :| 0 <= i < |n.toB| && n.toB[i].kind.Data?;
      var k := DeliverData(file, n, i);
      m := k;
      if !Complete(file, k) {
        m := AckWakes(file, k);
        Then(file, n, k, m);
      }
    }
  }

  lemma NextChunk(file: seq<byte>, n: Net) returns (m: Net)
    requires Active(file, n) && n.a.call.Idle?
    ensures Further(file, n, m)
  {
    ActiveFacts(file, n);
    ChunkSizes(file);
    Here(file, n);
    var k := ThenStep(file, n, n, Send(Chunks(file)[|n.offered|]));
    assert k.toB[|k.toB| - 1] == k.a.call.segment;
    m := Exchanges(file, k);
    Then(file, n, k, m);
  }

  lemma {:induction false} Completes(file: seq<byte>, n: Net) returns (m: Net)
    requires FileInv(file, n) && Established(n) && (Complete(file, n) || !Deadlocked(n))
    ensures Leads(file, n, m) && Complete(file, m)
    decreases |Chunks(file)| - n.acked, if Complete(file, n) then 0 else 1
  {
    Here(file, n);
    m := n;
    if !Complete(file, n) {
      ActiveFacts(file, n);
      var k;
      if n.a.call.Idle? { k := NextChunk(file, n); } else { k := Wakes(file, n); }
      assert n.acked <= |n.offered| <= |Chunks(file)|;
      m := Completes(file, k);
      Then(file, n, k, m);
    }
  }

  // Before the receiver is established nothing is acknowledged, so the sender's timeout is still the first one.
  lemma Opens(file: seq<byte>, n: Net) returns (m: Net)
    requires FileInv(file, n) && !Established(n) && !Stranded(n)
    ensures Leads(file, n, m) && FileInv(file, m) && Established(m) && !Deadlocked(m)
  {
    var fs := EstablishFrom(n);
    LeadsBy(file, n, fs);
    OpeningIsFileRun(file, n, fs);
    FileRunKeepsInv(file, n, fs);
    m := Run(n, fs).value;
    assert m.acked == 0;
  }

  // From any state that the two programs can reach, the whole file can still be delivered if and only if it has
  // been, or the connection is neither stranded without ACK 3 nor deadlocked with a timeout of 0.
  lemma RecoverableIff(file: seq<byte>, es: seq<Event>)
    requires FileRun(file, START, es)
    ensures Run(START, es).Some?
    ensures var n := Run(START, es).value;
            (exists m :: Leads(file, n, m) && Complete(file, m))
            <==> Complete(file, n) || (!Stranded(n) && !Deadlocked(n))
  {
    FileRunKeepsInv(file, START, es);
    var n := Run(START, es).value;
    if Complete(file, n) {
      Here(file, n);
    } else if !Stranded(n) && !Deadlocked(n) {
      var k := n;
      Here(file, n);
      if !Established(n) { k := Opens(file, n); }
      var m := Completes(file, k);
      Then(file, n, k, m);
    } else {
      forall m | Leads(file, n, m) ensures !Complete(file, m) {
        var fs :| FileRun(file, n, fs) && Run(n, fs) == Some(m);
        if Stranded(n) { StrandedForever(n, fs); } else { DeadlockedForever(n, fs); }
      }
    }
  }
}
