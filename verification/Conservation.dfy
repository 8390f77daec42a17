// How many segments can be in flight. send_until_acked answers a wrong ACK with a retransmission, which in
// other protocols lets stale ACKs multiply; here they cannot.

module Conservation {
  import opened Prelude
  import opened Segments
  import opened Sockets
  import opened Transport
  import opened Handshake

  function InFlight(n: Net): nat { |n.toA| + |n.toB| }

  // What the sender's own calls account for: nothing before CONN, two while a segment awaits its ACK (the
  // second one is ACK 3 or what has become of it), one otherwise.
  function Budget(a: Socket): nat { if a.call.Sending? then 2 else if a.status.Init? then 0 else 1 }

  ghost predicate Conserved(n: Net) {
    InFlight(n) + n.ledger.drops <= Budget(n.a) + n.ledger.timeouts + n.ledger.dups
  }

  lemma SenderConserves(n: Net, e: Event)
    requires Inv(n) && Conserved(n) && Step(n, e).Some? && (e.Connect? || e.Send? || e.CloseA?)
    ensures Conserved(Step(n, e).value)
  {
  }

  // A segment taken in is answered by one segment at most; the sender's call ends only without an answer, but
  // for ACK 2.
  lemma ArrivalConserves(n: Net, e: Event)
    requires Inv(n) && Conserved(n) && Step(n, e).Some? && (e.ArriveA? || e.ArriveB?)
    ensures Conserved(Step(n, e).value)
  {
    var m := Step(n, e).value;
    if e.ArriveA? {
      assert InFlight(m) <= InFlight(n) + (if n.a.call.Sending? && !m.a.call.Sending? then -1 else 0);
    } else {
      assert m.a == n.a && InFlight(m) <= InFlight(n);
    }
  }

  lemma ConservedStep(n: Net, e: Event)
    requires Inv(n) && Conserved(n) && Step(n, e).Some?
    ensures Conserved(Step(n, e).value)
  {
    match e
    case Connect | Send(_) | CloseA => SenderConserves(n, e);
    case ArriveA(_) | ArriveB => ArrivalConserves(n, e);
    case _ => assert Step(n, e).value.a.status == n.a.status;
  }

  lemma {:induction false} ConservedAlways(n: Net, es: seq<Event>)
    requires Inv(n) && Conserved(n) && Run(n, es).Some?
    ensures Conserved(Run(n, es).value)
    decreases |es|
  {
    if es != [] {
      StepKeepsInv(true, n, es[0]);
      ConservedStep(n, es[0]);
      ConservedAlways(Step(n, es[0]).value, es[1..]);
    }
  }

  // In every reachable state the segments in flight and the segments dropped so far are together at most two
  // more than the timeouts and duplications so far.
  lemma SegmentConservation(es: seq<Event>)
    requires Run(START, es).Some?
    ensures var n := Run(START, es).value;
            |n.toA| + |n.toB| + n.ledger.drops <= 2 + n.ledger.timeouts + n.ledger.dups
  {
    ConservedAlways(START, es);
  }

  // ----- and the bound is reached

  // After ACK 3 has been sent and before it arrives, the receiver repeats ACK 2, and the channels what they hold.
  ghost predicate Crowded(n: Net) {
    Inv(n) && n.a.call.Sending? && n.b.call.AwaitingAck3? && n.toB != []
    && InFlight(n) + n.ledger.drops == 2 + n.ledger.timeouts + n.ledger.dups
  }

  lemma CrowdMore(n: Net, e: Event) returns (m: Net)
    requires Crowded(n) && (e.TimeoutB? || (e == DupToA(0) && n.toA != []) || e == DupToB(0))
    ensures Step(n, e) == Some(m) && Crowded(m) && (e.TimeoutB? ==> m.toA != []) && (n.toA != [] ==> m.toA != [])
    ensures m.ledger.drops == n.ledger.drops
    ensures m.ledger.timeouts == n.ledger.timeouts + One(e.TimeoutB?)
    ensures m.ledger.dups == n.ledger.dups + One(!e.TimeoutB?)
  {
    m := Step(n, e).value;
    StepKeepsInv(true, n, e);
  }

  lemma {:induction false} CrowdOn(n: Net, timeouts: nat, dupsA: nat, dupsB: nat) returns (es: seq<Event>)
    requires Crowded(n) && (timeouts == 0 && dupsA != 0 ==> n.toA != [])
    ensures Run(n, es).Some? && Crowded(Run(n, es).value)
    ensures var l := Run(n, es).value.ledger;
            && l.drops == n.ledger.drops && l.timeouts == n.ledger.timeouts + timeouts
            && l.dups == n.ledger.dups + dupsA + dupsB
    decreases timeouts + dupsA + dupsB
  {
    es := [];
    if timeouts + dupsA + dupsB != 0 {
      var e := if timeouts != 0 then TimeoutB else if dupsA != 0 then DupToA(0) else DupToB(0);
      var m := CrowdMore(n, e);
      var rest := CrowdOn(m, if timeouts != 0 then timeouts - 1 else 0,
                          if timeouts == 0 && dupsA != 0 then dupsA - 1 else dupsA,
                          if timeouts == 0 && dupsA == 0 then dupsB - 1 else dupsB);
      es := [e] + rest;
      assert es[1..] == rest;
    }
  }

  lemma CrowdBegins() returns (es: seq<Event>)
    ensures Run(START, es).Some? && Crowded(Run(START, es).value)
    ensures var l := Run(START, es).value.ledger; l.drops == 0 && l.timeouts == 0 && l.dups == 0
  {
    es := ReachAck3Sent();
    RunThen(START, es, Send([]));
    var m := Step(ACK3_SENT, Send([])).value;
    assert m.toB == [AckSegment(3), DataSegment(0, [])];
    es := es + [Send([])];
    RunKeepsInv(true, START, es);
  }

  // For any numbers of timeouts and of duplications on the two channels (on the way to the sender there must be
  // something to duplicate) some run has as many segments in flight as the bound allows.
  lemma ConservationIsTight(timeouts: nat, dupsA: nat, dupsB: nat) returns (es: seq<Event>)
    requires dupsA != 0 ==> timeouts != 0
    ensures Run(START, es).Some?
    ensures var n := Run(START, es).value;
            && n.ledger.timeouts == timeouts && n.ledger.dups == dupsA + dupsB && n.ledger.drops == 0
            && |n.toA| + |n.toB| == 2 + timeouts + dupsA + dupsB
  {
    es := CrowdBegins();
    var more := CrowdOn(Run(START, es).value, timeouts, dupsA, dupsB);
    RunAppend(START, es, more);
    es := es + more;
  }
}
