// The repository's README lists reordering among the cases handled. One sequence bit cannot do that in general;
// this is exactly which swaps of neighbouring segments it survives.

module Reordering {
  import opened Prelude
  import opened Segments
  import opened Sockets
  import opened Transport
  import opened Progress

  function Swap<T>(s: seq<T>, i: nat): seq<T>
    requires i + 1 < |s|
  { s[i := s[i + 1]][i + 1 := s[i]] }

  function SwapToB(n: Net, i: nat): Net
    requires i + 1 < |n.toB|
  { n.(toB := Swap(n.toB, i)) }

  function SwapToA(n: Net, i: nat): Net
    requires i + 1 < |n.toA|
  { n.(toA := Swap(n.toA, i)) }

  // Two data segments with different bits change places while the receiver's socket is open.
  predicate HarmfulToB(n: Net, i: nat)
    requires i + 1 < |n.toB|
  {
    var x, y := n.toB[i], n.toB[i + 1];
    x.kind.Data? && y.kind.Data? && x.sequenceNumber != y.sequenceNumber && !n.b.call.Shut?
  }

  // Two ACKs of data segments with different bits change places.
  predicate HarmfulToA(n: Net, i: nat)
    requires i + 1 < |n.toA|
  {
    var x, y := n.toA[i], n.toA[i + 1];
    x.ackNumber < 2 && y.ackNumber < 2 && x.ackNumber != y.ackNumber
  }

  // What DeliversInOrder promises is gone.
  predicate Broken(n: Net) { !(n.delivered <= n.offered) || |n.delivered| < n.acked }

  // ----- runs in which any harmless swap may happen at any time

  datatype Move = Plain(event: Event) | SwapB(i: nat) | SwapA(i: nat)

  function Make(n: Net, move: Move): Option<Net> {
    match move
    case Plain(e) => Step(n, e)
    case SwapB(i) => if i + 1 < |n.toB| && !HarmfulToB(n, i) then Some(SwapToB(n, i)) else None
    case SwapA(i) => if i + 1 < |n.toA| && !HarmfulToA(n, i) then Some(SwapToA(n, i)) else None
  }

  function Travel(n: Net, moves: seq<Move>): Option<Net>
    decreases |moves|
  {
    if moves == [] then Some(n)
    else
      var m := Make(n, moves[0]);
      if m.None? then None else Travel(m.value, moves[1..])
  }

  lemma SwapBKeepsInv(n: Net, i: nat)
    requires InvOver(false, n) && i + 1 < |n.toB| && !HarmfulToB(n, i)
    ensures InvOver(false, SwapToB(n, i))
  {
    var r := Swap(n.toB, i);
    assert forall j :: 0 <= j < |r| ==> r[j] == n.toB[if j == i then i + 1 else if j == i + 1 then i else j];
  }

  lemma SwapAKeepsInv(n: Net, i: nat)
    requires InvOver(false, n) && i + 1 < |n.toA| && !HarmfulToA(n, i)
    ensures InvOver(false, SwapToA(n, i))
  {
    var r := Swap(n.toA, i);
    assert forall j :: 0 <= j < |r| ==> r[j] == n.toA[if j == i then i + 1 else if j == i + 1 then i else j];
  }

  lemma {:induction false} TravelKeepsInv(n: Net, moves: seq<Move>)
    requires InvOver(false, n) && Travel(n, moves).Some?
    ensures InvOver(false, Travel(n, moves).value)
    decreases |moves|
  {
    if moves != [] {
      match moves[0] {
        case Plain(e) => StepKeepsInv(false, n, e);
        case SwapB(i) => SwapBKeepsInv(n, i);
        case SwapA(i) => SwapAKeepsInv(n, i);
      }
      TravelKeepsInv(Make(n, moves[0]).value, moves[1..]);
    }
  }

  // The promises that DeliversInOrder, CloseMeansComplete and NeverAborts make.
  predicate Kept(n: Net) {
    && n.delivered <= n.offered
    && n.acked <= |n.delivered| <= n.acked + 1
    && (SawClose(n) || n.a.status.Closed? ==> n.delivered == n.offered)
    && !n.a.call.Aborted? && !n.b.call.Aborted?
  }

  lemma InvIsKept(n: Net)
    requires InvOver(false, n)
    ensures Kept(n)
  {
    assert SenderOk(n) && ReceiverOk(n) && Linked(n);
  }

  // With any number of harmless swaps on the way, the transport keeps its promises.
  lemma HarmlessSwapsAreHarmless(moves: seq<Move>)
    requires Travel(START, moves).Some?
    ensures Kept(Travel(START, moves).value)
  {
    TravelKeepsInv(START, moves);
    InvIsKept(Travel(START, moves).value);
  }

  // ----- every other swap breaks some continuation

  lemma HarmfulBFacts(n: Net, i: nat)
    requires InvOver(false, n) && i + 1 < |n.toB| && HarmfulToB(n, i)
    ensures var d := |n.delivered|;
            && |n.offered| == d + 1 && n.b.status == DataStatus(d)
            && (n.b.call.Idle? || n.b.call == Receiving(d % 2))
            && n.toB[i + 1].sequenceNumber == d % 2 && n.toB[i].sequenceNumber == 1 - d % 2
            && forall j :: 0 <= j < i ==>
                 !n.toB[j].kind.Close? && (n.toB[j].kind.Data? ==> n.toB[j].sequenceNumber == 1 - d % 2)
  {
    var total := |n.offered|;
    assert LevelB(total, n.toB[i]) <= LevelB(total, n.toB[i + 1]);
    assert ItemB(n.offered, Connected(n), ClosingA(n), n.toB[i]);
    assert ItemB(n.offered, Connected(n), ClosingA(n), n.toB[i + 1]);
    forall j | 0 <= j < i
      ensures !n.toB[j].kind.Close? && (n.toB[j].kind.Data? ==> n.toB[j].sequenceNumber == 1 - |n.delivered| % 2)
    {
      assert ItemB(n.offered, Connected(n), ClosingA(n), n.toB[j]);
    }
  }

  lemma TwoDeliveries(n: Net, expected: byte) returns (fs: seq<Event>, m: Net)
    requires expected < 2 && n.b.call == Receiving(expected) && n.b.status == DataStatus(expected)
    requires 2 <= |n.toB| && n.toB[0].kind.Data? && n.toB[1].kind.Data?
    requires n.toB[0].sequenceNumber == expected && n.toB[1].sequenceNumber == 1 - expected
    ensures Run(n, fs) == Some(m) && m.offered == n.offered
    ensures m.delivered == n.delivered + [n.toB[0].payload, n.toB[1].payload]
  {
    var n1 := Step(n, ArriveB).value;
    var n2 := Step(n1, Receive).value;
    assert n2.b.call == Receiving(1 - expected) && n2.toB == n.toB[1..];
    m := Step(n2, ArriveB).value;
    fs := [];
    RunThen(n, fs, ArriveB); fs := fs + [ArriveB];
    RunThen(n, fs, Receive); fs := fs + [Receive];
    RunThen(n, fs, ArriveB); fs := fs + [ArriveB];
  }

  // The receiver ignores or acknowledges again what is older; then it takes both for new.
  lemma {:induction false} Overtaken(n: Net, i: nat, expected: byte) returns (fs: seq<Event>, m: Net)
    requires expected < 2 && n.b.call == Receiving(expected) && n.b.status == DataStatus(expected)
    requires i + 1 < |n.toB| && n.toB[i].kind.Data? && n.toB[i + 1].kind.Data?
    requires n.toB[i].sequenceNumber == expected && n.toB[i + 1].sequenceNumber == 1 - expected
    requires forall j :: 0 <= j < i ==>
               !n.toB[j].kind.Close? && (n.toB[j].kind.Data? ==> n.toB[j].sequenceNumber == 1 - expected)
    ensures Run(n, fs) == Some(m) && m.offered == n.offered
    ensures m.delivered == n.delivered + [n.toB[i].payload, n.toB[i + 1].payload]
    decreases i
  {
    if i == 0 {
      fs, m := TwoDeliveries(n, expected);
    } else {
      var n1 := Step(n, ArriveB).value;
      assert n1.b == n.b && n1.toB == n.toB[1..] && n1.delivered == n.delivered;
      var rest;
      rest, m := Overtaken(n1, i - 1, expected);
      fs := [ArriveB] + rest;
      assert fs[1..] == rest;
    }
  }

  lemma HarmfulBBreaks(n: Net, i: nat) returns (fs: seq<Event>)
    requires InvOver(false, n) && i + 1 < |n.toB| && HarmfulToB(n, i)
    ensures var m := Run(SwapToB(n, i), fs);
            && m.Some? && Broken(m.value) && m.value.offered == n.offered
            && m.value.delivered == n.delivered + [n.toB[i + 1].payload, n.toB[i].payload]
  {
    HarmfulBFacts(n, i);
    var expected, k, m := |n.delivered| % 2, SwapToB(n, i), SwapToB(n, i);
    if n.b.call.Idle? {
      k := Step(m, Receive).value;
      fs, m := Overtaken(k, i, expected);
      assert ([Receive] + fs)[1..] == fs;
      fs := [Receive] + fs;
    } else {
      fs, m := Overtaken(k, i, expected);
    }
  }

  // Swapping neighbours on the way to the receiver breaks some continuation if and only if they are data
  // segments with different bits and the receiver's socket is open, whatever harmless swaps went before.
  lemma SwapToBIff(moves: seq<Move>, i: nat)
    requires Travel(START, moves).Some? && i + 1 < |Travel(START, moves).value.toB|
    ensures var n := Travel(START, moves).value;
            (exists fs :: Run(SwapToB(n, i), fs).Some? && Broken(Run(SwapToB(n, i), fs).value)) <==> HarmfulToB(n, i)
  {
    TravelKeepsInv(START, moves);
    var n := Travel(START, moves).value;
    if HarmfulToB(n, i) {
      var fs := HarmfulBBreaks(n, i);
    } else {
      SwapBKeepsInv(n, i);
      forall fs | Run(SwapToB(n, i), fs).Some? ensures !Broken(Run(SwapToB(n, i), fs).value) {
        RunKeepsInv(false, SwapToB(n, i), fs);
        InvIsKept(Run(SwapToB(n, i), fs).value);
      }
    }
  }

  lemma HarmfulAFacts(n: Net, i: nat)
    requires InvOver(false, n) && i + 1 < |n.toA| && HarmfulToA(n, i)
    ensures var k := n.acked % 2;
            && AwaitsDataAck(n.a) && n.a.call.segment.sequenceNumber == n.a.sequenceNumber == k
            && |n.delivered| == n.acked + 1
            && IsAck(n.toA[i + 1], k) && IsAck(n.toA[i], 1 - k)
            && forall j :: 0 <= j < i ==> !IsAck(n.toA[j], k)
  {
    var total := |n.offered|;
    assert LevelA(total, n.toA[i]) <= LevelA(total, n.toA[i + 1]);
    assert ItemA(total, |n.delivered|, SawConn(n), SawClose(n), n.toA[i]);
    assert ItemA(total, |n.delivered|, SawConn(n), SawClose(n), n.toA[i + 1]);
    forall j | 0 <= j < i ensures !IsAck(n.toA[j], n.acked % 2) {
      assert ItemA(total, |n.delivered|, SawConn(n), SawClose(n), n.toA[j]);
    }
  }

  lemma TwoAcks(n: Net, k: byte) returns (fs: seq<Event>, m: Net)
    requires k < 2 && AwaitsDataAck(n.a) && n.a.call.segment.sequenceNumber == n.a.sequenceNumber == k
    requires 2 <= |n.toA| && IsAck(n.toA[0], k) && IsAck(n.toA[1], 1 - k)
    ensures Run(n, fs) == Some(m) && m.acked == n.acked + 2 && m.delivered == n.delivered
  {
    var n1 := Step(n, ArriveA(0)).value;
    var n2 := Step(n1, Send([])).value;
    assert AwaitsDataAck(n2.a) && n2.a.call.segment.sequenceNumber == 1 - k && n2.toA == n.toA[1..];
    m := Step(n2, ArriveA(0)).value;
    fs := [];
    RunThen(n, fs, ArriveA(0)); fs := fs + [ArriveA(0)];
    RunThen(n, fs, Send([]));   fs := fs + [Send([])];
    RunThen(n, fs, ArriveA(0)); fs := fs + [ArriveA(0)];
  }

  // The sender answers what is older with retransmissions; then it takes the old ACK for that of a payload
  // the receiver has not seen.
  lemma {:induction false} Outrun(n: Net, i: nat, k: byte) returns (fs: seq<Event>, m: Net)
    requires k < 2 && AwaitsDataAck(n.a) && n.a.call.segment.sequenceNumber == n.a.sequenceNumber == k
    requires i + 1 < |n.toA| && IsAck(n.toA[i], k) && IsAck(n.toA[i + 1], 1 - k)
    requires forall j :: 0 <= j < i ==> !IsAck(n.toA[j], k)
    ensures Run(n, fs) == Some(m) && m.acked == n.acked + 2 && m.delivered == n.delivered
    decreases i
  {
    if i == 0 {
      fs, m := TwoAcks(n, k);
    } else {
      var n1 := Step(n, ArriveA(0)).value;
      assert n1.a == n.a && n1.toA == n.toA[1..] && n1.acked == n.acked && n1.delivered == n.delivered;
      var rest;
      rest, m := Outrun(n1, i - 1, k);
      fs := [ArriveA(0)] + rest;
      assert fs[1..] == rest;
    }
  }

  lemma HarmfulABreaks(n: Net, i: nat) returns (fs: seq<Event>)
    requires InvOver(false, n) && i + 1 < |n.toA| && HarmfulToA(n, i)
    ensures var m := Run(SwapToA(n, i), fs); m.Some? && |m.value.delivered| < m.value.acked
  {
    HarmfulAFacts(n, i);
    var m;
    fs, m := Outrun(SwapToA(n, i), i, n.acked % 2);
  }

  // Likewise on the way to the sender: if and only if they are ACKs of data segments with different bits.
  lemma SwapToAIff(moves: seq<Move>, i: nat)
    requires Travel(START, moves).Some? && i + 1 < |Travel(START, moves).value.toA|
    ensures var n := Travel(START, moves).value;
            (exists fs :: Run(SwapToA(n, i), fs).Some? && Broken(Run(SwapToA(n, i), fs).value)) <==> HarmfulToA(n, i)
  {
    TravelKeepsInv(START, moves);
    var n := Travel(START, moves).value;
    if HarmfulToA(n, i) {
      var fs := HarmfulABreaks(n, i);
    } else {
      SwapAKeepsInv(n, i);
      forall fs | Run(SwapToA(n, i), fs).Some? ensures !Broken(Run(SwapToA(n, i), fs).value) {
        RunKeepsInv(false, SwapToA(n, i), fs);
        InvIsKept(Run(SwapToA(n, i), fs).value);
      }
    }
  }

  // ----- a run that comes to a harmful swap

  lemma TransmitAgain(n: Net, p: Payload) returns (m: Net)
    requires Lockstep(n) && n.offered == [] && n.a.timeout != 0
    ensures Step(MidExchange(n, p), TimeoutA) == Some(m)
    ensures var k := MidExchange(n, p); m == k.(toB := m.toB, ledger := m.ledger)
    ensures m.toB == [DataSegment(0, p), DataSegment(0, p)]
  {
    LockstepFacts(n);
    m := Step(MidExchange(n, p), TimeoutA).value;
  }

  lemma FirstCopyArrives(n: Net, p: Payload, k: Net) returns (m: Net)
    requires Lockstep(n) && n.offered == []
    requires k == MidExchange(n, p).(toB := [DataSegment(0, p), DataSegment(0, p)], ledger := k.ledger)
    ensures Step(k, ArriveB) == Some(m) && m.a == k.a && m.offered == k.offered
    ensures m.toB == [DataSegment(0, p)] && m.toA == [AckSegment(0)] && m.delivered == [p]
    ensures m.b.call.Idle? && m.b.status.WaitData1?
  {
    LockstepFacts(n);
    m := Step(k, ArriveB).value;
  }

  lemma FirstAckArrives(n: Net, p: Payload, k: Net) returns (m: Net)
    requires Lockstep(n) && n.offered == [] && k.a == MidExchange(n, p).a && k.toA == [AckSegment(0)]
    ensures Step(k, ArriveA(1)) == Some(m)
    ensures m.b == k.b && m.offered == k.offered && m.delivered == k.delivered && m.toB == k.toB
    ensures m.a.call.Idle? && m.a.status.WaitSend? && m.a.sequenceNumber == 1
  {
    LockstepFacts(n);
    m := Step(k, ArriveA(1)).value;
  }

  // The first payload is transmitted twice, and its ACK comes back.
  lemma SentTwice(n: Net, p: Payload) returns (es: seq<Event>, m: Net)
    requires Lockstep(n) && n.offered == [] && n.a.timeout != 0 && |p| <= MAX_DATA_SIZE
    ensures Run(n, es) == Some(m)
    ensures m.toB == [DataSegment(0, p)] && m.offered == m.delivered == [p] && m.b.call.Idle? && m.b.status.WaitData1?
    ensures m.a.call.Idle? && m.a.status.WaitSend? && m.a.sequenceNumber == 1
  {
    LockstepFacts(n);
    FirstHalf(n, p);
    var n3 := TransmitAgain(n, p);
    var n4 := FirstCopyArrives(n, p, n3);
    m := FirstAckArrives(n, p, n4);
    es := [Send(p), Receive];
    RunThen(n, es, TimeoutA);   es := es + [TimeoutA];
    RunThen(n, es, ArriveB);    es := es + [ArriveB];
    RunThen(n, es, ArriveA(1)); es := es + [ArriveA(1)];
  }

  // Its second copy stays behind while the second payload is sent.
  lemma StaleBehindNew(n: Net, p: Payload, q: Payload) returns (es: seq<Event>, m: Net)
    requires Lockstep(n) && n.offered == [] && n.a.timeout != 0
    requires |p| <= MAX_DATA_SIZE && |q| <= MAX_DATA_SIZE
    ensures Run(n, es) == Some(m)
    ensures m.toB == [DataSegment(0, p), DataSegment(1, q)] && m.offered == [p, q] && m.delivered == [p]
    ensures m.b.call.Idle? && m.b.status.WaitData1?
  {
    var k;
    es, k := SentTwice(n, p);
    RunThen(n, es, Send(q));
    m := Step(k, Send(q)).value;
    es := es + [Send(q)];
  }

  // So it does happen: a run, one swap, and what was delivered is no prefix of what was offered.
  lemma ReorderingBreaksDelivery(p: Payload, q: Payload) returns (es: seq<Event>, fs: seq<Event>)
    requires |p| <= MAX_DATA_SIZE && |q| <= MAX_DATA_SIZE
    ensures Run(START, es).Some? && 2 <= |Run(START, es).value.toB|
    ensures var m := Run(SwapToB(Run(START, es).value, 0), fs);
            m.Some? && m.value.offered == [p, q] && m.value.delivered == [p, q, p]
            && !(m.value.delivered <= m.value.offered)
  {
    var setup := Establish();
    var rest, n := StaleBehindNew(ESTABLISHED, p, q);
    RunAppend(START, setup, rest);
    es := setup + rest;
    var m;
    fs, m := TwoDeliveries(Step(SwapToB(n, 0), Receive).value, 1);
    assert ([Receive] + fs)[1..] == fs;
    fs := [Receive] + fs;
  }
}
