// sender.cpp and receiver.cpp on top of the transport: which runs the two programs can produce, and what a
// file becomes.

module Chunking {
  import opened Prelude
  import opened Segments

  function Flatten(chunks: seq<seq<byte>>): seq<byte>
    decreases |chunks|
  { if chunks == [] then [] else chunks[0] + Flatten(chunks[1..]) }

  // The buffers sender.cpp passes to send_data: read() fills a whole buffer until it meets the end of the
  // file, and what that last read got is sent as well, even if it is nothing.
  function Chunks(file: seq<byte>): (chunks: seq<seq<byte>>)
    ensures chunks != []
    decreases |file|
  {
    if |file| < MAX_DATA_SIZE then [file] else [file[..MAX_DATA_SIZE]] + Chunks(file[MAX_DATA_SIZE..])
  }

  lemma {:induction false} ChunksFlatten(file: seq<byte>)
    ensures Flatten(Chunks(file)) == file
    decreases |file|
  {
    if |file| < MAX_DATA_SIZE {
      assert Chunks(file)[1..] == [];
    } else {
      ChunksFlatten(file[MAX_DATA_SIZE..]);
      assert Chunks(file)[1..] == Chunks(file[MAX_DATA_SIZE..]);
      assert file == file[..MAX_DATA_SIZE] + file[MAX_DATA_SIZE..];
    }
  }

  lemma OneChunkLess(size: nat)
    requires MAX_DATA_SIZE <= size
    ensures size / MAX_DATA_SIZE == (size - MAX_DATA_SIZE) / MAX_DATA_SIZE + 1
    ensures size % MAX_DATA_SIZE == (size - MAX_DATA_SIZE) % MAX_DATA_SIZE
  {
  }

  // All chunks are full but the last, which has the remaining |file| % MAX_DATA_SIZE bytes.
  lemma {:induction false} ChunkSizes(file: seq<byte>)
    ensures var c := Chunks(file);
            && |c| == |file| / 1394 + 1
            && (forall i :: 0 <= i < |c| - 1 ==> |c[i]| == 1394)
            && |c[|c| - 1]| == |file| % 1394
    decreases |file|
  {
    if MAX_DATA_SIZE <= |file| {
      ChunkSizes(file[MAX_DATA_SIZE..]);
      var c, rest := Chunks(file), Chunks(file[MAX_DATA_SIZE..]);
      assert forall i :: 1 <= i < |c| ==> c[i] == rest[i - 1];
      OneChunkLess(|file|);
    }
  }

  lemma {:induction false} FlattenAppend(p: seq<seq<byte>>, q: seq<seq<byte>>)
    ensures Flatten(p + q) == Flatten(p) + Flatten(q)
    decreases |p|
  {
    if p == [] {
      assert p + q == q;
    } else {
      assert (p + q)[1..] == p[1..] + q;
      FlattenAppend(p[1..], q);
    }
  }

  lemma FlattenPrefix(p: seq<seq<byte>>, q: seq<seq<byte>>)
    requires p <= q
    ensures Flatten(p) <= Flatten(q)
  {
    assert q == p + q[|p|..];
    FlattenAppend(p, q[|p|..]);
  }
}

module FileTransfer {
  import opened Prelude
  import opened Segments
  import opened Transport
  import opened Handshake
  import opened Progress
  import opened Chunking

  // receive_data has returned 0: for a CLOSE, or for a data segment with an empty payload.
  predicate GotZero(n: Net) {
    SawClose(n) || (n.delivered != [] && n.delivered[|n.delivered| - 1] == [])
  }

  // What receiver.cpp has written by now.
  function Output(n: Net): seq<byte> { Flatten(n.delivered) }

  // sender.cpp sends the chunks in order and then closes; receiver.cpp receives until it gets 0 and then
  // closes. Everything else is up to the network.
  predicate FileEvent(file: seq<byte>, n: Net, e: Event) {
    match e
    case Send(payload) => |n.offered| < |Chunks(file)| && payload == Chunks(file)[|n.offered|]
    case CloseA => n.offered == Chunks(file)
    case Receive => !GotZero(n)
    case CloseB => GotZero(n)
    case _ => true
  }

  predicate FileRun(file: seq<byte>, n: Net, es: seq<Event>)
    decreases |es|
  {
    es != [] ==>
      FileEvent(file, n, es[0]) && Step(n, es[0]).Some? && FileRun(file, Step(n, es[0]).value, es[1..])
  }

  ghost predicate NoneEmpty(payloads: seq<Payload>) { forall i :: 0 <= i < |payloads| ==> payloads[i] != [] }

  // What the programs keep, beside what the transport keeps.
  ghost predicate InStep(file: seq<byte>, n: Net) {
    && n.offered <= Chunks(file)
    && (ClosingA(n) || n.a.call.Shut? ==> n.offered == Chunks(file))
    && (n.b.call.Shut? ==> GotZero(n))
    && (n.b.call.Receiving? || SawClose(n) ==> NoneEmpty(n.delivered))
  }

  ghost predicate FileInv(file: seq<byte>, n: Net) { Inv(n) && InStep(file, n) }

  // Only the last chunk can be empty.
  lemma EmptyIsLast(file: seq<byte>, n: Net)
    requires FileInv(file, n)
    ensures forall i :: 0 <= i < |n.delivered| && n.delivered[i] == [] ==>
      i + 1 == |n.delivered| == |Chunks(file)| && |file| % 1394 == 0
  {
    ChunkSizes(file);
    assert n.delivered <= n.offered;
  }

  lemma SendOrCloseKeepsStep(file: seq<byte>, n: Net, e: Event)
    requires InStep(file, n) && FileEvent(file, n, e) && Step(n, e).Some? && (e.Send? || e.CloseA?)
    ensures InStep(file, Step(n, e).value)
  {
    var m := Step(n, e).value;
    assert m.b == n.b && m.delivered == n.delivered;
    if e.Send? { assert m.offered == n.offered + [Chunks(file)[|n.offered|]]; }
  }

  lemma SenderSideKeepsStep(file: seq<byte>, n: Net, e: Event)
    requires SenderOk(n) && InStep(file, n) && Step(n, e).Some? && (e.Connect? || e.ArriveA? || e.TimeoutA?)
    ensures InStep(file, Step(n, e).value)
  {
    var m := Step(n, e).value;
    assert m.b == n.b && m.offered == n.offered && m.delivered == n.delivered;
    assert ClosingA(m) || m.a.call.Shut? ==> ClosingA(n);
  }

  lemma ReceiveKeepsStep(file: seq<byte>, n: Net)
    requires FileInv(file, n) && !GotZero(n) && Step(n, Receive).Some?
    ensures InStep(file, Step(n, Receive).value)
  {
    EmptyIsLast(file, n);
    var m := Step(n, Receive).value;
    assert m.a == n.a && m.offered == n.offered && m.delivered == n.delivered && m.b.call.Receiving?;
  }

  lemma ReceiverSideKeepsStep(file: seq<byte>, n: Net, e: Event)
    requires ReceiverOk(n) && InStep(file, n) && FileEvent(file, n, e) && Step(n, e).Some?
    requires e.Accept? || e.ArriveB? || e.TimeoutB? || e.CloseB?
    ensures InStep(file, Step(n, e).value)
  {
    var m := Step(n, e).value;
    assert m.a == n.a && m.offered == n.offered;
    assert m.b.call.Receiving? || SawClose(m) || m.b.call.Shut? ==> m.delivered == n.delivered;
  }

  lemma ChannelKeepsStep(file: seq<byte>, n: Net, e: Event)
    requires InStep(file, n) && Step(n, e).Some? && (e.DropToA? || e.DropToB? || e.DupToA? || e.DupToB?)
    ensures InStep(file, Step(n, e).value)
  {
    var m := Step(n, e).value;
    assert m.a == n.a && m.b == n.b && m.offered == n.offered && m.delivered == n.delivered;
  }

  lemma FileStepKeepsInv(file: seq<byte>, n: Net, e: Event)
    requires FileInv(file, n) && FileEvent(file, n, e) && Step(n, e).Some?
    ensures FileInv(file, Step(n, e).value)
  {
    StepKeepsInv(true, n, e);
    match e
    case Send(_) | CloseA => SendOrCloseKeepsStep(file, n, e);
    case Connect | ArriveA(_) | TimeoutA => SenderSideKeepsStep(file, n, e);
    case Receive => ReceiveKeepsStep(file, n);
    case Accept | ArriveB | TimeoutB | CloseB => ReceiverSideKeepsStep(file, n, e);
    case _ => ChannelKeepsStep(file, n, e);
  }

  lemma {:induction false} FileRunKeepsInv(file: seq<byte>, n: Net, es: seq<Event>)
    requires FileInv(file, n) && FileRun(file, n, es)
    ensures Run(n, es).Some? && FileInv(file, Run(n, es).value)
    decreases |es|
  {
    if es != [] {
      FileStepKeepsInv(file, n, es[0]);
      FileRunKeepsInv(file, Step(n, es[0]).value, es[1..]);
    }
  }

  lemma ZeroMeansComplete(file: seq<byte>, n: Net)
    requires FileInv(file, n)
    ensures n.delivered <= Chunks(file)
    ensures GotZero(n) ==> n.delivered == Chunks(file) && (SawClose(n) <==> |file| % 1394 != 0)
    ensures n.a.status.Closed? ==> SawClose(n)
  {
    ChunkSizes(file);
    EmptyIsLast(file, n);
    assert n.delivered <= n.offered <= Chunks(file);
    if SawClose(n) {
      assert n.delivered == Chunks(file);
      assert n.delivered[|n.delivered| - 1] != [];
    }
  }

  // For every file and every run of the two programs over a lossy channel: what is written is a prefix of the
  // file; when the receiving loop ends it is the whole file; and the receiver then has seen the CLOSE exactly
  // when the file's length is not a multiple of 1394. Otherwise the empty last chunk ended its loop, the
  // CLOSE finds nobody, and the sender's close_connection does not return.
  lemma FileArrives(file: seq<byte>, es: seq<Event>)
    requires FileRun(file, START, es)
    ensures Run(START, es).Some?
    ensures var n := Run(START, es).value;
            && Output(n) <= file
            && (GotZero(n) ==> Output(n) == file)
            && (GotZero(n) ==> (SawClose(n) <==> |file| % 1394 != 0))
            && (n.a.status.Closed? ==> |file| % 1394 != 0)
  {
    FileRunKeepsInv(file, START, es);
    var n := Run(START, es).value;
    ZeroMeansComplete(file, n);
    ChunksFlatten(file);
    FlattenPrefix(n.delivered, Chunks(file));
  }

  // ----- a loss-free run for every file

  lemma {:induction false} FileRunAppend(file: seq<byte>, n: Net, es: seq<Event>, fs: seq<Event>)
    requires FileRun(file, n, es) && Run(n, es).Some? && FileRun(file, Run(n, es).value, fs)
    ensures FileRun(file, n, es + fs)
    decreases |es|
  {
    if es == [] {
      assert es + fs == fs;
    } else {
      assert (es + fs)[1..] == es[1..] + fs;
      FileRunAppend(file, Step(n, es[0]).value, es[1..], fs);
    }
  }

  lemma FileRunStep(file: seq<byte>, n: Net, e: Event, m: Net, es: seq<Event>)
    requires FileEvent(file, n, e) && Step(n, e) == Some(m)
    requires FileRun(file, m, es) && Run(m, es).Some?
    ensures FileRun(file, n, [e] + es) && Run(n, [e] + es) == Run(m, es)
  {
    assert ([e] + es)[1..] == es;
  }

  lemma SendAndReceive(n: Net, payload: Payload) returns (m: Net)
    requires Lockstep(n) && |payload| <= MAX_DATA_SIZE
    ensures Step(n, Send(payload)) == Some(m) && Step(m, Receive) == Some(MidExchange(n, payload))
    ensures GotZero(m) <==> GotZero(n)
  {
    LockstepFacts(n);
    m := Step(n, Send(payload)).value;
    assert m.toB == [DataSegment(n.a.sequenceNumber, payload)];
  }

  lemma ExchangeIsFileRun(file: seq<byte>, n: Net, payload: Payload)
    requires Lockstep(n) && |payload| <= MAX_DATA_SIZE && !GotZero(n)
    requires FileEvent(file, n, Send(payload))
    ensures FileRun(file, n, ExchangeEvents(payload, 0))
  {
    var m := SendAndReceive(n, payload);
    DataCrosses(n, payload);
    AckCrosses(n, payload, 0);
    FileRunStep(file, LateExchange(n, payload), ArriveA(0), AfterExchange(n, payload, 0), []);
    FileRunStep(file, MidExchange(n, payload), ArriveB, LateExchange(n, payload), [ArriveA(0)] + []);
    FileRunStep(file, m, Receive, MidExchange(n, payload), [ArriveB] + ([ArriveA(0)] + []));
    FileRunStep(file, n, Send(payload), m, [Receive] + ([ArriveB] + ([ArriveA(0)] + [])));
    assert [Send(payload)] + ([Receive] + ([ArriveB] + ([ArriveA(0)] + []))) == ExchangeEvents(payload, 0);
  }

  lemma {:induction false} SendChunks(file: seq<byte>, n: Net) returns (es: seq<Event>)
    requires Lockstep(n) && n.offered <= Chunks(file) && |n.offered| < |Chunks(file)|
    ensures FileRun(file, n, es) && Run(n, es).Some?
    ensures Lockstep(Run(n, es).value) && Run(n, es).value.offered == Chunks(file)
    decreases |Chunks(file)| - |n.offered|
  {
    ChunkSizes(file);
    LockstepFacts(n);
    var payload := Chunks(file)[|n.offered|];
    assert n.offered != [] ==> n.offered[|n.offered| - 1] == Chunks(file)[|n.offered| - 1];
    ExchangeIsFileRun(file, n, payload);
    Exchange(n, payload, 0);
    es := ExchangeEvents(payload, 0);
    var m := AfterExchange(n, payload, 0);
    if |m.offered| < |Chunks(file)| {
      var rest := SendChunks(file, m);
      FileRunAppend(file, n, es, rest);
      RunAppend(n, es, rest);
      es := es + rest;
    }
  }

  lemma {:induction false} OpeningIsFileRun(file: seq<byte>, n: Net, es: seq<Event>)
    requires Opening(es) && Run(n, es).Some?
    ensures FileRun(file, n, es)
    decreases |es|
  {
    if es != [] {
      assert es[0] in es && forall e <- es[1..] :: e in es;
      OpeningIsFileRun(file, Step(n, es[0]).value, es[1..]);
    }
  }

  // Every file can arrive.
  lemma FileCanArrive(file: seq<byte>) returns (es: seq<Event>)
    ensures FileRun(file, START, es) && Run(START, es).Some?
    ensures var n := Run(START, es).value; Lockstep(n) && n.offered == Chunks(file) && Output(n) == file
  {
    var setup := Establish();
    OpeningIsFileRun(file, START, setup);
    var rest := SendChunks(file, ESTABLISHED);
    FileRunAppend(file, START, setup, rest);
    RunAppend(START, setup, rest);
    es := setup + rest;
    ChunksFlatten(file);
    LockstepFacts(Run(START, es).value);
  }

  // The CLOSE and its ACK cross.
  lemma CloseSteps(n: Net) returns (n1: Net, n2: Net, n3: Net, n4: Net)
    requires Lockstep(n)
    ensures Step(n, CloseA) == Some(n1) && Step(n1, Receive) == Some(n2) && n1.b == n.b && n1.delivered == n.delivered
    ensures Step(n2, ArriveB) == Some(n3) && Step(n3, ArriveA(0)) == Some(n4) && n4.a.status.Closed?
  {
    LockstepFacts(n);
    n1 := Step(n, CloseA).value;
    assert n1.toB == [CLOSE_SEGMENT];
    n2 := Step(n1, Receive).value;
    n3 := Step(n2, ArriveB).value;
    assert n3.toA == [AckSegment(4)];
    n4 := Step(n3, ArriveA(0)).value;
  }

  lemma CloseCrosses(file: seq<byte>, n: Net) returns (es: seq<Event>)
    requires Lockstep(n) && n.offered == Chunks(file) && !GotZero(n)
    ensures FileRun(file, n, es) && Run(n, es).Some? && Run(n, es).value.a.status.Closed?
  {
    var n1, n2, n3, n4 := CloseSteps(n);
    assert !GotZero(n1);
    FileRunStep(file, n3, ArriveA(0), n4, []);
    FileRunStep(file, n2, ArriveB, n3, [ArriveA(0)] + []);
    FileRunStep(file, n1, Receive, n2, [ArriveB] + ([ArriveA(0)] + []));
    es := [Receive] + ([ArriveB] + ([ArriveA(0)] + []));
    FileRunStep(file, n, CloseA, n1, es);
    es := [CloseA] + es;
  }

  lemma CloseCanReturn(file: seq<byte>) returns (es: seq<Event>)
    requires |file| % 1394 != 0
    ensures FileRun(file, START, es) && Run(START, es).Some? && Run(START, es).value.a.status.Closed?
  {
    es := FileCanArrive(file);
    var n := Run(START, es).value;
    LockstepFacts(n);
    ChunkSizes(file);
    assert !GotZero(n);
    var ending := CloseCrosses(file, n);
    FileRunAppend(file, START, es, ending);
    RunAppend(START, es, ending);
    es := es + ending;
  }

  // sender.cpp's close_connection can return if and only if the file's length is not a multiple of 1394.
  lemma CloseReturnsIff(file: seq<byte>)
    ensures (exists es :: FileRun(file, START, es) && Run(START, es).Some? && Run(START, es).value.a.status.Closed?)
            <==> |file| % 1394 != 0
  {
    if |file| % 1394 != 0 {
      var es := CloseCanReturn(file);
    } else {
      forall es | FileRun(file, START, es) && Run(START, es).Some?
        ensures !Run(START, es).value.a.status.Closed?
      {
        FileArrives(file, es);
      }
    }
  }

  // ----- the receiving program ends

  // Once receive_data has returned 0 the receiving program ends, whatever the network does, by its own call and,
  // if it has seen the CLOSE, its timeout.
  lemma ReceiverEnds(file: seq<byte>, es: seq<Event>) returns (fs: seq<Event>)
    requires FileRun(file, START, es) && Run(START, es).Some? && GotZero(Run(START, es).value)
    ensures forall e <- fs :: e.CloseB? || e.TimeoutB?
    ensures FileRun(file, START, es + fs) && Run(START, es + fs).Some?
    ensures var n := Run(START, es + fs).value;
            && n.b.call.Shut? && Output(n) == file
            && (n.b.status.Closed? <==> |file| % 1394 != 0)
  {
    FileRunKeepsInv(file, START, es);
    FileArrives(file, es);
    var n := Run(START, es).value;
    var m;
    fs, m := LetClose(file, n);
    FileRunAppend(file, START, es, fs);
    RunAppend(START, es, fs);
  }

  lemma LetClose(file: seq<byte>, n: Net) returns (fs: seq<Event>, m: Net)
    requires FileInv(file, n) && GotZero(n)
    ensures forall e <- fs :: e.CloseB? || e.TimeoutB?
    ensures FileRun(file, n, fs) && Run(n, fs) == Some(m)
    ensures m.b.call.Shut? && m.delivered == n.delivered && (m.b.status.Closed? <==> SawClose(n))
  {
    if n.b.call.Shut? {
      fs, m := [], n;
    } else if n.b.call.Draining? {
      m := Step(n, TimeoutB).value;
      FileRunStep(file, n, TimeoutB, m, []);
      fs := [TimeoutB] + [];
    } else {
      GotZeroIsIdle(file, n);
      var k := Step(n, CloseB).value;
      FileStepKeepsInv(file, n, CloseB);
      if k.b.call.Draining? {
        m := Step(k, TimeoutB).value;
        FileRunStep(file, k, TimeoutB, m, []);
        FileRunStep(file, n, CloseB, k, [TimeoutB] + []);
        fs := [CloseB] + ([TimeoutB] + []);
      } else {
        m := k;
        FileRunStep(file, n, CloseB, m, []);
        fs := [CloseB] + [];
      }
    }
  }

  lemma GotZeroIsIdle(file: seq<byte>, n: Net)
    requires FileInv(file, n) && GotZero(n) && !n.b.call.Shut? && !n.b.call.Draining?
    ensures n.b.call.Idle?
  {
    if n.delivered != [] && n.delivered[|n.delivered| - 1] == [] { assert !NoneEmpty(n.delivered); }
  }
}
